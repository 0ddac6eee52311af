/** One camera session as a step machine: reader queue, capture loop, fan-out and subscribers, under every schedule. */
module Pipeline {
  import opened Sequences
  import opened AnnexB
  import opened ParamSets
  import opened Delivery

  /** The reader: idle, or holding a frame it found no room for, before and after dropping the oldest one. */
  datatype Producer = Ready | Full | Pushing

  /** The hex texts of the camera's configuration. */
  datatype SeedTexts = SeedTexts(sps: string, pps: string, vps: string)

  /**
   * A registered WatchFrames call. Its channel holds the priming frame, if it is still there, and then `queue`;
   * frames are named by their position among the shared ones. `joined` is the cache the priming frame was built from.
   */
  datatype Subscriber = Subscriber(
    prime: Option<seq<byte>>,
    queue: seq<nat>,
    watcher: Watcher,
    sent: seq<nat>,
    primeSent: bool,
    joined: ParamCache)

  datatype State = State(
    enc: Encoding,
    seed: ParamCache,
    producer: Producer,
    emitted: seq<Frame>,       // every frame the reader made, in order
    readerQueue: seq<nat>,     // positions in `emitted`
    taken: seq<nat>,           // positions in `emitted` of the frames the capture loop received
    datas: seq<seq<byte>>,     // their original bytes
    shared: seq<Frame>,        // the same frames after injection
    fanned: nat,               // how many of them were broadcast
    cache: ParamCache,
    snapshots: set<ParamCache>, // caches loaded by calls that have yet to register
    subs: map<nat, Subscriber>,
    nextSub: nat)

  datatype Step =
    | Produce(f: Frame)
    | DropOldest
    | Push
    | Take
    | FanOut
    | Snapshot
    | Register(snap: ParamCache)
    | Receive(id: nat)
    | Leave(id: nat)

  /** The cache a session starts with; only bitstream cameras are seeded. */
  function Seed(enc: Encoding, texts: SeedTexts): ParamCache {
    if IsBitstream(enc) then SeedParamSets(texts.sps, texts.pps, texts.vps) else None
  }

  function Init(enc: Encoding, texts: SeedTexts): State {
    State(enc, Seed(enc, texts), Ready, [], [], [], [], [], 0, Seed(enc, texts), {}, map[], 0)
  }

  // ------------------------------------------------------------------
  // The steps
  // ------------------------------------------------------------------

  function ApplyProduce(s: State, f: Frame): Option<State> {
    if s.producer != Ready || f.encoding != s.enc then None
    else if s.emitted != [] && f.sequence <= s.emitted[|s.emitted| - 1].sequence then None
    else if |s.readerQueue| < QUEUE_CAP then
      Some(s.(emitted := s.emitted + [f], readerQueue := s.readerQueue + [|s.emitted|]))
    else
      Some(s.(emitted := s.emitted + [f], producer := Full))
  }

  /** The reader takes the head of its own queue away; the capture loop may have emptied it meanwhile. */
  function ApplyDropOldest(s: State): Option<State> {
    if s.producer != Full then None
    else Some(s.(producer := Pushing, readerQueue := if s.readerQueue == [] then [] else s.readerQueue[1..]))
  }

  function ApplyPush(s: State): Option<State> {
    if s.producer != Pushing || |s.readerQueue| >= QUEUE_CAP || s.emitted == [] then None
    else Some(s.(producer := Ready, readerQueue := s.readerQueue + [|s.emitted| - 1]))
  }

  /** The capture loop receives a frame and injects parameter sets into its copy. */
  function ApplyTake(s: State): Option<State> {
    if s.readerQueue == [] || s.fanned != |s.shared| || s.readerQueue[0] >= |s.emitted| then None
    else
      var i := s.readerQueue[0];
      var f := s.emitted[i];
      var cache := if IsBitstream(s.enc) then Updated(s.cache, Units(f.data), s.enc) else s.cache;
      var out := if IsBitstream(s.enc) then f.(data := Injected(cache, f.data, s.enc)) else f;
      Some(s.(readerQueue := s.readerQueue[1..], taken := s.taken + [i], datas := s.datas + [f.data],
              shared := s.shared + [out], cache := cache))
  }

  /** A subscriber with a full channel misses the frame. */
  function Offer(sub: Subscriber, k: nat): Subscriber {
    if |sub.queue| + (if sub.prime.Some? then 1 else 0) < QUEUE_CAP then sub.(queue := sub.queue + [k]) else sub
  }

  function ApplyFanOut(s: State): Option<State> {
    if s.fanned >= |s.shared| then None
    else Some(s.(fanned := s.fanned + 1, subs := map id | id in s.subs :: Offer(s.subs[id], s.fanned)))
  }

  function Newcomer(enc: Encoding, snap: ParamCache): Subscriber {
    Subscriber(if IsBitstream(enc) && Complete(snap) then Some(snap.value.ParamPrefix()) else None,
               [], Watcher(!IsBitstream(enc), 0), [], false, snap)
  }

  function ApplyRegister(s: State, snap: ParamCache): Option<State> {
    if snap !in s.snapshots then None
    else Some(s.(subs := s.subs[s.nextSub := Newcomer(s.enc, snap)], nextSub := s.nextSub + 1))
  }

  function ReceiveNext(s: State, sub: Subscriber): Option<Subscriber> {
    if sub.prime.Some? then
      match Forward(sub.watcher, Frame(sub.prime.value, s.enc, 0))
      case None => Some(sub.(prime := None))
      case Some(w) => Some(sub.(prime := None, watcher := w, primeSent := true))
    else if sub.queue == [] || sub.queue[0] >= |s.shared| then None
    else
      match Forward(sub.watcher, s.shared[sub.queue[0]])
      case None => Some(sub.(queue := sub.queue[1..]))
      case Some(w) => Some(sub.(queue := sub.queue[1..], watcher := w, sent := sub.sent + [sub.queue[0]]))
  }

  function ApplyReceive(s: State, id: nat): Option<State> {
    if id !in s.subs then None
    else
      match ReceiveNext(s, s.subs[id])
      case None => None
      case Some(sub) => Some(s.(subs := s.subs[id := sub]))
  }

  /** The state after `step`, or None when the step is not enabled. */
  function Apply(s: State, step: Step): Option<State> {
    match step
    case Produce(f) => ApplyProduce(s, f)
    case DropOldest => ApplyDropOldest(s)
    case Push => ApplyPush(s)
    case Take => ApplyTake(s)
    case FanOut => ApplyFanOut(s)
    case Snapshot => Some(s.(snapshots := s.snapshots + {s.cache}))
    case Register(snap) => ApplyRegister(s, snap)
    case Receive(id) => ApplyReceive(s, id)
    case Leave(id) => Some(s.(subs := s.subs - {id}))
  }

  /** The state after a whole schedule of enabled steps. */
  function Run(s: State, steps: seq<Step>): Option<State> {
    if steps == [] then Some(s)
    else
      match Run(s, steps[..|steps| - 1])
      case None => None
      case Some(t) => Apply(t, steps[|steps| - 1])
  }

  // ------------------------------------------------------------------
  // The invariant
  // ------------------------------------------------------------------

  predicate Increasing(a: seq<nat>) {
    forall i, j :: 0 <= i < j < |a| ==> a[i] < a[j]
  }

  predicate Below(a: seq<nat>, bound: int) {
    forall i :: 0 <= i < |a| ==> a[i] < bound
  }

  predicate Before(a: seq<nat>, b: seq<nat>) {
    forall i, j :: 0 <= i < |a| && 0 <= j < |b| ==> a[i] < b[j]
  }

  ghost predicate EmittedOk(enc: Encoding, emitted: seq<Frame>) {
    && (forall i :: 0 <= i < |emitted| ==> emitted[i].encoding == enc)
    && (forall i, j :: 0 <= i < j < |emitted| ==> emitted[i].sequence < emitted[j].sequence)
  }

  // The reader's queue continues the captured frames; a frame in the reader's hand comes after both, and has room
  // once the oldest one is dropped.
  ghost predicate QueueOk(emitted: nat, producer: Producer, taken: seq<nat>, queue: seq<nat>) {
    && |queue| + (if producer == Pushing then 1 else 0) <= QUEUE_CAP
    && Increasing(taken) && Increasing(queue) && Before(taken, queue)
    && (producer != Ready ==> emitted > 0)
    && Below(taken, emitted - (if producer == Ready then 0 else 1))
    && Below(queue, emitted - (if producer == Ready then 0 else 1))
  }

  /** What the capture loop makes of frame `f`, the last of the frames `datas` it has received. */
  function SharedForm(enc: Encoding, seed: ParamCache, f: Frame, datas: seq<seq<byte>>): Frame {
    if IsBitstream(enc) then f.(data := Injected(CacheAfter(seed, datas, enc), f.data, enc)) else f
  }

  ghost predicate CaptureOk(enc: Encoding, seed: ParamCache, emitted: seq<Frame>, taken: seq<nat>,
                            datas: seq<seq<byte>>, shared: seq<Frame>) {
    && |shared| == |taken| == |datas|
    && forall k :: 0 <= k < |taken| ==>
         taken[k] < |emitted| && datas[k] == emitted[taken[k]].data
         && shared[k] == SharedForm(enc, seed, emitted[taken[k]], datas[..k + 1])
  }

  /** The cache after the first `k` frames the capture loop received. */
  function CacheAt(enc: Encoding, seed: ParamCache, datas: seq<seq<byte>>, k: nat): ParamCache
    requires k <= |datas|
  {
    if IsBitstream(enc) then CacheAfter(seed, datas[..k], enc) else seed
  }

  /** A cache the session has had. */
  ghost predicate WasCached(enc: Encoding, seed: ParamCache, datas: seq<seq<byte>>, cache: ParamCache) {
    exists k: nat :: k <= |datas| && cache == CacheAt(enc, seed, datas, k)
  }

  /** The priming frame is forwarded once it is taken off the channel, if its prefix holds an IDR. */
  predicate PrimeForwarded(enc: Encoding, sub: Subscriber) {
    IsBitstream(enc) && Complete(sub.joined) && sub.prime.None? && Holds(sub.joined.value.ParamPrefix(), enc, Idr)
  }

  ghost predicate SubscriberOk(enc: Encoding, shared: seq<Frame>, fanned: nat, sub: Subscriber) {
    && fanned <= |shared|
    && Increasing(sub.sent) && Increasing(sub.queue) && Before(sub.sent, sub.queue)
    && Below(sub.sent, fanned) && Below(sub.queue, fanned)
    && (sub.primeSent <==> PrimeForwarded(enc, sub))
    && (sub.prime.Some? ==>
          IsBitstream(enc) && Complete(sub.joined) && sub.prime.value == sub.joined.value.ParamPrefix()
              && sub.sent == [])
    && (IsBitstream(enc) ==> (sub.watcher.seenKeyframe <==> sub.sent != [] || sub.primeSent))
    && (IsBitstream(enc) && sub.sent != [] && !sub.primeSent ==> sub.sent[0] < fanned && HasIDR(shared[sub.sent[0]]))
  }

  ghost predicate Inv(s: State) {
    && EmittedOk(s.enc, s.emitted)
    && QueueOk(|s.emitted|, s.producer, s.taken, s.readerQueue)
    && CaptureOk(s.enc, s.seed, s.emitted, s.taken, s.datas, s.shared)
    && s.cache == CacheAt(s.enc, s.seed, s.datas, |s.datas|)
    && s.fanned <= |s.shared|
    && (forall snap :: snap in s.snapshots ==> WasCached(s.enc, s.seed, s.datas, snap))
    && (forall id :: id in s.subs ==> WasCached(s.enc, s.seed, s.datas, s.subs[id].joined))
    && (forall id :: id in s.subs ==> SubscriberOk(s.enc, s.shared, s.fanned, s.subs[id]))
  }

  lemma InitInv(enc: Encoding, texts: SeedTexts)
    ensures Inv(Init(enc, texts))
  {
  }

  lemma CaptureGrows(enc: Encoding, seed: ParamCache, emitted: seq<Frame>, f: Frame, taken: seq<nat>,
                     datas: seq<seq<byte>>, shared: seq<Frame>)
    requires CaptureOk(enc, seed, emitted, taken, datas, shared)
    ensures CaptureOk(enc, seed, emitted + [f], taken, datas, shared)
  {
    forall k | 0 <= k < |taken|
      ensures (emitted + [f])[taken[k]] == emitted[taken[k]]
    {
    }
  }

  lemma ProduceKeepsQueue(emitted: nat, taken: seq<nat>, queue: seq<nat>)
    requires QueueOk(emitted, Ready, taken, queue)
    ensures |queue| < QUEUE_CAP ==> QueueOk(emitted + 1, Ready, taken, queue + [emitted])
    ensures QueueOk(emitted + 1, Full, taken, queue)
  {
  }

  lemma DropKeepsQueue(emitted: nat, taken: seq<nat>, queue: seq<nat>)
    requires QueueOk(emitted, Full, taken, queue)
    ensures QueueOk(emitted, Pushing, taken, if queue == [] then [] else queue[1..])
  {
  }

  lemma PushKeepsQueue(emitted: nat, taken: seq<nat>, queue: seq<nat>)
    requires QueueOk(emitted, Pushing, taken, queue)
    ensures emitted > 0 && QueueOk(emitted, Ready, taken, queue + [emitted - 1])
  {
  }

  lemma ReaderStepsKeepInv(s: State, step: Step)
    requires Inv(s) && (step.Produce? || step.DropOldest? || step.Push?) && Apply(s, step).Some?
    ensures Inv(Apply(s, step).value)
  {
    if step.Produce? {
      CaptureGrows(s.enc, s.seed, s.emitted, step.f, s.taken, s.datas, s.shared);
      ProduceKeepsQueue(|s.emitted|, s.taken, s.readerQueue);
    } else if step.DropOldest? {
      DropKeepsQueue(|s.emitted|, s.taken, s.readerQueue);
    } else {
      PushKeepsQueue(|s.emitted|, s.taken, s.readerQueue);
    }
  }

  lemma CaptureTakes(enc: Encoding, seed: ParamCache, emitted: seq<Frame>, taken: seq<nat>, datas: seq<seq<byte>>,
                     shared: seq<Frame>, i: nat)
    requires CaptureOk(enc, seed, emitted, taken, datas, shared) && i < |emitted|
    ensures CaptureOk(enc, seed, emitted, taken + [i], datas + [emitted[i].data],
                      shared + [SharedForm(enc, seed, emitted[i], datas + [emitted[i].data])])
  {
    var n := |taken|;
    var all := datas + [emitted[i].data];
    var form := SharedForm(enc, seed, emitted[i], all);
    forall k | 0 <= k < n + 1
      ensures (taken + [i])[k] < |emitted| && all[k] == emitted[(taken + [i])[k]].data
      ensures (shared + [form])[k] == SharedForm(enc, seed, emitted[(taken + [i])[k]], all[..k + 1])
    {
      if k < n {
        assert all[..k + 1] == datas[..k + 1];
        assert shared[k] == SharedForm(enc, seed, emitted[taken[k]], datas[..k + 1]);
      } else {
        assert all[..k + 1] == all;
      }
    }
  }

  lemma StillCached(enc: Encoding, seed: ParamCache, datas: seq<seq<byte>>, data: seq<byte>, cache: ParamCache)
    requires WasCached(enc, seed, datas, cache)
    ensures WasCached(enc, seed, datas + [data], cache)
  {
    var k: nat :| k <= |datas| && cache == CacheAt(enc, seed, datas, k);
    assert (datas + [data])[..k] == datas[..k];
    assert cache == CacheAt(enc, seed, datas + [data], k);
  }

  lemma CacheTakes(enc: Encoding, seed: ParamCache, datas: seq<seq<byte>>, data: seq<byte>)
    ensures var cache := CacheAt(enc, seed, datas, |datas|);
            CacheAt(enc, seed, datas + [data], |datas| + 1) ==
            if IsBitstream(enc) then Updated(cache, Units(data), enc) else cache
  {
    var all := datas + [data];
    assert datas[..|datas|] == datas && all[..|datas| + 1] == all && all[..|datas|] == datas;
  }

  // The cache is the one the shared form of the last frame was made with.
  lemma CacheIs(enc: Encoding, seed: ParamCache, datas: seq<seq<byte>>, cache: ParamCache)
    requires cache == CacheAt(enc, seed, datas, |datas|)
    ensures IsBitstream(enc) ==> cache == CacheAfter(seed, datas, enc)
  {
    assert datas[..|datas|] == datas;
  }

  lemma TakeKeepsCached(s: State, data: seq<byte>)
    requires Inv(s)
    ensures forall snap :: snap in s.snapshots ==> WasCached(s.enc, s.seed, s.datas + [data], snap)
    ensures forall id :: id in s.subs ==> WasCached(s.enc, s.seed, s.datas + [data], s.subs[id].joined)
  {
    forall snap | snap in s.snapshots
      ensures WasCached(s.enc, s.seed, s.datas + [data], snap)
    {
      StillCached(s.enc, s.seed, s.datas, data, snap);
    }
    forall id | id in s.subs
      ensures WasCached(s.enc, s.seed, s.datas + [data], s.subs[id].joined)
    {
      StillCached(s.enc, s.seed, s.datas, data, s.subs[id].joined);
    }
  }

  lemma SharedGrows(enc: Encoding, shared: seq<Frame>, f: Frame, fanned: nat, sub: Subscriber)
    requires SubscriberOk(enc, shared, fanned, sub)
    ensures SubscriberOk(enc, shared + [f], fanned, sub)
  {
  }

  lemma TakeKeepsQueue(emitted: nat, producer: Producer, taken: seq<nat>, queue: seq<nat>)
    requires QueueOk(emitted, producer, taken, queue) && queue != []
    ensures QueueOk(emitted, producer, taken + [queue[0]], queue[1..])
  {
  }

  lemma TakeKeepsInv(s: State)
    requires Inv(s) && ApplyTake(s).Some?
    ensures Inv(ApplyTake(s).value)
  {
    var t := ApplyTake(s).value;
    var i := s.readerQueue[0];
    TakeKeepsQueue(|s.emitted|, s.producer, s.taken, s.readerQueue);
    CaptureTakes(s.enc, s.seed, s.emitted, s.taken, s.datas, s.shared, i);
    CacheTakes(s.enc, s.seed, s.datas, s.emitted[i].data);
    TakeKeepsCached(s, s.emitted[i].data);
    CacheIs(s.enc, s.seed, t.datas, t.cache);
    forall id | id in t.subs
      ensures SubscriberOk(t.enc, t.shared, t.fanned, t.subs[id])
    {
      SharedGrows(s.enc, s.shared, t.shared[|s.shared|], s.fanned, s.subs[id]);
    }
  }

  lemma QueueGrows(sent: seq<nat>, queue: seq<nat>, k: nat)
    requires Increasing(queue) && Before(sent, queue) && Below(sent, k) && Below(queue, k)
    ensures Increasing(queue + [k]) && Before(sent, queue + [k]) && Below(queue + [k], k + 1) && Below(sent, k + 1)
  {
  }

  lemma OfferOk(enc: Encoding, shared: seq<Frame>, fanned: nat, sub: Subscriber)
    requires SubscriberOk(enc, shared, fanned, sub) && fanned < |shared|
    ensures SubscriberOk(enc, shared, fanned + 1, Offer(sub, fanned))
  {
    QueueGrows(sub.sent, sub.queue, fanned);
    assert PrimeForwarded(enc, Offer(sub, fanned)) == PrimeForwarded(enc, sub);
  }

  lemma FanOutKeepsInv(s: State)
    requires Inv(s) && ApplyFanOut(s).Some?
    ensures Inv(ApplyFanOut(s).value)
  {
    var t := ApplyFanOut(s).value;
    forall id | id in t.subs
      ensures SubscriberOk(t.enc, t.shared, t.fanned, t.subs[id])
    {
      OfferOk(s.enc, s.shared, s.fanned, s.subs[id]);
    }
  }

  lemma RegisterKeepsInv(s: State, snap: ParamCache)
    requires Inv(s) && ApplyRegister(s, snap).Some?
    ensures Inv(ApplyRegister(s, snap).value)
  {
    assert SubscriberOk(s.enc, s.shared, s.fanned, Newcomer(s.enc, snap));
  }

  lemma ReceivePrimeOk(s: State, sub: Subscriber)
    requires SubscriberOk(s.enc, s.shared, s.fanned, sub) && ReceiveNext(s, sub).Some? && sub.prime.Some?
    ensures SubscriberOk(s.enc, s.shared, s.fanned, ReceiveNext(s, sub).value)
  {
    ForwardBitstream(sub.watcher, Frame(sub.prime.value, s.enc, 0));
  }

  lemma ReceiveFrameOk(s: State, sub: Subscriber)
    requires SubscriberOk(s.enc, s.shared, s.fanned, sub) && ReceiveNext(s, sub).Some? && sub.prime.None?
    requires forall k :: 0 <= k < |s.shared| ==> s.shared[k].encoding == s.enc
    ensures SubscriberOk(s.enc, s.shared, s.fanned, ReceiveNext(s, sub).value)
  {
    var f := s.shared[sub.queue[0]];
    if IsBitstream(s.enc) {
      ForwardBitstream(sub.watcher, f);
    }
  }

  lemma ReceiveKeepsInv(s: State, id: nat)
    requires Inv(s) && ApplyReceive(s, id).Some?
    ensures Inv(ApplyReceive(s, id).value)
  {
    forall k | 0 <= k < |s.shared|
      ensures s.shared[k].encoding == s.enc
    {
      assert s.shared[k] == SharedForm(s.enc, s.seed, s.emitted[s.taken[k]], s.datas[..k + 1]);
    }
    if s.subs[id].prime.Some? {
      ReceivePrimeOk(s, s.subs[id]);
    } else {
      ReceiveFrameOk(s, s.subs[id]);
    }
  }

  lemma StepKeepsInv(s: State, step: Step)
    requires Inv(s) && Apply(s, step).Some?
    ensures Inv(Apply(s, step).value)
    ensures Apply(s, step).value.enc == s.enc && Apply(s, step).value.seed == s.seed
  {
    match step
    case Take => TakeKeepsInv(s);
    case FanOut => FanOutKeepsInv(s);
    case Register(snap) => RegisterKeepsInv(s, snap);
    case Receive(id) => ReceiveKeepsInv(s, id);
    case Snapshot => assert s.cache == CacheAt(s.enc, s.seed, s.datas, |s.datas|);
    case Leave(id) =>
    case _ => ReaderStepsKeepInv(s, step);
  }

  /** The invariant holds after every schedule, whatever the configured texts. */
  lemma {:induction false} RunKeepsInv(enc: Encoding, texts: SeedTexts, steps: seq<Step>)
    requires Run(Init(enc, texts), steps).Some?
    ensures var s := Run(Init(enc, texts), steps).value; Inv(s) && s.enc == enc && s.seed == Seed(enc, texts)
  {
    if steps == [] {
      InitInv(enc, texts);
    } else {
      var front := steps[..|steps| - 1];
      RunKeepsInv(enc, texts, front);
      StepKeepsInv(Run(Init(enc, texts), front).value, steps[|steps| - 1]);
    }
  }

  /** A frame-mode camera never has parameter sets, whatever is configured. */
  lemma FrameModeCachesNothing(enc: Encoding, texts: SeedTexts, steps: seq<Step>, s: State)
    requires !IsBitstream(enc) && Run(Init(enc, texts), steps) == Some(s)
    ensures s.cache.None?
  {
    RunKeepsInv(enc, texts, steps);
  }

  lemma ReaderMoves(s: State, f: Frame)
    requires QueueOk(|s.emitted|, s.producer, s.taken, s.readerQueue) && f.encoding == s.enc
    requires s.emitted != [] ==> f.sequence > s.emitted[|s.emitted| - 1].sequence
    ensures ApplyProduce(s, f).Some? || ApplyDropOldest(s).Some? || ApplyPush(s).Some?
  {
  }

  /** The reader never waits for a slow capture loop or subscriber: in every state one of its own steps is enabled. */
  lemma ReaderNeverBlocks(enc: Encoding, texts: SeedTexts, steps: seq<Step>, s: State, f: Frame)
    requires Run(Init(enc, texts), steps) == Some(s)
    requires f.encoding == enc && (s.emitted != [] ==> f.sequence > s.emitted[|s.emitted| - 1].sequence)
    ensures Apply(s, Produce(f)).Some? || Apply(s, DropOldest).Some? || Apply(s, Push).Some?
  {
    RunKeepsInv(enc, texts, steps);
    ReaderMoves(s, f);
  }

  // ------------------------------------------------------------------
  // What a subscriber sees
  // ------------------------------------------------------------------

  /** The frame `k` of the shared ones is the reader's frame `i`, as injection left it. */
  ghost predicate StemsFrom(s: State, k: nat, i: nat) {
    && k < |s.shared| && k < |s.taken| && s.taken[k] == i && i < |s.emitted|
    && s.shared[k].sequence == s.emitted[i].sequence
    && (!IsBitstream(s.enc) ==> s.shared[k] == s.emitted[i])
    && |s.emitted[i].data| <= |s.shared[k].data|
    && s.shared[k].data[|s.shared[k].data| - |s.emitted[i].data|..] == s.emitted[i].data
  }

  lemma SharedStems(s: State, k: nat)
    requires CaptureOk(s.enc, s.seed, s.emitted, s.taken, s.datas, s.shared) && k < |s.shared|
    ensures StemsFrom(s, k, s.taken[k])
  {
    assert s.shared[k] == SharedForm(s.enc, s.seed, s.emitted[s.taken[k]], s.datas[..k + 1]);
  }

  /**
   * In every schedule a subscriber is sent a subsequence of the reader's frames, in order, with strictly increasing
   * sequence numbers. The priming frame goes before them exactly if its prefix holds an IDR; that prefix was cached at
   * some point of the session.
   */
  lemma OrderedDelivery(enc: Encoding, texts: SeedTexts, steps: seq<Step>, s: State, id: nat)
    requires Run(Init(enc, texts), steps) == Some(s) && id in s.subs
    ensures var sub := s.subs[id];
            && (sub.primeSent <==> PrimeForwarded(enc, sub)) && WasCached(enc, Seed(enc, texts), s.datas, sub.joined)
            && Below(sub.sent, |s.taken|) && |s.taken| == |s.shared|
            && (forall i :: 0 <= i < |sub.sent| ==> StemsFrom(s, sub.sent[i], s.taken[sub.sent[i]]))
            && (forall i, j :: 0 <= i < j < |sub.sent| ==>
                  s.taken[sub.sent[i]] < s.taken[sub.sent[j]]
                  && s.shared[sub.sent[i]].sequence < s.shared[sub.sent[j]].sequence)
  {
    RunKeepsInv(enc, texts, steps);
    var sub := s.subs[id];
    assert SubscriberOk(s.enc, s.shared, s.fanned, sub);
    forall i | 0 <= i < |sub.sent|
      ensures sub.sent[i] < |s.taken| && StemsFrom(s, sub.sent[i], s.taken[sub.sent[i]])
    {
      SharedStems(s, sub.sent[i]);
    }
    forall i, j | 0 <= i < j < |sub.sent|
      ensures s.taken[sub.sent[i]] < s.taken[sub.sent[j]]
      ensures s.shared[sub.sent[i]].sequence < s.shared[sub.sent[j]].sequence
    {
      assert StemsFrom(s, sub.sent[i], s.taken[sub.sent[i]]);
      assert StemsFrom(s, sub.sent[j], s.taken[sub.sent[j]]);
    }
  }

  // ------------------------------------------------------------------
  // The first frame of a late joiner
  // ------------------------------------------------------------------

  /** A unit of kind `k` was configured, or came by in the first `n` frames of the session. */
  ghost predicate Known(s: State, k: NalKind, n: nat)
    requires n <= |s.datas|
  {
    Holds(Slot(s.seed, k), s.enc, k) || SomeUnit(AllUnits(s.datas[..n]), s.enc, k)
  }

  lemma KnownIsCached(seed: ParamCache, datas: seq<seq<byte>>, enc: Encoding, k: NalKind)
    requires k == Sps || k == Pps
    requires Holds(Slot(seed, k), enc, k) || SomeUnit(AllUnits(datas), enc, k)
    ensures var u := Slot(CacheAfter(seed, datas, enc), k); u != [] && Holds(u, enc, k)
  {
    SlotAfter(seed, datas, enc, k);
    if SomeUnit(AllUnits(datas), enc, k) {
      UnitHoldsItself(Slot(CacheAfter(seed, datas, enc), k), enc);
    }
    assert Units([]) == [];
  }

  // An injected frame that holds an IDR holds the sets that are cached, whatever else the cache has.
  lemma IDRIsSelfContained(cache: ParamCache, raw: seq<byte>, enc: Encoding)
    requires Complete(cache) && Holds(Injected(cache, raw, enc), enc, Idr)
    requires Holds(Slot(cache, Sps), enc, Sps) && Holds(Slot(cache, Pps), enc, Pps)
    ensures Holds(Injected(cache, raw, enc), enc, Sps) && Holds(Injected(cache, raw, enc), enc, Pps)
  {
    var vps, sps, pps := cache.value.vps, cache.value.sps, cache.value.pps;
    HoldsConcat(vps, sps, enc, Sps);
    HoldsConcat(vps + sps, pps, enc, Sps);
    HoldsConcat(vps + sps, pps, enc, Pps);
    HoldsConcat(cache.value.ParamPrefix(), raw, enc, Sps);
    HoldsConcat(cache.value.ParamPrefix(), raw, enc, Pps);
  }

  lemma SentHeadDecodable(s: State, k: nat)
    requires IsBitstream(s.enc) && k < |s.shared|
    requires CaptureOk(s.enc, s.seed, s.emitted, s.taken, s.datas, s.shared) && EmittedOk(s.enc, s.emitted)
    requires HasIDR(s.shared[k]) && Known(s, Sps, k + 1) && Known(s, Pps, k + 1)
    ensures Holds(s.shared[k].data, s.enc, Sps) && Holds(s.shared[k].data, s.enc, Pps)
  {
    assert s.shared[k] == SharedForm(s.enc, s.seed, s.emitted[s.taken[k]], s.datas[..k + 1]);
    KnownIsCached(s.seed, s.datas[..k + 1], s.enc, Sps);
    KnownIsCached(s.seed, s.datas[..k + 1], s.enc, Pps);
    IDRIsSelfContained(CacheAfter(s.seed, s.datas[..k + 1], s.enc), s.datas[k], s.enc);
  }

  lemma FirstFrameDecodable(s: State, k: nat)
    requires IsBitstream(s.enc) && k < |s.shared| && HasIDR(s.shared[k])
    requires CaptureOk(s.enc, s.seed, s.emitted, s.taken, s.datas, s.shared) && EmittedOk(s.enc, s.emitted)
    ensures k < |s.datas| && k < |s.taken| && StemsFrom(s, k, s.taken[k]) && Holds(s.shared[k].data, s.enc, Idr)
    ensures Known(s, Sps, k + 1) && Known(s, Pps, k + 1) ==>
              Holds(s.shared[k].data, s.enc, Sps) && Holds(s.shared[k].data, s.enc, Pps)
  {
    SharedStems(s, k);
    assert s.shared[k] == SharedForm(s.enc, s.seed, s.emitted[s.taken[k]], s.datas[..k + 1]);
    if Known(s, Sps, k + 1) && Known(s, Pps, k + 1) {
      SentHeadDecodable(s, k);
    }
  }

  /**
   * Late join: whatever the schedule and the configuration, the first message sent to a bitstream subscriber holds an
   * IDR: the priming frame's prefix if that frame is forwarded, else a frame that ends with the reader's bytes and that
   * also holds SPS and PPS once both are known, that frame included.
   */
  lemma FirstSentIsDecodable(enc: Encoding, texts: SeedTexts, steps: seq<Step>, s: State, id: nat)
    requires IsBitstream(enc) && Run(Init(enc, texts), steps) == Some(s) && id in s.subs
    ensures var sub := s.subs[id];
            sub.primeSent ==> Complete(sub.joined) && Holds(sub.joined.value.ParamPrefix(), enc, Idr)
    ensures var sub := s.subs[id];
            !sub.primeSent && sub.sent != [] ==>
              var k := sub.sent[0];
              && k < |s.datas| && k < |s.taken| && StemsFrom(s, k, s.taken[k])
              && Holds(s.shared[k].data, enc, Idr)
              && (Known(s, Sps, k + 1) && Known(s, Pps, k + 1) ==>
                    Holds(s.shared[k].data, enc, Sps) && Holds(s.shared[k].data, enc, Pps))
  {
    RunKeepsInv(enc, texts, steps);
    var sub := s.subs[id];
    assert SubscriberOk(s.enc, s.shared, s.fanned, sub);
    if !sub.primeSent && sub.sent != [] {
      FirstFrameDecodable(s, sub.sent[0]);
    }
  }

  // ------------------------------------------------------------------
  // When a priming frame is forwarded
  // ------------------------------------------------------------------

  lemma ForwardedHidesIDR(enc: Encoding, texts: SeedTexts, steps: seq<Step>, s: State, id: nat)
    requires IsBitstream(enc) && Run(Init(enc, texts), steps) == Some(s) && id in s.subs && s.subs[id].primeSent
    ensures HidesIDR(Seed(enc, texts), enc)
  {
    OrderedDelivery(enc, texts, steps, s, id);
    var sub, seed := s.subs[id], Seed(enc, texts);
    var k: nat :| k <= |s.datas| && sub.joined == CacheAt(enc, seed, s.datas, k);
    SeedStartCoded(texts.sps, texts.pps, texts.vps);
    HidesNoNewIDR(seed, s.datas[..k], enc);
    PrefixHoldsIDRIff(sub.joined, enc);
  }

  /** The units a seed lacks for a prefix. */
  function MissingUnits(seed: ParamCache, enc: Encoding): seq<byte> {
    (if Slot(seed, Sps) == [] then BareUnit(SpsHeader(enc)) else [])
    + (if Slot(seed, Pps) == [] then BareUnit(PpsHeader(enc)) else [])
  }

  lemma MissingAre(seed: ParamCache, enc: Encoding)
    ensures Units(MissingUnits(seed, enc)) ==
            (if Slot(seed, Sps) == [] then [BareUnit(SpsHeader(enc))] else [])
            + (if Slot(seed, Pps) == [] then [BareUnit(PpsHeader(enc))] else [])
  {
    var sps, pps := BareUnit(SpsHeader(enc)), BareUnit(PpsHeader(enc));
    BareUnitIsOne(SpsHeader(enc));
    BareUnitIsOne(PpsHeader(enc));
    assert Units([]) == [];
    assert sps + [] == sps && [] + pps == pps;
    assert StartCodeLen(sps + pps, 5) == 4;
    UnitsOfCut(sps, pps);
  }

  lemma MissingKinds(seed: ParamCache, enc: Encoding, k: NalKind)
    requires k == Vps || k == Sps || k == Pps
    ensures SomeUnit(Units(MissingUnits(seed, enc)), enc, k) <==> k != Vps && Slot(seed, k) == []
  {
    MissingAre(seed, enc);
    var sps, pps := BareUnit(SpsHeader(enc)), BareUnit(PpsHeader(enc));
    assert UnitKind(sps, enc) == Sps && UnitKind(pps, enc) == Pps;
    var units := Units(MissingUnits(seed, enc));
    assert units == (if Slot(seed, Sps) == [] then [sps] else []) + (if Slot(seed, Pps) == [] then [pps] else []);
    assert forall u :: u in units <==> (u == sps && Slot(seed, Sps) == []) || (u == pps && Slot(seed, Pps) == []);
  }

  lemma SlotCompleted(seed: ParamCache, enc: Encoding, k: NalKind)
    requires k == Vps || k == Sps || k == Pps
    ensures var u := Slot(Updated(seed, Units(MissingUnits(seed, enc)), enc), k);
            if Slot(seed, k) == [] && k != Vps then u != [] else u == Slot(seed, k)
  {
    var units := Units(MissingUnits(seed, enc));
    MissingKinds(seed, enc, k);
    LastOfIs(units, enc, k, Slot(seed, k));
    UnitsAreWhole(MissingUnits(seed, enc));
  }

  lemma StillHides(seed: ParamCache, cache: ParamCache, enc: Encoding)
    requires HidesIDR(seed, enc)
    requires forall k :: Slot(seed, k) != [] ==> Slot(cache, k) == Slot(seed, k)
    ensures HidesIDR(cache, enc)
  {
    assert NextStart([], 0) == 0;
    var k :| Holds(Slot(seed, k), enc, Idr);
    assert Holds(Slot(cache, k), enc, Idr);
  }

  lemma Completed(seed: ParamCache, enc: Encoding)
    requires HidesIDR(seed, enc)
    ensures var cache := Updated(seed, Units(MissingUnits(seed, enc)), enc); Complete(cache) && HidesIDR(cache, enc)
  {
    var cache := Updated(seed, Units(MissingUnits(seed, enc)), enc);
    forall k
      ensures Slot(seed, k) != [] ==> Slot(cache, k) == Slot(seed, k)
    {
      if k == Vps || k == Sps || k == Pps {
        SlotCompleted(seed, enc, k);
      }
    }
    SlotCompleted(seed, enc, Sps);
    SlotCompleted(seed, enc, Pps);
    StillHides(seed, cache, enc);
  }

  lemma RunSnoc(s: State, steps: seq<Step>, t: State, step: Step)
    requires Run(s, steps) == Some(t)
    ensures Run(s, steps + [step]) == Apply(t, step)
  {
    assert (steps + [step])[..|steps|] == steps;
  }

  function FirstFrame(enc: Encoding, texts: SeedTexts): Frame {
    Frame(MissingUnits(Seed(enc, texts), enc), enc, 1)
  }

  /** The state after one captured frame that brings what the configuration lacks. */
  function AfterFirst(enc: Encoding, texts: SeedTexts): State {
    var f, seed := FirstFrame(enc, texts), Seed(enc, texts);
    var cache := Updated(seed, Units(f.data), enc);
    Init(enc, texts).(emitted := [f], taken := [0], datas := [f.data], cache := cache,
                      shared := [f.(data := Injected(cache, f.data, enc))])
  }

  lemma ProducedAndTaken(s: State, f: Frame, s1: State, t: State)
    requires s.producer == Ready && s.emitted == [] && s.readerQueue == [] && f.encoding == s.enc && IsBitstream(s.enc)
    requires s.taken == [] && s.datas == [] && s.shared == [] && s.fanned == 0
    requires s1 == s.(emitted := [f], readerQueue := [0])
    requires var cache := Updated(s.cache, Units(f.data), s.enc);
             t == s.(emitted := [f], taken := [0], datas := [f.data], cache := cache,
                     shared := [f.(data := Injected(cache, f.data, s.enc))])
    ensures Apply(s, Produce(f)) == Some(s1) && Apply(s1, Take) == Some(t)
  {
    assert s.emitted + [f] == [f] && s.readerQueue + [0] == [0] && s1.readerQueue[1..] == [];
    assert s.taken + [0] == [0] && s.datas + [f.data] == [f.data];
    assert s.shared + t.shared == t.shared;
  }

  lemma FirstFrameRuns(enc: Encoding, texts: SeedTexts)
    requires IsBitstream(enc)
    ensures Run(Init(enc, texts), [Produce(FirstFrame(enc, texts))] + [Take]) == Some(AfterFirst(enc, texts))
  {
    var s, f := Init(enc, texts), FirstFrame(enc, texts);
    var s1 := s.(emitted := [f], readerQueue := [0]);
    ProducedAndTaken(s, f, s1, AfterFirst(enc, texts));
    RunSnoc(s, [], s, Produce(f));
    assert [] + [Produce(f)] == [Produce(f)];
    RunSnoc(s, [Produce(f)], s1, Take);
  }

  lemma RunSnoc3(s: State, steps: seq<Step>, t: State, a: Step, t1: State, b: Step, t2: State, c: Step, t3: State)
    requires Run(s, steps) == Some(t) && Apply(t, a) == Some(t1) && Apply(t1, b) == Some(t2) && Apply(t2, c) == Some(t3)
    ensures Run(s, steps + [a] + [b] + [c]) == Some(t3)
  {
    RunSnoc(s, steps, t, a);
    RunSnoc(s, steps + [a], t1, b);
    RunSnoc(s, steps + [a] + [b], t2, c);
  }

  // A subscriber joins and takes its priming frame.
  lemma JoinAndReceive(s: State) returns (s1: State, s2: State, s3: State)
    requires IsBitstream(s.enc) && Complete(s.cache) && s.snapshots == {} && s.nextSub == 0
    ensures Apply(s, Snapshot) == Some(s1) && Apply(s1, Register(s.cache)) == Some(s2)
        && Apply(s2, Receive(0)) == Some(s3)
    ensures 0 in s3.subs && s3.subs[0].joined == s.cache && s3.subs[0].prime.None?
  {
    s1 := s.(snapshots := s.snapshots + {s.cache});
    s2 := s1.(subs := s1.subs[0 := Newcomer(s.enc, s.cache)], nextSub := 1);
    s3 := Apply(s2, Receive(0)).value;
  }

  lemma FilledHidesIff(enc: Encoding, texts: SeedTexts)
    requires IsBitstream(enc)
    ensures var cache := AfterFirst(enc, texts).cache;
            Complete(cache) && (Holds(cache.value.ParamPrefix(), enc, Idr) <==> HidesIDR(Seed(enc, texts), enc))
  {
    var seed, data, cache := Seed(enc, texts), FirstFrame(enc, texts).data, AfterFirst(enc, texts).cache;
    SlotCompleted(seed, enc, Sps);
    SlotCompleted(seed, enc, Pps);
    SeedStartCoded(texts.sps, texts.pps, texts.vps);
    HidesNoNewIDR(seed, [data], enc);
    var datas := [data];
    assert datas[..0] == [];
    assert CacheAfter(seed, datas, enc) == cache;
    PrefixHoldsIDRIff(cache, enc);
    if HidesIDR(seed, enc) {
      Completed(seed, enc);
    }
  }

  /**
   * Whatever is configured, there is a schedule on which a subscriber takes its priming frame off the channel; that
   * frame is forwarded exactly if a configured unit holds an IDR.
   */
  lemma PrimeIsReceived(enc: Encoding, texts: SeedTexts) returns (steps: seq<Step>, s: State)
    requires IsBitstream(enc)
    ensures Run(Init(enc, texts), steps) == Some(s) && 0 in s.subs
    ensures Complete(s.subs[0].joined) && s.subs[0].prime.None?
    ensures s.subs[0].primeSent <==> HidesIDR(Seed(enc, texts), enc)
  {
    var s0, front := AfterFirst(enc, texts), [Produce(FirstFrame(enc, texts))] + [Take];
    FirstFrameRuns(enc, texts);
    FilledHidesIff(enc, texts);
    var s1, s2, s3 := JoinAndReceive(s0);
    RunSnoc3(Init(enc, texts), front, s0, Snapshot, s1, Register(s0.cache), s2, Receive(0), s3);
    steps, s := front + [Snapshot] + [Register(s0.cache)] + [Receive(0)], s3;
    OrderedDelivery(enc, texts, steps, s, 0);
  }

  /** Some subscriber on some schedule is sent a priming frame if and only if a configured unit holds an IDR. */
  lemma PrimeForwardedIff(enc: Encoding, texts: SeedTexts)
    requires IsBitstream(enc)
    ensures HidesIDR(Seed(enc, texts), enc) <==>
            exists steps, s, id :: Run(Init(enc, texts), steps) == Some(s) && id in s.subs && s.subs[id].primeSent
  {
    if HidesIDR(Seed(enc, texts), enc) {
      var steps, s := PrimeIsReceived(enc, texts);
    }
    if steps, s, id :| Run(Init(enc, texts), steps) == Some(s) && id in s.subs && s.subs[id].primeSent {
      ForwardedHidesIDR(enc, texts, steps, s, id);
    }
  }

  /** Texts that are the hex form of one unit of their kind each lead to no forwarded priming frame. */
  lemma FittingTextsNeverPrime(enc: Encoding, texts: SeedTexts, steps: seq<Step>, s: State, id: nat)
    requires IsBitstream(enc) && Run(Init(enc, texts), steps) == Some(s) && id in s.subs
    requires TextFits(texts.sps, enc, Sps) && TextFits(texts.pps, enc, Pps) && TextFits(texts.vps, enc, Vps)
    ensures !s.subs[id].primeSent
  {
    SeedWellFormedIff(texts.sps, texts.pps, texts.vps, enc);
    WellFormedHidesNone(Seed(enc, texts), enc);
    if s.subs[id].primeSent {
      ForwardedHidesIDR(enc, texts, steps, s, id);
    }
  }

  lemma BareText(b: byte)
    requires b >= 0x10
    ensures DecodeHexNAL(EncodeHex([b])) == Some(BareUnit(b))
  {
    SeedRoundTrip([b]);
    assert [0, 0, 0, 1] + [b] == BareUnit(b);
  }

  lemma TextOf(b: byte, hi: nat, lo: nat)
    requires hi < 16 && lo < 16 && b == 16 * hi + lo
    ensures EncodeHex([b]) == [HexChar(hi), HexChar(lo)]
  {
    assert b / 16 == hi && b % 16 == lo;
    var rest := [b][1..];
    assert rest == [] && EncodeHex(rest) == [];
  }

  lemma BareSeed(sps: byte, pps: byte)
    requires sps >= 0x10 && pps >= 0x10
    ensures var seed := Seed(H264, SeedTexts(EncodeHex([sps]), EncodeHex([pps]), ""));
            seed == Some(ParamBlob([], BareUnit(sps), BareUnit(pps)))
  {
    BareText(sps);
    BareText(pps);
    assert DecodeHexNAL("").None?;
  }

  lemma ExampleSeed(texts: SeedTexts, sps: byte, lo: nat)
    requires lo < 16 && sps == 96 + lo && texts.vps == ""
    requires texts.sps == [HexChar(6), HexChar(lo)] && texts.pps == [HexChar(6), HexChar(8)]
    ensures Seed(H264, texts) == Some(ParamBlob([], BareUnit(sps), BareUnit(0x68)))
  {
    TextOf(sps, 6, lo);
    TextOf(0x68, 6, 8);
    BareSeed(sps, 0x68);
    assert texts == SeedTexts(EncodeHex([sps]), EncodeHex([0x68]), "");
  }

  lemma BareSeedHides(sps: byte)
    requires KindOfHeader(sps, H264) == Idr || KindOfHeader(sps, H264) == Sps
    ensures HidesIDR(Some(ParamBlob([], BareUnit(sps), BareUnit(0x68))), H264) <==> KindOfHeader(sps, H264) == Idr
  {
    var seed := Some(ParamBlob([], BareUnit(sps), BareUnit(0x68)));
    BareUnitIsOne(sps);
    BareUnitIsOne(0x68);
    UnitHoldsItself(BareUnit(sps), H264);
    assert Slot(seed, Sps) == BareUnit(sps);
    if KindOfHeader(sps, H264) == Sps {
      WellFormedHidesNone(seed, H264);
    }
  }

  lemma HexChars()
    ensures HexChar(5) == '5' && HexChar(6) == '6' && HexChar(7) == '7' && HexChar(8) == '8'
  {
  }

  lemma ExampleHides(texts: SeedTexts, sps: byte, lo: nat)
    requires lo < 16 && sps == 96 + lo && texts.vps == ""
    requires KindOfHeader(sps, H264) == Idr || KindOfHeader(sps, H264) == Sps
    requires texts.sps == [HexChar(6), HexChar(lo)] && texts.pps == [HexChar(6), HexChar(8)]
    ensures HidesIDR(Seed(H264, texts), H264) <==> KindOfHeader(sps, H264) == Idr
  {
    ExampleSeed(texts, sps, lo);
    BareSeedHides(sps);
  }

  /** For H.264 the texts "65" and "68" forward a priming frame, the texts "67" and "68" do not. */
  lemma PrimingExamples(texts: SeedTexts)
    requires texts.pps == ['6', '8'] && texts.vps == ""
    ensures texts.sps == ['6', '5'] ==> HidesIDR(Seed(H264, texts), H264)
    ensures texts.sps == ['6', '7'] ==> !HidesIDR(Seed(H264, texts), H264)
  {
    HexChars();
    assert KindOfHeader(0x65, H264) == Idr && KindOfHeader(0x67, H264) == Sps;
    if texts.sps == ['6', '5'] {
      ExampleHides(texts, 0x65, 5);
    } else if texts.sps == ['6', '7'] {
      ExampleHides(texts, 0x67, 7);
    }
  }
}
