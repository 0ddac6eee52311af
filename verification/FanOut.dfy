/** What a subscriber of one session gets: every frame that found room in its channel, and nothing else. */
module FanOut {
  import opened Sequences
  import opened AnnexB
  import opened ParamSets
  import opened Delivery
  import opened Pipeline

  // ------------------------------------------------------------------
  // Messages of one subscriber
  // ------------------------------------------------------------------

  function FramesAt(shared: seq<Frame>, at: seq<nat>): seq<Frame>
    requires Below(at, |shared|)
  {
    seq(|at|, i requires 0 <= i < |at| => shared[at[i]])
  }

  lemma FramesAtSnoc(shared: seq<Frame>, at: seq<nat>, k: nat)
    requires Below(at, |shared|) && k < |shared|
    ensures Below(at + [k], |shared|) && FramesAt(shared, at + [k]) == FramesAt(shared, at) + [shared[k]]
  {
  }

  lemma FramesAtTail(shared: seq<Frame>, at: seq<nat>)
    requires Below(at, |shared|) && at != []
    ensures Below(at[1..], |shared|) && FramesAt(shared, at) == [shared[at[0]]] + FramesAt(shared, at[1..])
  {
  }

  lemma FramesAtGrow(shared: seq<Frame>, f: Frame, at: seq<nat>)
    requires Below(at, |shared|)
    ensures Below(at, |shared + [f]|) && FramesAt(shared + [f], at) == FramesAt(shared, at)
  {
  }

  function PrimeMessage(enc: Encoding, prime: Option<seq<byte>>): seq<Frame> {
    match prime
    case None => []
    case Some(data) => [Frame(data, enc, 0)]
  }

  /** What a call that loaded `cache` puts into its own channel first. */
  function Priming(enc: Encoding, cache: ParamCache): seq<Frame> {
    if IsBitstream(enc) && Complete(cache) then [Frame(cache.value.ParamPrefix(), enc, 0)] else []
  }

  /** The messages waiting in the channel. */
  function Waiting(enc: Encoding, shared: seq<Frame>, sub: Subscriber): seq<Frame>
    requires Below(sub.queue, |shared|)
  {
    PrimeMessage(enc, sub.prime) + FramesAt(shared, sub.queue)
  }

  /** The messages sent to the client. */
  function SentTo(enc: Encoding, shared: seq<Frame>, sub: Subscriber): seq<Frame>
    requires Below(sub.sent, |shared|)
  {
    (if sub.primeSent then Priming(enc, sub.joined) else []) + FramesAt(shared, sub.sent)
  }

  ghost predicate Positions(shared: seq<Frame>, sub: Subscriber) {
    Below(sub.queue, |shared|) && Below(sub.sent, |shared|)
  }

  lemma RunPositions(enc: Encoding, texts: SeedTexts, steps: seq<Step>, s: State, id: nat)
    requires Run(Init(enc, texts), steps) == Some(s) && id in s.subs
    ensures Positions(s.shared, s.subs[id])
  {
    RunKeepsInv(enc, texts, steps);
    assert SubscriberOk(s.enc, s.shared, s.fanned, s.subs[id]);
  }

  /** A broadcast frame ends up behind the messages of every subscriber with fewer than eight, and of no other. */
  lemma FanOutReaches(s: State, t: State, id: nat)
    requires Apply(s, Step.FanOut) == Some(t) && (id in s.subs ==> Positions(s.shared, s.subs[id]))
    ensures t.subs.Keys == s.subs.Keys && t.shared == s.shared && t.fanned == s.fanned + 1 <= |s.shared|
    ensures id in s.subs ==>
              && Positions(t.shared, t.subs[id])
              && var before := Waiting(s.enc, s.shared, s.subs[id]);
                 Waiting(t.enc, t.shared, t.subs[id]) == before + (if |before| < 8 then [s.shared[s.fanned]] else [])
    ensures id in s.subs ==> t.subs[id] == s.subs[id].(queue := t.subs[id].queue)
  {
    if id in s.subs {
      FramesAtSnoc(s.shared, s.subs[id].queue, s.fanned);
    }
  }

  /** Nothing but a broadcast and its own receiving and leaving changes a subscriber. */
  lemma SubscribersAreIndependent(s: State, step: Step, t: State, id: nat)
    requires Apply(s, step) == Some(t) && id in s.subs && id < s.nextSub
    requires step != Step.FanOut && step != Receive(id) && step != Leave(id)
    ensures id in t.subs && t.subs[id] == s.subs[id]
  {
  }

  // ------------------------------------------------------------------
  // What a schedule has given a subscriber
  // ------------------------------------------------------------------

  function Backlog(sub: Subscriber): nat {
    |sub.queue| + if sub.prime.Some? then 1 else 0
  }

  /** The positions of the shared frames that found fewer than eight messages in the channel of `id`. */
  function Offered(s: State, steps: seq<Step>, id: nat): seq<nat> {
    if steps == [] then []
    else
      var front := steps[..|steps| - 1];
      Offered(s, front, id) +
      match Run(s, front)
      case None => []
      case Some(t) =>
        if steps[|front|].FanOut? && id in t.subs && Backlog(t.subs[id]) < 8 then [t.fanned] else []
  }

  /** How many messages `id` has taken off its channel. */
  function Receives(steps: seq<Step>, id: nat): nat {
    if steps == [] then 0
    else Receives(steps[..|steps| - 1], id) + if steps[|steps| - 1] == Receive(id) then 1 else 0
  }

  lemma OfferedSnoc(s: State, steps: seq<Step>, t: State, step: Step, id: nat)
    requires Run(s, steps) == Some(t)
    ensures Offered(s, steps + [step], id) ==
            if step.FanOut? && id in t.subs && Backlog(t.subs[id]) < 8 then Offered(s, steps, id) + [t.fanned]
            else Offered(s, steps, id)
    ensures Receives(steps + [step], id) == Receives(steps, id) + if step == Receive(id) then 1 else 0
  {
    assert (steps + [step])[..|steps|] == steps;
    assert Offered(s, steps, id) + [] == Offered(s, steps, id);
  }

  /** Of all messages ever put into the channel the first `r` were received, and the others wait. */
  ghost predicate Delivers(enc: Encoding, shared: seq<Frame>, sub: Subscriber, offered: seq<nat>, r: nat) {
    && Positions(shared, sub) && Below(offered, |shared|)
    && var all := Priming(enc, sub.joined) + FramesAt(shared, offered);
       && r <= |all| && Waiting(enc, shared, sub) == all[r..]
       && SentTo(enc, shared, sub) == SentOf(enc, all[..r]) && sub.watcher == WatcherAfter(enc, all[..r])
  }

  lemma ReceivePrimeDelivers(s: State, sub: Subscriber)
    requires sub.prime.Some? && SubscriberOk(s.enc, s.shared, s.fanned, sub)
    ensures var next := ReceiveNext(s, sub).value; var f := Frame(sub.prime.value, s.enc, 0);
            && Priming(s.enc, sub.joined) == [f]
            && Waiting(s.enc, s.shared, sub) == [f] + Waiting(s.enc, s.shared, next)
            && SentTo(s.enc, s.shared, next) ==
               SentTo(s.enc, s.shared, sub) + (if Forward(sub.watcher, f).Some? then [f] else [])
  {
  }

  lemma ReceiveFrameDelivers(s: State, sub: Subscriber)
    requires sub.prime.None? && sub.queue != [] && Positions(s.shared, sub)
    ensures ReceiveNext(s, sub).Some? && Positions(s.shared, ReceiveNext(s, sub).value)
    ensures var next, f := ReceiveNext(s, sub).value, s.shared[sub.queue[0]];
            && Waiting(s.enc, s.shared, sub) == [f] + Waiting(s.enc, s.shared, next)
            && SentTo(s.enc, s.shared, next) ==
               SentTo(s.enc, s.shared, sub) + (if Forward(sub.watcher, f).Some? then [f] else [])
  {
    FramesAtTail(s.shared, sub.queue);
    FramesAtSnoc(s.shared, sub.sent, sub.queue[0]);
  }

  // The subscriber takes the first waiting message.
  lemma TakesFirst(s: State, sub: Subscriber)
    requires SubscriberOk(s.enc, s.shared, s.fanned, sub) && ReceiveNext(s, sub).Some? && Positions(s.shared, sub)
    ensures Positions(s.shared, ReceiveNext(s, sub).value) && ReceiveNext(s, sub).value.joined == sub.joined
    ensures Waiting(s.enc, s.shared, sub) != []
    ensures var next, f := ReceiveNext(s, sub).value, Waiting(s.enc, s.shared, sub)[0];
            && Waiting(s.enc, s.shared, next) == Waiting(s.enc, s.shared, sub)[1..]
            && SentTo(s.enc, s.shared, next) ==
               SentTo(s.enc, s.shared, sub) + (if Forward(sub.watcher, f).Some? then [f] else [])
            && next.watcher == (if Forward(sub.watcher, f).Some? then Forward(sub.watcher, f).value else sub.watcher)
  {
    if sub.prime.Some? {
      ReceivePrimeDelivers(s, sub);
    } else {
      ReceiveFrameDelivers(s, sub);
    }
  }

  lemma OneMore(enc: Encoding, all: seq<Frame>, r: nat, w: Watcher, sent: seq<Frame>)
    requires r < |all| && sent == SentOf(enc, all[..r]) && w == WatcherAfter(enc, all[..r])
    ensures sent + (if Forward(w, all[r]).Some? then [all[r]] else []) == SentOf(enc, all[..r + 1])
    ensures (if Forward(w, all[r]).Some? then Forward(w, all[r]).value else w) == WatcherAfter(enc, all[..r + 1])
  {
    assert all[..r] + [all[r]] == all[..r + 1];
    SentSnoc(enc, all[..r], all[r]);
  }

  lemma ReceiveDelivers(s: State, sub: Subscriber, offered: seq<nat>, r: nat)
    requires SubscriberOk(s.enc, s.shared, s.fanned, sub)
    requires Delivers(s.enc, s.shared, sub, offered, r) && ReceiveNext(s, sub).Some?
    ensures Delivers(s.enc, s.shared, ReceiveNext(s, sub).value, offered, r + 1)
  {
    TakesFirst(s, sub);
    var all := Priming(s.enc, sub.joined) + FramesAt(s.shared, offered);
    assert all[r..][0] == all[r] && all[r..][1..] == all[r + 1..];
    OneMore(s.enc, all, r, sub.watcher, SentTo(s.enc, s.shared, sub));
  }

  lemma JoinDelivers(s: State, snap: ParamCache)
    ensures Delivers(s.enc, s.shared, Newcomer(s.enc, snap), [], 0)
  {
    var sub := Newcomer(s.enc, snap);
    var all := Priming(s.enc, snap) + FramesAt(s.shared, []);
    assert all[..0] == [] && all[0..] == all && SentOf(s.enc, []) == [];
    assert Waiting(s.enc, s.shared, sub) == all;
  }

  lemma TakeDelivers(enc: Encoding, shared: seq<Frame>, f: Frame, sub: Subscriber, offered: seq<nat>, r: nat)
    requires Delivers(enc, shared, sub, offered, r)
    ensures Delivers(enc, shared + [f], sub, offered, r)
  {
    FramesAtGrow(shared, f, sub.queue);
    FramesAtGrow(shared, f, sub.sent);
    FramesAtGrow(shared, f, offered);
  }

  lemma MessageDelivers(enc: Encoding, shared: seq<Frame>, sub: Subscriber, offered: seq<nat>, r: nat, k: nat,
                        next: Subscriber)
    requires Delivers(enc, shared, sub, offered, r) && k < |shared|
    requires next == sub.(queue := next.queue) && Positions(shared, next)
    requires Waiting(enc, shared, next) == Waiting(enc, shared, sub) + [shared[k]]
    ensures Delivers(enc, shared, next, offered + [k], r)
  {
    FramesAtSnoc(shared, offered, k);
    var all := Priming(enc, sub.joined) + FramesAt(shared, offered);
    assert Priming(enc, sub.joined) + FramesAt(shared, offered + [k]) == all + [shared[k]];
    assert (all + [shared[k]])[..r] == all[..r] && (all + [shared[k]])[r..] == all[r..] + [shared[k]];
  }

  lemma MissDelivers(enc: Encoding, shared: seq<Frame>, sub: Subscriber, offered: seq<nat>, r: nat, next: Subscriber)
    requires Delivers(enc, shared, sub, offered, r)
    requires next == sub.(queue := next.queue) && Positions(shared, next)
    requires Waiting(enc, shared, next) == Waiting(enc, shared, sub)
    ensures Delivers(enc, shared, next, offered, r)
  {
  }

  lemma FanOutDelivers(s: State, t: State, id: nat, offered: seq<nat>, r: nat)
    requires Apply(s, Step.FanOut) == Some(t) && id in s.subs
    requires Delivers(s.enc, s.shared, s.subs[id], offered, r)
    ensures id in t.subs && Delivers(t.enc, t.shared, t.subs[id],
                                     if Backlog(s.subs[id]) < 8 then offered + [s.fanned] else offered, r)
  {
    var sub := s.subs[id];
    FanOutReaches(s, t, id);
    assert |Waiting(s.enc, s.shared, sub)| == Backlog(sub);
    assert t.enc == s.enc;
    if Backlog(sub) < 8 {
      MessageDelivers(s.enc, s.shared, sub, offered, r, s.fanned, t.subs[id]);
    } else {
      assert Waiting(s.enc, s.shared, sub) + [] == Waiting(s.enc, s.shared, sub);
      MissDelivers(s.enc, s.shared, sub, offered, r, t.subs[id]);
    }
  }

  /** Ids are given out once. */
  ghost predicate IdsOk(s: State, start: State, steps: seq<Step>) {
    && (forall id :: id in s.subs ==> id < s.nextSub)
    && (forall id :: id >= s.nextSub ==> Offered(start, steps, id) == [] && Receives(steps, id) == 0)
  }

  ghost predicate AllDelivered(s: State, start: State, steps: seq<Step>) {
    && IdsOk(s, start, steps)
    && (forall id :: id in s.subs ==>
          Delivers(s.enc, s.shared, s.subs[id], Offered(start, steps, id), Receives(steps, id)))
  }

  lemma IdsKept(start: State, steps: seq<Step>, s: State, step: Step, t: State)
    requires Run(start, steps) == Some(s) && Apply(s, step) == Some(t) && IdsOk(s, start, steps)
    ensures IdsOk(t, start, steps + [step])
  {
    forall id | id >= t.nextSub
      ensures Offered(start, steps + [step], id) == [] && Receives(steps + [step], id) == 0
    {
      OfferedSnoc(start, steps, s, step, id);
    }
  }

  // What one step does to the subscriber and to what it was given.
  lemma SubscriberStep(s: State, step: Step, t: State, id: nat, offered: seq<nat>, r: nat)
    requires Apply(s, step) == Some(t) && id in t.subs && s.nextSub !in s.subs
    requires id in s.subs ==>
               SubscriberOk(s.enc, s.shared, s.fanned, s.subs[id]) && Delivers(s.enc, s.shared, s.subs[id], offered, r)
    requires id !in s.subs ==> offered == [] && r == 0
    ensures Delivers(t.enc, t.shared, t.subs[id],
                     if step.FanOut? && id in s.subs && Backlog(s.subs[id]) < 8 then offered + [s.fanned] else offered,
                     if step == Receive(id) then r + 1 else r)
  {
    if step.Register? && id == s.nextSub {
      JoinDelivers(s, step.snap);
    } else if step.FanOut? {
      FanOutDelivers(s, t, id, offered, r);
    } else if step.Take? {
      TakeDelivers(s.enc, s.shared, t.shared[|s.shared|], s.subs[id], offered, r);
    } else if step == Receive(id) {
      ReceiveDelivers(s, s.subs[id], offered, r);
    } else {
      assert t.subs[id] == s.subs[id] && t.shared == s.shared && t.enc == s.enc;
    }
  }

  lemma NewSubscriber(s: State, step: Step, t: State, id: nat)
    requires Apply(s, step) == Some(t) && id in t.subs && id !in s.subs
    ensures id == s.nextSub
  {
  }

  lemma StepDelivers(start: State, steps: seq<Step>, s: State, step: Step, t: State, id: nat, offered: seq<nat>,
                     r: nat)
    requires Run(start, steps) == Some(s) && Apply(s, step) == Some(t) && id in t.subs && IdsOk(s, start, steps)
    requires id in s.subs ==>
               && SubscriberOk(s.enc, s.shared, s.fanned, s.subs[id])
               && Delivers(s.enc, s.shared, s.subs[id], Offered(start, steps, id), Receives(steps, id))
    requires offered == Offered(start, steps + [step], id) && r == Receives(steps + [step], id)
    ensures Delivers(t.enc, t.shared, t.subs[id], offered, r)
  {
    OfferedSnoc(start, steps, s, step, id);
    if id in s.subs {
      SubscriberStep(s, step, t, id, Offered(start, steps, id), Receives(steps, id));
    } else {
      NewSubscriber(s, step, t, id);
      SubscriberStep(s, step, t, id, [], 0);
    }
  }

  lemma StepDeliversAll(start: State, steps: seq<Step>, s: State, step: Step, t: State)
    requires Run(start, steps) == Some(s) && Apply(s, step) == Some(t) && AllDelivered(s, start, steps)
    requires forall id :: id in s.subs ==> SubscriberOk(s.enc, s.shared, s.fanned, s.subs[id])
    ensures AllDelivered(t, start, steps + [step])
  {
    IdsKept(start, steps, s, step, t);
    forall id | id in t.subs
      ensures Delivers(t.enc, t.shared, t.subs[id], Offered(start, steps + [step], id), Receives(steps + [step], id))
    {
      StepDelivers(start, steps, s, step, t, id, Offered(start, steps + [step], id), Receives(steps + [step], id));
    }
  }

  lemma {:induction false} RunDelivers(enc: Encoding, texts: SeedTexts, steps: seq<Step>, s: State)
    requires Run(Init(enc, texts), steps) == Some(s)
    ensures AllDelivered(s, Init(enc, texts), steps)
  {
    if steps == [] {
      assert s.subs == map[];
    } else {
      var start, n := Init(enc, texts), |steps| - 1;
      var front, step := steps[..n], steps[n];
      assert front + [step] == steps;
      var before := Run(start, front).value;
      RunDelivers(enc, texts, front, before);
      RunKeepsInv(enc, texts, front);
      StepDeliversAll(start, front, before, step, s);
    }
  }

  // ------------------------------------------------------------------
  // Main results
  // ------------------------------------------------------------------

  /** All messages ever put into the channel of a subscriber: its priming frame and the frames that found room. */
  function Given(s: State, sub: Subscriber, offered: seq<nat>): seq<Frame>
    requires Below(offered, |s.shared|)
  {
    Priming(s.enc, sub.joined) + FramesAt(s.shared, offered)
  }

  /**
   * On every schedule a subscriber has been sent what the forwarding loop makes of the messages it has received, and
   * these are the first of all that found room; the others wait in its channel.
   */
  lemma DeliveryIsExact(enc: Encoding, texts: SeedTexts, steps: seq<Step>, s: State, id: nat)
    requires Run(Init(enc, texts), steps) == Some(s) && id in s.subs
    ensures Positions(s.shared, s.subs[id]) && Below(Offered(Init(enc, texts), steps, id), |s.shared|)
    ensures var given, r := Given(s, s.subs[id], Offered(Init(enc, texts), steps, id)), Receives(steps, id);
            && r <= |given| && Waiting(enc, s.shared, s.subs[id]) == given[r..]
            && SentTo(enc, s.shared, s.subs[id]) == SentOf(enc, given[..r])
  {
    RunDelivers(enc, texts, steps, s);
    RunKeepsInv(enc, texts, steps);
  }

  /** How many frames were broadcast before `id` registered. */
  function JoinedAt(s: State, steps: seq<Step>, id: nat): nat {
    if steps == [] then 0
    else
      var front := steps[..|steps| - 1];
      match Run(s, front)
      case None => 0
      case Some(t) =>
        if steps[|front|].Register? && t.nextSub == id then t.fanned else JoinedAt(s, front, id)
  }

  /** No broadcast found eight messages in the channel of `id`. */
  predicate NeverFull(s: State, steps: seq<Step>, id: nat) {
    steps != [] ==>
      var front := steps[..|steps| - 1];
      && NeverFull(s, front, id)
      && (Run(s, front).Some? && id in Run(s, front).value.subs && steps[|front|].FanOut? ==>
            Backlog(Run(s, front).value.subs[id]) < 8)
  }

  lemma FramesAtRange(shared: seq<Frame>, j: nat, k: nat)
    requires j <= k <= |shared|
    ensures Below(Range(j, k), |shared|) && FramesAt(shared, Range(j, k)) == shared[j..k]
  {
  }

  ghost predicate OfferedAll(s: State, start: State, steps: seq<Step>, id: nat) {
    id in s.subs && NeverFull(start, steps, id) ==>
      JoinedAt(start, steps, id) <= s.fanned && Offered(start, steps, id) == Range(JoinedAt(start, steps, id), s.fanned)
  }

  lemma HistorySnoc(start: State, steps: seq<Step>, s: State, step: Step, id: nat)
    requires Run(start, steps) == Some(s)
    ensures JoinedAt(start, steps + [step], id) ==
            if step.Register? && s.nextSub == id then s.fanned else JoinedAt(start, steps, id)
    ensures NeverFull(start, steps + [step], id) <==>
            NeverFull(start, steps, id) && (id in s.subs && step.FanOut? ==> Backlog(s.subs[id]) < 8)
  {
    assert (steps + [step])[..|steps|] == steps;
  }

  lemma StepMoves(s: State, step: Step, t: State, id: nat)
    requires Apply(s, step) == Some(t)
    ensures t.fanned == if step.FanOut? then s.fanned + 1 else s.fanned
    ensures id in t.subs && id !in s.subs ==> step.Register? && id == s.nextSub
  {
  }

  lemma StepOffersAll(start: State, steps: seq<Step>, s: State, step: Step, t: State, id: nat)
    requires Run(start, steps) == Some(s) && Apply(s, step) == Some(t) && IdsOk(s, start, steps)
    requires OfferedAll(s, start, steps, id)
    ensures OfferedAll(t, start, steps + [step], id)
  {
    HistorySnoc(start, steps, s, step, id);
    OfferedSnoc(start, steps, s, step, id);
    StepMoves(s, step, t, id);
    var j, j', k := JoinedAt(start, steps, id), JoinedAt(start, steps + [step], id), s.fanned;
    if id in t.subs && NeverFull(start, steps + [step], id) {
      if id !in s.subs {
        assert j' == k && Range(k, k) == [];
      } else if step.FanOut? {
        assert j' == j;
        RangeSnoc(j, k);
      } else {
        assert j' == j;
      }
    }
  }

  lemma {:induction false} RunOffersAll(enc: Encoding, texts: SeedTexts, steps: seq<Step>, s: State, id: nat)
    requires Run(Init(enc, texts), steps) == Some(s)
    ensures OfferedAll(s, Init(enc, texts), steps, id)
  {
    if steps == [] {
      assert s.subs == map[];
    } else {
      var start, n := Init(enc, texts), |steps| - 1;
      var front, step := steps[..n], steps[n];
      assert front + [step] == steps;
      var before := Run(start, front).value;
      RunOffersAll(enc, texts, front, before, id);
      RunDelivers(enc, texts, front, before);
      StepOffersAll(start, front, before, step, s, id);
    }
  }

  /** The messages for a subscriber that joined after `j` broadcasts and missed none. */
  function GivenSince(s: State, sub: Subscriber, j: nat): seq<Frame>
    requires j <= s.fanned <= |s.shared|
  {
    Priming(s.enc, sub.joined) + s.shared[j..s.fanned]
  }

  /** The frames a subscriber whose channel was never full is given: all that were broadcast since it joined. */
  lemma NeverFullMissesNone(enc: Encoding, texts: SeedTexts, steps: seq<Step>, s: State, id: nat)
    requires Run(Init(enc, texts), steps) == Some(s) && id in s.subs && NeverFull(Init(enc, texts), steps, id)
    ensures JoinedAt(Init(enc, texts), steps, id) <= s.fanned <= |s.shared| && Positions(s.shared, s.subs[id])
    ensures var given, r := GivenSince(s, s.subs[id], JoinedAt(Init(enc, texts), steps, id)), Receives(steps, id);
            && r <= |given| && SentTo(enc, s.shared, s.subs[id]) == SentOf(enc, given[..r])
            && Waiting(enc, s.shared, s.subs[id]) == given[r..]
  {
    DeliveryIsExact(enc, texts, steps, s, id);
    RunOffersAll(enc, texts, steps, s, id);
    RunKeepsInv(enc, texts, steps);
    FramesAtRange(s.shared, JoinedAt(Init(enc, texts), steps, id), s.fanned);
  }

  lemma SharedAreOf(enc: Encoding, texts: SeedTexts, steps: seq<Step>, s: State)
    requires Run(Init(enc, texts), steps) == Some(s)
    ensures s.enc == enc && forall f :: f in s.shared ==> f.encoding == enc
    ensures forall i, j :: 0 <= i < j < |s.shared| ==> s.shared[i].sequence < s.shared[j].sequence
  {
    RunKeepsInv(enc, texts, steps);
    forall k | 0 <= k < |s.shared|
      ensures s.shared[k].encoding == s.enc && s.shared[k].sequence == s.emitted[s.taken[k]].sequence
    {
      assert s.shared[k] == SharedForm(s.enc, s.seed, s.emitted[s.taken[k]], s.datas[..k + 1]);
    }
  }

  lemma BitstreamSent(enc: Encoding, prime: seq<Frame>, live: seq<Frame>, r: nat)
    requires IsBitstream(enc) && r <= |prime + live|
    requires (forall f :: f in prime ==> f.encoding == enc) && (forall f :: f in live ==> f.encoding == enc)
    ensures SentOf(enc, (prime + live)[..r]) == (prime + live)[..r][FirstIDR((prime + live)[..r], 0)..]
  {
    assert forall f :: f in (prime + live)[..r] ==> f in prime + live;
    BitstreamFromFirstIDR(enc, (prime + live)[..r]);
  }

  lemma FrameModeSent(enc: Encoding, shared: seq<Frame>, j: nat, k: nat, r: nat)
    requires !IsBitstream(enc) && j + r <= k <= |shared| && forall f :: f in shared ==> f.encoding == enc
    requires forall i, j :: 0 <= i < j < |shared| ==> shared[i].sequence < shared[j].sequence
    ensures SentOf(enc, shared[j..k][..r]) == shared[j..j + r]
  {
    assert shared[j..k][..r] == shared[j..j + r];
    assert forall f :: f in shared[j..j + r] ==> f in shared;
    FrameModeSendsAll(enc, shared[j..j + r]);
  }

  lemma AllIsSent(s: State, sub: Subscriber, j: nat, r: nat)
    requires j <= s.fanned <= |s.shared| && r <= |GivenSince(s, sub, j)|
    requires forall f :: f in s.shared ==> f.encoding == s.enc
    requires forall i, j :: 0 <= i < j < |s.shared| ==> s.shared[i].sequence < s.shared[j].sequence
    ensures var given := GivenSince(s, sub, j);
            SentOf(s.enc, given[..r]) ==
            if IsBitstream(s.enc) then given[..r][FirstIDR(given[..r], 0)..] else given[..r]
  {
    var live := s.shared[j..s.fanned];
    if IsBitstream(s.enc) {
      assert forall f :: f in live ==> f in s.shared;
      BitstreamSent(s.enc, Priming(s.enc, sub.joined), live, r);
    } else {
      assert GivenSince(s, sub, j) == live;
      FrameModeSent(s.enc, s.shared, j, s.fanned, r);
    }
  }

  /**
   * A subscriber whose channel was never full is sent all it received: every frame of a frame-mode camera since it
   * joined, and of a bitstream camera every message from the first one with an IDR on.
   */
  lemma NeverFullIsSentAll(enc: Encoding, texts: SeedTexts, steps: seq<Step>, s: State, id: nat)
    requires Run(Init(enc, texts), steps) == Some(s) && id in s.subs && NeverFull(Init(enc, texts), steps, id)
    ensures JoinedAt(Init(enc, texts), steps, id) <= s.fanned <= |s.shared| && Positions(s.shared, s.subs[id])
    ensures var j, r := JoinedAt(Init(enc, texts), steps, id), Receives(steps, id);
            var given := GivenSince(s, s.subs[id], j);
            && r <= |given|
            && SentTo(enc, s.shared, s.subs[id]) ==
               if IsBitstream(enc) then given[..r][FirstIDR(given[..r], 0)..] else given[..r]
  {
    NeverFullMissesNone(enc, texts, steps, s, id);
    SharedAreOf(enc, texts, steps, s);
    AllIsSent(s, s.subs[id], JoinedAt(Init(enc, texts), steps, id), Receives(steps, id));
  }

  // A subscriber with messages can take the next one.
  lemma NextIsTaken(s: State, id: nat)
    requires id in s.subs && Positions(s.shared, s.subs[id]) && Backlog(s.subs[id]) > 0
    ensures Apply(s, Receive(id)).Some?
    ensures var t := Apply(s, Receive(id)).value;
            && id in t.subs && Backlog(t.subs[id]) + 1 == Backlog(s.subs[id])
            && t == s.(subs := t.subs) && t.subs[id].joined == s.subs[id].joined && Positions(t.shared, t.subs[id])
  {
  }

  function DrainSteps(id: nat, n: nat): seq<Step> {
    if n == 0 then [] else DrainSteps(id, n - 1) + [Receive(id)]
  }

  // The state some of whose messages for `id` were received.
  ghost predicate Drained(start: State, steps: seq<Step>, s: State, id: nat, n: nat, t: State)
    requires id in s.subs
  {
    && Run(start, steps + DrainSteps(id, n)) == Some(t)
    && id in t.subs && t == s.(subs := t.subs) && t.subs[id].joined == s.subs[id].joined
    && Positions(t.shared, t.subs[id]) && Backlog(t.subs[id]) + n == Backlog(s.subs[id])
    && Offered(start, steps + DrainSteps(id, n), id) == Offered(start, steps, id)
  }

  lemma DrainOne(start: State, steps: seq<Step>, s: State, id: nat, n: nat, t: State)
    requires id in s.subs && Drained(start, steps, s, id, n, t) && Backlog(t.subs[id]) > 0
    ensures Apply(t, Receive(id)).Some? && Drained(start, steps, s, id, n + 1, Apply(t, Receive(id)).value)
  {
    var front := steps + DrainSteps(id, n);
    assert steps + DrainSteps(id, n + 1) == front + [Receive(id)];
    NextIsTaken(t, id);
    RunSnoc(start, front, t, Receive(id));
    OfferedSnoc(start, front, t, Receive(id), id);
  }

  lemma {:induction false} Drains(start: State, steps: seq<Step>, s: State, id: nat, n: nat) returns (t: State)
    requires Run(start, steps) == Some(s) && id in s.subs && Positions(s.shared, s.subs[id]) && n <= Backlog(s.subs[id])
    ensures Drained(start, steps, s, id, n, t)
  {
    if n == 0 {
      t := s;
      assert steps + DrainSteps(id, n) == steps;
    } else {
      t := Drains(start, steps, s, id, n - 1);
      DrainOne(start, steps, s, id, n - 1, t);
      t := Apply(t, Receive(id)).value;
    }
  }

  lemma {:induction false} OnlyReceives(id: nat, n: nat)
    ensures forall step :: step in DrainSteps(id, n) ==> step == Receive(id)
  {
    if n > 0 {
      OnlyReceives(id, n - 1);
    }
  }

  /** A subscriber that goes on receiving is sent what the forwarding loop makes of everything it was given. */
  lemma DrainedHasAll(enc: Encoding, texts: SeedTexts, steps: seq<Step>, s: State, id: nat)
    returns (more: seq<Step>, t: State)
    requires Run(Init(enc, texts), steps) == Some(s) && id in s.subs
    ensures Run(Init(enc, texts), steps + more) == Some(t) && forall step :: step in more ==> step == Receive(id)
    ensures id in t.subs && t == s.(subs := t.subs) && t.subs[id].joined == s.subs[id].joined
    ensures Positions(s.shared, t.subs[id]) && Below(Offered(Init(enc, texts), steps, id), |s.shared|)
    ensures SentTo(enc, s.shared, t.subs[id]) ==
            SentOf(enc, Given(s, s.subs[id], Offered(Init(enc, texts), steps, id)))
  {
    RunPositions(enc, texts, steps, s, id);
    more := DrainSteps(id, Backlog(s.subs[id]));
    OnlyReceives(id, Backlog(s.subs[id]));
    t := Drains(Init(enc, texts), steps, s, id, Backlog(s.subs[id]));
    DeliveryIsExact(enc, texts, steps + more, t, id);
    var given := Given(t, t.subs[id], Offered(Init(enc, texts), steps, id));
    var r := Receives(steps + more, id);
    assert |Waiting(enc, t.shared, t.subs[id])| == 0 && given[..r] == given;
  }
}
