/** WatchFrames calls over several sessions of one camera: whose frames a subscriber can receive. */
module CameraWatchers {
  import opened Sequences
  import opened CameraLifecycle
  import opened CameraProgress
  import opened CameraSchedules

  const CHANNEL_CAP: nat := 8

  /**
   * A WatchFrames call that found the camera open: the session whose context it holds, the one whose parameter sets it
   * loaded for its priming frame, whether it has registered, and the sessions of the frames in its channel and of those
   * it took from there.
   */
  datatype Watch = Watch(observed: nat, primed: Option<nat>, registered: bool, queue: seq<nat>, received: seq<nat>)

  /** The camera, its WatchFrames calls, and the sessions whose loop has broadcast the frame it is about to store. */
  datatype Watched = Watched(cam: State, watches: map<nat, Watch>, broadcast: set<nat>)

  datatype WatchStep =
    | Cam(step: Step)
    | Broadcast(n: nat)
    | Observe(id: nat)
    | Load(id: nat)
    | Register(id: nat)
    | Receive(id: nat)
    | Return(id: nat)

  const START: Watched := Watched(INIT, map[], {})

  // ------------------------------------------------------------------
  // The steps
  // ------------------------------------------------------------------

  /** A step of the camera; a frame is stored only after it was broadcast. */
  function ApplyCam(s: Watched, step: Step): Option<Watched> {
    match Apply(s.cam, step)
    case None => None
    case Some(cam) =>
      if step.LoopOf? && step.l.LStore? then
        if step.n in s.broadcast then Some(s.(cam := cam, broadcast := s.broadcast - {step.n})) else None
      else Some(s.(cam := cam))
  }

  function Offer(w: Watch, n: nat): Watch {
    if w.registered && |w.queue| < CHANNEL_CAP then w.(queue := w.queue + [n]) else w
  }

  /** The loop hands its frame to every registered subscriber with room. */
  function ApplyBroadcast(s: Watched, n: nat): Option<Watched> {
    if !At(s.cam, n, Injected) || n in s.broadcast then None
    else Some(s.(broadcast := s.broadcast + {n}, watches := map id | id in s.watches :: Offer(s.watches[id], n)))
  }

  /** State and context are read under the mutex, in one go. */
  function ApplyObserve(s: Watched, id: nat): Option<Watched> {
    if id in s.watches || s.cam.mu.Some? then None
    else if s.cam.state != OPEN then Some(s)
    else Some(s.(watches := s.watches[id := Watch(s.cam.session, None, false, [], [])]))
  }

  function ApplyWatch(s: Watched, step: WatchStep): Option<Watched> {
    match step
    case Cam(c) => ApplyCam(s, c)
    case Broadcast(n) => ApplyBroadcast(s, n)
    case Observe(id) => ApplyObserve(s, id)
    case Load(id) =>
      if id in s.watches && !s.watches[id].registered then
        Some(s.(watches := s.watches[id := s.watches[id].(primed := s.cam.paramSets)]))
      else None
    case Register(id) =>
      if id in s.watches then Some(s.(watches := s.watches[id := s.watches[id].(registered := true)])) else None
    case Receive(id) =>
      if id in s.watches && s.watches[id].queue != [] then
        var w := s.watches[id];
        Some(s.(watches := s.watches[id := w.(queue := w.queue[1..], received := w.received + [w.queue[0]])]))
      else None
    case Return(id) => Some(s.(watches := s.watches - {id}))
  }

  function RunWatch(s: Watched, steps: seq<WatchStep>): Option<Watched>
    decreases |steps|
  {
    if steps == [] then Some(s)
    else
      match ApplyWatch(s, steps[0])
      case None => None
      case Some(t) => RunWatch(t, steps[1..])
  }

  /** No state of the schedule has two close() calls between snapshot and end. */
  predicate NoOverlap(s: Watched, steps: seq<WatchStep>)
    decreases |steps|
  {
    && OneCloser(s.cam)
    && (steps != [] && ApplyWatch(s, steps[0]).Some? ==> NoOverlap(ApplyWatch(s, steps[0]).value, steps[1..]))
  }

  // ------------------------------------------------------------------
  // What the steps give a subscriber
  // ------------------------------------------------------------------

  /** On an open camera a call that is left alone joins its session, primed with the sets cached then. */
  lemma JoinsAlone(s: Watched, id: nat, joined: Watched)
    requires s.cam.mu.None? && s.cam.state == OPEN && id !in s.watches
    requires joined == s.(watches := s.watches[id := Watch(s.cam.session, s.cam.paramSets, true, [], [])])
    ensures RunWatch(s, [Observe(id), Load(id), Register(id)]) == Some(joined)
  {
    var s1 := s.(watches := s.watches[id := Watch(s.cam.session, None, false, [], [])]);
    var s2 := s.(watches := s.watches[id := Watch(s.cam.session, s.cam.paramSets, false, [], [])]);
    var steps := [Observe(id), Load(id), Register(id)];
    assert s1.watches[id := s2.watches[id]] == s2.watches && s2.watches[id := joined.watches[id]] == joined.watches;
    assert steps[1..] == [Load(id), Register(id)] && steps[1..][1..] == [Register(id)];
    assert RunWatch(joined, steps[1..][1..][1..]) == Some(joined);
    assert RunWatch(s2, steps[1..][1..]) == Some(joined);
  }

  /** A camera that is not open takes no subscriber. */
  lemma TurnedAway(s: Watched, id: nat)
    requires s.cam.mu.None? && s.cam.state != OPEN && id !in s.watches
    ensures ApplyWatch(s, Observe(id)) == Some(s)
  {
  }

  /** A broadcast frame ends up behind those of every registered subscriber with fewer than eight, and of no other. */
  lemma BroadcastReaches(s: Watched, t: Watched, n: nat, id: nat)
    requires ApplyWatch(s, Broadcast(n)) == Some(t) && id in s.watches
    ensures t.cam == s.cam && t.watches.Keys == s.watches.Keys
    ensures var w := s.watches[id];
            t.watches[id] == w.(queue := w.queue + if w.registered && |w.queue| < 8 then [n] else [])
  {
    var w := s.watches[id];
    assert w.queue + [] == w.queue;
  }

  /** The frame received is the first one waiting; other subscribers and the camera see nothing of it. */
  lemma SubscribersAreIndependent(s: Watched, step: WatchStep, t: Watched, id: nat, other: nat)
    requires ApplyWatch(s, step) == Some(t) && other in s.watches && other != id
    requires step in {Observe(id), Load(id), Register(id), Receive(id), Return(id)}
    ensures t.cam == s.cam && other in t.watches && t.watches[other] == s.watches[other]
  {
  }

  function Count(steps: seq<WatchStep>, step: WatchStep): nat
    decreases |steps|
  {
    if steps == [] then 0 else (if steps[0] == step then 1 else 0) + Count(steps[1..], step)
  }

  /** A session's loop stores exactly the frames it has broadcast, save perhaps the last one. */
  lemma {:induction false} StoresWhatItBroadcasts(s: Watched, steps: seq<WatchStep>, n: nat, t: Watched)
    requires RunWatch(s, steps) == Some(t)
    ensures Count(steps, Broadcast(n)) + (if n in s.broadcast then 1 else 0) ==
            Count(steps, Cam(LoopOf(n, LStore))) + if n in t.broadcast then 1 else 0
    decreases |steps|
  {
    if steps != [] {
      StoresWhatItBroadcasts(ApplyWatch(s, steps[0]).value, steps[1..], n, t);
    }
  }

  // ------------------------------------------------------------------
  // Whose frames a subscriber has
  // ------------------------------------------------------------------

  predicate Ascending(a: seq<nat>) {
    forall i, j :: 0 <= i < j < |a| ==> a[i] <= a[j]
  }

  /** Its own session's frames, then perhaps later ones', which needs its own context to be cancelled. */
  predicate Belongs(cam: State, observed: nat, frames: seq<nat>) {
    && 1 <= observed <= cam.session
    && Ascending(frames)
    && (forall i :: 0 <= i < |frames| ==> observed <= frames[i] <= cam.session)
    && (forall i :: 0 <= i < |frames| && frames[i] != observed ==> observed in cam.cancelled)
  }

  predicate PrimedOk(cam: State, w: Watch) {
    w.primed.Some? ==>
      && w.observed <= w.primed.value <= cam.session
      && (w.primed.value != w.observed ==> w.observed in cam.cancelled)
  }

  /** Nothing happens before the first session. */
  ghost predicate Begun(cam: State) {
    cam.session == 0 ==>
      && cam.state == CLOSED && cam.loops == map[]
      && (forall i :: i in cam.openers ==> !Starting(cam.openers[i]))
  }

  ghost predicate WatchInv(s: Watched) {
    && Inv(s.cam) && Begun(s.cam)
    && (forall id :: id in s.watches ==>
          var w := s.watches[id]; Belongs(s.cam, w.observed, w.received + w.queue) && PrimedOk(s.cam, w))
  }

  lemma SessionsGrow(s: State, step: Step)
    requires Apply(s, step).Some?
    ensures var t := Apply(s, step).value; s.session <= t.session && s.cancelled <= t.cancelled
  {
    match step
    case OpenBy(id, o) => assert s.cancelled <= ApplyOpen(s, id, o).value.cancelled;
    case CloseBy(id, c) => assert s.cancelled <= ApplyClose(s, id, c).value.cancelled;
    case ViewBy(id, v) => assert s.cancelled <= ApplyView(s, id, v).value.cancelled;
    case LoopOf(n, l) => assert s.cancelled <= ApplyLoop(s, n, l).value.cancelled;
  }

  lemma StaysBegun(s: State, step: Step)
    requires Begun(s) && Apply(s, step).Some?
    ensures Begun(Apply(s, step).value)
  {
    SessionsGrow(s, step);
  }

  lemma BelongsLater(cam: State, later: State, observed: nat, frames: seq<nat>)
    requires Belongs(cam, observed, frames) && cam.session <= later.session && cam.cancelled <= later.cancelled
    ensures Belongs(later, observed, frames)
  {
  }

  lemma CamKeeps(s: Watched, step: Step)
    requires WatchInv(s) && ApplyCam(s, step).Some? && OneCloser(s.cam) && OneCloser(ApplyCam(s, step).value.cam)
    ensures WatchInv(ApplyCam(s, step).value)
  {
    var t := ApplyCam(s, step).value;
    StepKeepsInv(s.cam, step);
    StaysBegun(s.cam, step);
    SessionsGrow(s.cam, step);
    forall id | id in t.watches
      ensures Belongs(t.cam, t.watches[id].observed, t.watches[id].received + t.watches[id].queue)
    {
      BelongsLater(s.cam, t.cam, s.watches[id].observed, s.watches[id].received + s.watches[id].queue);
    }
  }

  // Once a later session has begun, the context of an earlier one is cancelled.
  lemma OlderIsCancelled(cam: State, n: nat)
    requires Inv(cam) && 1 <= n < cam.session
    ensures n in cam.cancelled
  {
    assert Unblocked(cam, n);
    assert forall i :: i in cam.openers ==> OpenerOk(cam, cam.openers[i]);
  }

  lemma OfferBelongs(cam: State, n: nat, w: Watch)
    requires Inv(cam) && n in cam.loops && Belongs(cam, w.observed, w.received + w.queue)
    ensures Belongs(cam, w.observed, Offer(w, n).received + Offer(w, n).queue)
  {
    assert n == cam.session;
    if w.observed < n {
      OlderIsCancelled(cam, w.observed);
    }
    assert w.received + (w.queue + [n]) == (w.received + w.queue) + [n];
  }

  lemma LoadKeeps(s: Watched, id: nat)
    requires WatchInv(s) && ApplyWatch(s, Load(id)).Some?
    ensures WatchInv(ApplyWatch(s, Load(id)).value)
  {
    if s.watches[id].observed < s.cam.session {
      OlderIsCancelled(s.cam, s.watches[id].observed);
    }
  }

  lemma BroadcastKeeps(s: Watched, n: nat)
    requires WatchInv(s) && ApplyBroadcast(s, n).Some?
    ensures WatchInv(ApplyBroadcast(s, n).value)
  {
    var t := ApplyBroadcast(s, n).value;
    forall id | id in t.watches
      ensures Belongs(t.cam, t.watches[id].observed, t.watches[id].received + t.watches[id].queue)
    {
      OfferBelongs(s.cam, n, s.watches[id]);
    }
  }

  lemma ReceiveKeeps(s: Watched, id: nat)
    requires WatchInv(s) && ApplyWatch(s, Receive(id)).Some?
    ensures WatchInv(ApplyWatch(s, Receive(id)).value)
  {
    var w := s.watches[id];
    assert w.received + [w.queue[0]] + w.queue[1..] == w.received + w.queue;
  }

  lemma ObserveKeeps(s: Watched, id: nat)
    requires WatchInv(s) && ApplyObserve(s, id).Some?
    ensures WatchInv(ApplyObserve(s, id).value)
  {
  }

  lemma WatchStepKeepsInv(s: Watched, step: WatchStep)
    requires WatchInv(s) && ApplyWatch(s, step).Some? && OneCloser(s.cam) && OneCloser(ApplyWatch(s, step).value.cam)
    ensures WatchInv(ApplyWatch(s, step).value)
  {
    match step
    case Cam(c) => CamKeeps(s, c);
    case Broadcast(n) => BroadcastKeeps(s, n);
    case Observe(id) => ObserveKeeps(s, id);
    case Receive(id) => ReceiveKeeps(s, id);
    case Load(id) => LoadKeeps(s, id);
    case Register(id) =>
    case Return(id) =>
  }

  lemma {:induction false} WatchRunKeepsInv(s: Watched, steps: seq<WatchStep>)
    requires WatchInv(s) && RunWatch(s, steps).Some? && NoOverlap(s, steps)
    ensures WatchInv(RunWatch(s, steps).value)
    decreases |steps|
  {
    if steps != [] {
      WatchStepKeepsInv(s, steps[0]);
      WatchRunKeepsInv(ApplyWatch(s, steps[0]).value, steps[1..]);
    }
  }

  /**
   * On every schedule a subscriber is primed with sets and receives frames of its own session or later ones, in order
   * of sessions; as long as its context is alive all of them are of its own, whenever it registered.
   */
  lemma OwnSessionWhileAlive(steps: seq<WatchStep>, s: Watched, id: nat)
    requires RunWatch(START, steps) == Some(s) && NoOverlap(START, steps) && id in s.watches
    ensures var w := s.watches[id];
            && Ascending(w.received)
            && (forall i :: 0 <= i < |w.received| ==> w.observed <= w.received[i] <= s.cam.session)
            && (w.primed.Some? ==> w.observed <= w.primed.value <= s.cam.session)
            && (w.observed !in s.cam.cancelled ==>
                  && (forall i :: 0 <= i < |w.received| ==> w.received[i] == w.observed)
                  && (w.primed.Some? ==> w.primed.value == w.observed))
  {
    WatchRunKeepsInv(START, steps);
    var w := s.watches[id];
    var all := w.received + w.queue;
    assert forall i :: 0 <= i < |w.received| ==> w.received[i] == all[i];
  }

  // ------------------------------------------------------------------
  // A frame of a later session
  // ------------------------------------------------------------------

  function Lift(steps: seq<Step>): seq<WatchStep> {
    seq(|steps|, i requires 0 <= i < |steps| => Cam(steps[i]))
  }

  predicate NoStore(steps: seq<Step>) {
    forall step :: step in steps ==> !(step.LoopOf? && step.l.LStore?)
  }

  lemma {:induction false} LiftRuns(s: Watched, steps: seq<Step>)
    requires Run(s.cam, steps).Some? && NoStore(steps)
    ensures RunWatch(s, Lift(steps)) == Some(s.(cam := Run(s.cam, steps).value))
    decreases |steps|
  {
    if steps == [] {
      assert Lift(steps) == [];
    } else {
      assert steps[0] in steps;
      assert forall later :: later in steps[1..] ==> later in steps;
      var u := s.(cam := Apply(s.cam, steps[0]).value);
      assert ApplyWatch(s, Cam(steps[0])) == Some(u);
      LiftRuns(u, steps[1..]);
      assert Lift(steps)[0] == Cam(steps[0]) && Lift(steps)[1..] == Lift(steps[1..]);
    }
  }

  lemma {:induction false} WatchConcat(s: Watched, a: seq<WatchStep>, b: seq<WatchStep>)
    requires RunWatch(s, a).Some?
    ensures RunWatch(s, a + b) == RunWatch(RunWatch(s, a).value, b)
    decreases |a|
  {
    if a == [] {
      assert a + b == b;
    } else {
      assert (a + b)[1..] == a[1..] + b;
      WatchConcat(ApplyWatch(s, a[0]).value, a[1..], b);
    }
  }

  const CLOSE_1: seq<Step> := SNAPSHOT_1 + (LOOP_ENDS + (WAIT_1 + [CloseBy(1, CFinish)]))

  // The camera after one session.
  const CLOSED_AGAIN: State := INIT.(session := 1, cancelled := {1})

  // The second session's loop has a frame ready.
  const SECOND_FRAME: State :=
    CLOSED_AGAIN.(state := OPEN, session := 2, reader := Some(2), liveReaders := {2}, paramSets := Some(2), wg := 1,
                  loops := map[2 := Injected])

  lemma AloneLoopEnds(s: State, t: State)
    requires s == FIRST_OPEN.(cancelled := {1}, reader := None, closers := map[1 := ClosingReader(Some(1))])
    requires t == s.(wg := 0, loops := map[])
    ensures Run(s, LOOP_ENDS) == Some(t)
  {
    var s1 := s.(loops := map[1 := Cancelling]);
    var s2 := s.(loops := map[1 := Leaving]);
    assert s.loops[1 := Cancelling] == s1.loops && s1.loops[1 := Leaving] == s2.loops && s2.loops - {1} == map[];
    assert s1.cancelled + {1} == s2.cancelled;
    Chain3(s, LOOP_ENDS, s1, s2, t);
  }

  lemma AloneWaits(s: State, t: State)
    requires s == FIRST_OPEN.(cancelled := {1}, reader := None, closers := map[1 := ClosingReader(Some(1))], wg := 0,
                              loops := map[])
    requires t == s.(mu := Some(Closer(1)), liveReaders := {}, closers := map[1 := Finishing])
    ensures Run(s, WAIT_1) == Some(t)
  {
    var s1 := s.(liveReaders := {}, closers := map[1 := Waiting]);
    var s2 := s1.(closers := map[1 := WantsLockAgain]);
    assert s.closers[1 := Waiting] == s1.closers && s1.closers[1 := WantsLockAgain] == s2.closers;
    assert s2.closers[1 := Finishing] == t.closers && s.liveReaders - {1} == {};
    Chain3(s, WAIT_1, s1, s2, t);
  }

  lemma AloneFinishes(s: State)
    requires s == CLOSED_AGAIN.(state := OPEN, paramSets := Some(1), mu := Some(Closer(1)),
                                closers := map[1 := Finishing])
    ensures Run(s, [CloseBy(1, CFinish)]) == Some(CLOSED_AGAIN)
  {
    assert s.closers - {1} == map[];
    var rest := [CloseBy(1, CFinish)][1..];
    assert rest == [] && Apply(s, CloseBy(1, CFinish)) == Some(CLOSED_AGAIN);
    assert Run(CLOSED_AGAIN, rest) == Some(CLOSED_AGAIN);
  }

  lemma CloseRuns()
    ensures Run(FIRST_OPEN, CLOSE_1) == Some(CLOSED_AGAIN)
  {
    var s3 := FIRST_OPEN.(cancelled := {1}, reader := None, closers := map[1 := ClosingReader(Some(1))]);
    var s6 := s3.(wg := 0, loops := map[]);
    var s9 := s6.(mu := Some(Closer(1)), liveReaders := {}, closers := map[1 := Finishing]);
    FirstSnapshotRuns(s3);
    AloneLoopEnds(s3, s6);
    AloneWaits(s6, s9);
    AloneFinishes(s9);
    RunConcat(s6, WAIT_1, [CloseBy(1, CFinish)]);
    RunConcat(s3, LOOP_ENDS, WAIT_1 + [CloseBy(1, CFinish)]);
    RunConcat(FIRST_OPEN, SNAPSHOT_1, LOOP_ENDS + (WAIT_1 + [CloseBy(1, CFinish)]));
  }

  const FRAME_2: seq<Step> := [LoopOf(2, LFrame), LoopOf(2, LInject(false))]

  lemma ReopenRuns()
    ensures Run(CLOSED_AGAIN, OpenSteps(1) + FRAME_2) == Some(SECOND_FRAME)
  {
    OpenRuns(CLOSED_AGAIN, 1);
    var s := SECOND_FRAME.(loops := map[2 := Selecting]);
    assert CLOSED_AGAIN.liveReaders + {2} == s.liveReaders && CLOSED_AGAIN.loops[2 := Selecting] == s.loops;
    var s1 := SECOND_FRAME.(loops := map[2 := Received]);
    assert s.loops[2 := Received] == s1.loops && s1.loops[2 := Injected] == SECOND_FRAME.loops;
    Chain2(s, FRAME_2, s1, SECOND_FRAME);
    RunConcat(CLOSED_AGAIN, OpenSteps(1), FRAME_2);
  }

  const JOINS: seq<WatchStep> := [Observe(1), Register(1)]
  const TAKES: seq<WatchStep> := [Broadcast(2), Receive(1)]

  const STALE: seq<WatchStep> :=
    Lift(OpenSteps(1)) + (JOINS + (Lift(CLOSE_1 + (OpenSteps(1) + FRAME_2)) + TAKES))

  lemma WatchTwo(s: Watched, a: WatchStep, b: WatchStep, t: Watched, u: Watched)
    requires ApplyWatch(s, a) == Some(t) && ApplyWatch(t, b) == Some(u)
    ensures RunWatch(s, [a, b]) == Some(u)
  {
    assert [a, b][1..] == [b] && [b][1..] == [];
    assert RunWatch(u, []) == Some(u);
    assert RunWatch(t, [b]) == Some(u);
  }

  lemma JoinRuns(joined: Watched)
    requires joined == Watched(FIRST_OPEN, map[1 := Watch(1, None, true, [], [])], {})
    ensures RunWatch(Watched(FIRST_OPEN, map[], {}), JOINS) == Some(joined)
  {
    var s := Watched(FIRST_OPEN, map[], {});
    var s1 := s.(watches := map[1 := Watch(1, None, false, [], [])]);
    assert s.watches[1 := Watch(1, None, false, [], [])] == s1.watches;
    assert s1.watches[1 := Watch(1, None, true, [], [])] == joined.watches;
    WatchTwo(s, Observe(1), Register(1), s1, joined);
  }

  lemma TakeRuns(s: Watched, end: Watched)
    requires s == Watched(SECOND_FRAME, map[1 := Watch(1, None, true, [], [])], {})
    requires end == Watched(SECOND_FRAME, map[1 := Watch(1, None, true, [], [2])], {2})
    ensures RunWatch(s, TAKES) == Some(end)
  {
    var w := Watch(1, None, true, [2], []);
    var s1 := Watched(SECOND_FRAME, map[1 := w], {2});
    assert [] + [2] == [2] && w.queue[1..] == [] && w.received + [w.queue[0]] == [2];
    assert Offer(s.watches[1], 2) == w;
    assert At(s.cam, 2, Injected);
    var t := ApplyBroadcast(s, 2).value;
    assert t.watches == s1.watches && t.broadcast == s1.broadcast;
    assert s1.watches[1 := Watch(1, None, true, [], [2])] == end.watches;
    WatchTwo(s, Broadcast(2), Receive(1), s1, end);
  }

  // Both sessions up to the frame, the subscriber having joined in the first.
  lemma SessionsRun(joined: Watched)
    requires joined == Watched(FIRST_OPEN, map[1 := Watch(1, None, true, [], [])], {})
    ensures RunWatch(joined, Lift(CLOSE_1 + (OpenSteps(1) + FRAME_2))) == Some(joined.(cam := SECOND_FRAME))
  {
    CloseRuns();
    ReopenRuns();
    RunConcat(FIRST_OPEN, CLOSE_1, OpenSteps(1) + FRAME_2);
    StoresNothing();
    LiftRuns(joined, CLOSE_1 + (OpenSteps(1) + FRAME_2));
  }

  lemma StoresNothing()
    ensures NoStore(CLOSE_1 + (OpenSteps(1) + FRAME_2)) && NoStore(OpenSteps(1))
  {
  }

  lemma StaleRuns(joined: Watched, end: Watched)
    requires joined == Watched(FIRST_OPEN, map[1 := Watch(1, None, true, [], [])], {})
    requires end == Watched(SECOND_FRAME, map[1 := Watch(1, None, true, [], [2])], {2})
    ensures RunWatch(START, STALE) == Some(end)
  {
    var again := Lift(CLOSE_1 + (OpenSteps(1) + FRAME_2));
    FirstOpenRuns();
    StoresNothing();
    LiftRuns(START, OpenSteps(1));
    JoinRuns(joined);
    SessionsRun(joined);
    TakeRuns(joined.(cam := SECOND_FRAME), end);
    WatchConcat(joined, again, TAKES);
    WatchConcat(START.(cam := FIRST_OPEN), JOINS, again + TAKES);
    WatchConcat(START, Lift(OpenSteps(1)), JOINS + (again + TAKES));
  }

  // Only close() call 1 takes steps.
  predicate OneCall(steps: seq<WatchStep>) {
    forall step :: step in steps && step.Cam? && step.step.CloseBy? ==> step.step.id == 1
  }

  lemma OneCallStep(s: State, step: Step)
    requires s.closers.Keys <= {1} && Apply(s, step).Some? && (step.CloseBy? ==> step.id == 1)
    ensures Apply(s, step).value.closers.Keys <= {1}
  {
    OnlyCloseMovesClosers(s, step);
    if step.CloseBy? {
      CloseMovesItself(s, step.id, step.c);
    }
  }

  lemma {:induction false} OneCallNoOverlap(s: Watched, steps: seq<WatchStep>)
    requires s.cam.closers.Keys <= {1} && OneCall(steps) && RunWatch(s, steps).Some?
    ensures NoOverlap(s, steps)
    decreases |steps|
  {
    if steps != [] {
      assert steps[0] in steps;
      if steps[0].Cam? {
        OneCallStep(s.cam, steps[0].step);
      }
      assert forall later :: later in steps[1..] ==> later in steps;
      OneCallNoOverlap(ApplyWatch(s, steps[0]).value, steps[1..]);
    }
  }

  lemma LiftedCalls(steps: seq<Step>)
    requires forall step :: step in steps && step.CloseBy? ==> step.id == 1
    ensures OneCall(Lift(steps))
  {
  }

  lemma StaleIsOneCall()
    ensures OneCall(STALE)
  {
    LiftedCalls(OpenSteps(1));
    LiftedCalls(CLOSE_1 + (OpenSteps(1) + FRAME_2));
  }

  /** A subscriber that has not noticed the close receives a frame of the next session, with no close() overlapping. */
  lemma StaleDelivery()
    ensures RunWatch(START, STALE).Some? && NoOverlap(START, STALE)
    ensures var s := RunWatch(START, STALE).value;
            1 in s.watches && s.watches[1].observed == 1 && s.watches[1].received == [2] && 1 in s.cam.cancelled
  {
    StaleRuns(Watched(FIRST_OPEN, map[1 := Watch(1, None, true, [], [])], {}),
              Watched(SECOND_FRAME, map[1 := Watch(1, None, true, [], [2])], {2}));
    StaleIsOneCall();
    OneCallNoOverlap(START, STALE);
  }
}
