/** Without help from outside every schedule of the camera machine ends, and ends with all calls returned. */
module CameraTermination {
  import opened Sequences
  import opened CameraLifecycle
  import opened CameraProgress

  // ------------------------------------------------------------------
  // Sums over the calls under way
  // ------------------------------------------------------------------

  ghost function Sum(ranks: map<nat, nat>): nat
    decreases |ranks|
  {
    if ranks == map[] then 0
    else
      var k :| k in ranks;
      SmallerMap(ranks, k);
      ranks[k] + Sum(ranks - {k})
  }

  lemma SmallerMap(ranks: map<nat, nat>, k: nat)
    requires k in ranks
    ensures |ranks - {k}| < |ranks|
  {
    assert (ranks - {k}).Keys == ranks.Keys - {k};
    assert |ranks| == |ranks.Keys| && |ranks - {k}| == |(ranks - {k}).Keys|;
  }

  /** The sum does not depend on the order in which the entries are taken. */
  lemma {:induction false} SumWithout(ranks: map<nat, nat>, k: nat)
    requires k in ranks
    ensures Sum(ranks) == ranks[k] + Sum(ranks - {k})
    decreases |ranks|
  {
    var j :| j in ranks && Sum(ranks) == ranks[j] + Sum(ranks - {j});
    if j != k {
      SmallerMap(ranks, j);
      SmallerMap(ranks, k);
      SumWithout(ranks - {j}, k);
      SumWithout(ranks - {k}, j);
      assert ranks - {j} - {k} == ranks - {k} - {j};
    }
  }

  lemma SumUpdate(ranks: map<nat, nat>, k: nat, v: nat)
    ensures Sum(ranks[k := v]) == v + Sum(ranks - {k})
  {
    SumWithout(ranks[k := v], k);
    assert ranks[k := v] - {k} == ranks - {k};
  }

  // ------------------------------------------------------------------
  // How many steps each call and each loop has left
  // ------------------------------------------------------------------

  function OpenerRank(pc: OpenerPc): nat {
    match pc
    case OWantsLock => 8
    case OChecking => 7
    case OpeningDriver(_) => 6
    case Opened(_) => 5
    case Seeded(_) => 4
  }

  function CloserRank(pc: CloserPc): nat {
    match pc
    case CWantsLock => 6
    case Snapshotting => 5
    case ClosingReader(_) => 4
    case Waiting => 3
    case WantsLockAgain => 2
    case Finishing => 1
  }

  function ViewerRank(pc: ViewerPc): nat {
    match pc
    case VWantsLock => 3
    case ReadingState => 2
    case Loading(_) => 1
  }

  function LoopPcRank(pc: LoopPc): nat {
    match pc
    case Received => 5
    case Injected => 4
    case Failing => 4
    case Selecting => 3
    case WritingError => 3
    case Cancelling => 2
    case Leaving => 1
  }

  function OpenerRanks(m: map<nat, OpenerPc>): map<nat, nat> {
    map i | i in m :: OpenerRank(m[i])
  }

  function CloserRanks(m: map<nat, CloserPc>): map<nat, nat> {
    map i | i in m :: CloserRank(m[i])
  }

  function ViewerRanks(m: map<nat, ViewerPc>): map<nat, nat> {
    map i | i in m :: ViewerRank(m[i])
  }

  function LoopRanks(m: map<nat, LoopPc>): map<nat, nat> {
    map i | i in m :: LoopPcRank(m[i])
  }

  /** The steps that all calls under way and all loops can take on their own. */
  ghost function StepsLeft(s: State): nat {
    Sum(OpenerRanks(s.openers)) + Sum(CloserRanks(s.closers)) + Sum(ViewerRanks(s.viewers)) + Sum(LoopRanks(s.loops))
  }

  lemma OpenersMove(m: map<nat, OpenerPc>, i: nat, pc: OpenerPc)
    requires i in m
    ensures Sum(OpenerRanks(m[i := pc])) + OpenerRank(m[i]) == Sum(OpenerRanks(m)) + OpenerRank(pc)
    ensures Sum(OpenerRanks(m - {i})) + OpenerRank(m[i]) == Sum(OpenerRanks(m))
  {
    var ranks := OpenerRanks(m);
    assert OpenerRanks(m[i := pc]) == ranks[i := OpenerRank(pc)] && OpenerRanks(m - {i}) == ranks - {i};
    SumUpdate(ranks, i, OpenerRank(pc));
    SumWithout(ranks, i);
  }

  lemma ClosersMove(m: map<nat, CloserPc>, i: nat, pc: CloserPc)
    requires i in m
    ensures Sum(CloserRanks(m[i := pc])) + CloserRank(m[i]) == Sum(CloserRanks(m)) + CloserRank(pc)
    ensures Sum(CloserRanks(m - {i})) + CloserRank(m[i]) == Sum(CloserRanks(m))
  {
    var ranks := CloserRanks(m);
    assert CloserRanks(m[i := pc]) == ranks[i := CloserRank(pc)] && CloserRanks(m - {i}) == ranks - {i};
    SumUpdate(ranks, i, CloserRank(pc));
    SumWithout(ranks, i);
  }

  lemma ViewersMove(m: map<nat, ViewerPc>, i: nat, pc: ViewerPc)
    requires i in m
    ensures Sum(ViewerRanks(m[i := pc])) + ViewerRank(m[i]) == Sum(ViewerRanks(m)) + ViewerRank(pc)
    ensures Sum(ViewerRanks(m - {i})) + ViewerRank(m[i]) == Sum(ViewerRanks(m))
  {
    var ranks := ViewerRanks(m);
    assert ViewerRanks(m[i := pc]) == ranks[i := ViewerRank(pc)] && ViewerRanks(m - {i}) == ranks - {i};
    SumUpdate(ranks, i, ViewerRank(pc));
    SumWithout(ranks, i);
  }

  lemma LoopsMove(m: map<nat, LoopPc>, n: nat, pc: LoopPc)
    requires n in m
    ensures Sum(LoopRanks(m[n := pc])) + LoopPcRank(m[n]) == Sum(LoopRanks(m)) + LoopPcRank(pc)
    ensures Sum(LoopRanks(m - {n})) + LoopPcRank(m[n]) == Sum(LoopRanks(m))
  {
    var ranks := LoopRanks(m);
    assert LoopRanks(m[n := pc]) == ranks[n := LoopPcRank(pc)] && LoopRanks(m - {n}) == ranks - {n};
    SumUpdate(ranks, n, LoopPcRank(pc));
    SumWithout(ranks, n);
  }

  lemma LoopLaunches(m: map<nat, LoopPc>, n: nat)
    ensures Sum(LoopRanks(m[n := Selecting])) <= Sum(LoopRanks(m)) + 3
  {
    var ranks := LoopRanks(m);
    assert LoopRanks(m[n := Selecting]) == ranks[n := 3];
    SumUpdate(ranks, n, 3);
    if n in m {
      SumWithout(ranks, n);
    } else {
      assert ranks - {n} == ranks;
    }
  }

  // ------------------------------------------------------------------
  // Every step of their own uses one up
  // ------------------------------------------------------------------

  lemma OpenMoves(s: State, id: nat, o: OpenStep)
    requires ApplyOpen(s, id, o).Some? && !o.OStart?
    ensures var t := ApplyOpen(s, id, o).value;
            && id in s.openers && t.closers == s.closers && t.viewers == s.viewers
            && t.openers == (if id in t.openers then s.openers[id := t.openers[id]] else s.openers - {id})
            && (id in t.openers ==> OpenerRank(t.openers[id]) < OpenerRank(s.openers[id]) && t.loops == s.loops)
            && (id !in t.openers ==> t.loops == s.loops || t.loops == s.loops[s.openers[id].session := Selecting])
  {
  }

  lemma CloseMoves(s: State, id: nat, c: CloseStep)
    requires ApplyClose(s, id, c).Some? && !c.CStart?
    ensures var t := ApplyClose(s, id, c).value;
            && id in s.closers && t.openers == s.openers && t.viewers == s.viewers && t.loops == s.loops
            && t.closers == (if id in t.closers then s.closers[id := t.closers[id]] else s.closers - {id})
            && (id in t.closers ==> CloserRank(t.closers[id]) < CloserRank(s.closers[id]))
  {
  }

  lemma OpenUsesOne(s: State, id: nat, o: OpenStep)
    requires ApplyOpen(s, id, o).Some? && !o.OStart?
    ensures StepsLeft(ApplyOpen(s, id, o).value) < StepsLeft(s)
  {
    var t := ApplyOpen(s, id, o).value;
    OpenMoves(s, id, o);
    OpenersMove(s.openers, id, if id in t.openers then t.openers[id] else OWantsLock);
    if o.OLaunch? {
      LoopLaunches(s.loops, s.openers[id].session);
    }
  }

  lemma CloseUsesOne(s: State, id: nat, c: CloseStep)
    requires ApplyClose(s, id, c).Some? && !c.CStart?
    ensures StepsLeft(ApplyClose(s, id, c).value) < StepsLeft(s)
  {
    var t := ApplyClose(s, id, c).value;
    CloseMoves(s, id, c);
    ClosersMove(s.closers, id, if id in t.closers then t.closers[id] else CWantsLock);
  }

  lemma ViewUsesOne(s: State, id: nat, v: ViewStep)
    requires ApplyView(s, id, v).Some? && !v.VStart?
    ensures StepsLeft(ApplyView(s, id, v).value) < StepsLeft(s)
  {
    var t := ApplyView(s, id, v).value;
    ViewersMove(s.viewers, id, if id in t.viewers then t.viewers[id] else VWantsLock);
  }

  lemma LoopUsesOne(s: State, n: nat, l: LoopStep)
    requires ApplyLoop(s, n, l).Some? && OnItsOwn(LoopOf(n, l))
    ensures StepsLeft(ApplyLoop(s, n, l).value) < StepsLeft(s)
  {
    var t := ApplyLoop(s, n, l).value;
    LoopsMove(s.loops, n, if n in t.loops then t.loops[n] else Selecting);
  }

  lemma StepUsesOne(s: State, step: Step)
    requires Apply(s, step).Some? && OnItsOwn(step)
    ensures StepsLeft(Apply(s, step).value) < StepsLeft(s)
  {
    match step
    case OpenBy(id, o) => OpenUsesOne(s, id, o);
    case CloseBy(id, c) => CloseUsesOne(s, id, c);
    case ViewBy(id, v) => ViewUsesOne(s, id, v);
    case LoopOf(n, l) => LoopUsesOne(s, n, l);
  }

  /** From any state at all, no schedule of own steps is longer than the steps left, overlapping closes included. */
  lemma {:induction false} OwnStepsEnd(s: State, more: seq<Step>)
    requires Run(s, more).Some? && forall step :: step in more ==> OnItsOwn(step)
    ensures |more| + StepsLeft(Run(s, more).value) <= StepsLeft(s)
    decreases |more|
  {
    if more != [] {
      StepUsesOne(s, more[0]);
      assert forall later :: later in more[1..] ==> later in more;
      OwnStepsEnd(Apply(s, more[0]).value, more[1..]);
    }
  }

  // ------------------------------------------------------------------
  // Where they end nobody is left behind
  // ------------------------------------------------------------------

  /** No call or loop can take a step of its own. */
  ghost predicate Stuck(s: State) {
    forall step :: OnItsOwn(step) ==> Apply(s, step).None?
  }

  /** No call is under way, and every loop waits for a frame with its context alive. */
  predicate AllReturned(s: State) {
    && s.openers == map[] && s.closers == map[] && s.viewers == map[]
    && (forall n :: n in s.loops ==> s.loops[n] == Selecting && n !in s.cancelled)
  }

  lemma StuckHasNone(s: State, call: Who)
    requires Inv(s) && OneCloser(s) && Stuck(s) && (call.Loop? ==> call.session in s.cancelled)
    ensures !InProgress(s, call)
  {
    if InProgress(s, call) {
      InvReturning(s, call);
      NextIsEnabled(s, call);
    }
  }

  lemma HolderIsEnabled(s: State)
    requires MutexOk(s) && s.mu.Some?
    ensures OnItsOwn(HolderStep(s)) && Apply(s, HolderStep(s)).Some?
  {
  }

  lemma StuckHoldsNoLock(s: State)
    requires MutexOk(s) && Stuck(s)
    ensures s.mu.None?
  {
    if s.mu.Some? {
      HolderIsEnabled(s);
    }
  }

  lemma StuckLoopSelects(s: State, n: nat)
    requires Inv(s) && OneCloser(s) && Stuck(s) && n in s.loops && s.mu.None?
    ensures s.loops[n] == Selecting
  {
    assert s.loops[n] == Received ==> Apply(s, LoopOf(n, LInject(true))).Some?;
    assert s.loops[n] == Injected ==> Apply(s, LoopOf(n, LStore)).Some?;
    assert s.loops[n] == Failing ==> Apply(s, LoopOf(n, LLock)).Some?;
    assert s.loops[n] == Cancelling ==> Apply(s, LoopOf(n, LCancel)).Some?;
    assert s.loops[n] == Leaving ==> Apply(s, LoopOf(n, LDone)).Some?;
  }

  lemma StuckIsDone(s: State)
    requires Inv(s) && OneCloser(s) && Stuck(s)
    ensures AllReturned(s)
  {
    forall i | i in s.openers
      ensures false
    {
      StuckHasNone(s, Opener(i));
    }
    forall i | i in s.closers
      ensures false
    {
      StuckHasNone(s, Closer(i));
    }
    forall i | i in s.viewers
      ensures false
    {
      StuckHasNone(s, Viewer(i));
    }
    forall n | n in s.loops
      ensures s.loops[n] == Selecting && n !in s.cancelled
    {
      if n in s.cancelled {
        StuckHasNone(s, Loop(n));
      }
      StuckHoldsNoLock(s);
      StuckLoopSelects(s, n);
    }
  }

  /**
   * Whatever order the scheduler picks: from a reachable state every schedule of own steps is bounded, and where no own
   * step is left every call has returned and every cancelled loop is gone.
   */
  lemma EveryScheduleReturns(steps: seq<Step>, s: State, more: seq<Step>, t: State)
    requires Run(INIT, steps) == Some(s) && NeverTwoClosers(INIT, steps)
    requires Run(s, more) == Some(t) && NeverTwoClosers(s, more) && forall step :: step in more ==> OnItsOwn(step)
    ensures |more| <= StepsLeft(s)
    ensures Stuck(t) ==> AllReturned(t)
  {
    OwnStepsEnd(s, more);
    if Stuck(t) {
      RunKeepsInv(INIT, steps);
      RunKeepsInv(s, more);
      OneCloserAtEnd(s, more);
      StuckIsDone(t);
    }
  }
}
