/**
 * What the camera machine reaches on its own: every call returns, close() ends CLOSED, and when OPEN means a running
 * loop.
 */
module CameraProgress {
  import opened Sequences
  import opened CameraLifecycle

  // ------------------------------------------------------------------
  // The next step towards the return of a call
  // ------------------------------------------------------------------

  /** Starts no call and needs no frame, no end of the source, no panic and no failing driver. */
  predicate OnItsOwn(step: Step) {
    match step
    case OpenBy(_, o) => !o.OStart? && !o.ODriverFails?
    case CloseBy(_, c) => !c.CStart?
    case ViewBy(_, v) => !v.VStart?
    case LoopOf(_, l) => !l.LFrame? && !l.LSourceEnds? && !l.LPanic?
  }

  function Owner(step: Step): Who {
    match step
    case OpenBy(id, _) => Opener(id)
    case CloseBy(id, _) => Closer(id)
    case ViewBy(id, _) => Viewer(id)
    case LoopOf(n, _) => Loop(n)
  }

  predicate InProgress(s: State, call: Who) {
    match call
    case Opener(i) => i in s.openers
    case Closer(i) => i in s.closers
    case Viewer(i) => i in s.viewers
    case Loop(n) => n in s.loops
  }

  predicate IsPast(s: State, call: Who) {
    call.Closer? && call.id in s.closers && Past(s.closers[call.id])
  }

  /** An open that has begun a session and not yet started its loop. */
  predicate Starting(pc: OpenerPc) {
    pc.OpeningDriver? || pc.Opened? || pc.Seeded?
  }

  /** What stays true of loops, opens and finishing closes even with a second close() at its snapshot. */
  ghost predicate Steady(s: State) {
    && (forall n :: n in s.loops ==> n == s.session)
    && s.wg == (if s.session in s.loops then 1 else 0)
    && (s.state == CLOSED ==> s.loops == map[])
    && (forall i :: i in s.openers && Starting(s.openers[i]) ==> StartingOk(s, s.openers[i]))
    && (forall i :: i in s.closers && s.closers[i] == Finishing ==> s.loops == map[])
  }

  predicate StartingOk(s: State, pc: OpenerPc)
    requires Starting(pc)
  {
    pc.session == s.session && s.loops == map[] && (!pc.OpeningDriver? ==> s.state != CLOSED)
  }

  ghost predicate PastOk(s: State, id: nat)
    requires id in s.closers
  {
    && s.state != CLOSED && s.session in s.cancelled
    && (s.closers[id] == WantsLockAgain ==> s.loops == map[])
    && (forall i :: i in s.openers ==> !Starting(s.openers[i]))
    && (forall i :: i in s.closers && s.closers[i] == Finishing ==> i == id)
  }

  /** From here on `call` can return. */
  ghost predicate Returning(s: State, call: Who) {
    && MutexOk(s) && Steady(s) && InProgress(s, call)
    && (IsPast(s, call) ==> PastOk(s, call.id))
    && (call.Loop? ==> call.session in s.cancelled)
  }

  function HolderStep(s: State): Step
    requires s.mu.Some? && InProgress(s, s.mu.value)
  {
    match s.mu.value
    case Opener(i) =>
      OpenBy(i, match s.openers[i]
                case OWantsLock => OLock
                case OChecking => if s.state == CLOSED then OBegin else OReject
                case OpeningDriver(_) => ODriverOk
                case Opened(_) => OSeed(true)
                case Seeded(_) => OLaunch)
    case Closer(i) => CloseBy(i, if s.closers[i] == Snapshotting then CSnapshot else CFinish)
    case Viewer(i) => ViewBy(i, VState)
    case Loop(n) => LoopOf(n, LWriteError)
  }

  function LoopExit(s: State, n: nat): Step
    requires n in s.loops
  {
    LoopOf(n, match s.loops[n]
              case Selecting => LCancelled
              case Received => LInject(true)
              case Injected => LStore
              case Failing => LLock
              case WritingError => LWriteError
              case Cancelling => LCancel
              case Leaving => LDone)
  }

  /** The holder of the mutex first, then the call itself, or the loop it waits for. */
  function Next(s: State, call: Who): Step
    requires InProgress(s, call) && (s.mu.Some? ==> InProgress(s, s.mu.value))
    requires s.wg > 0 ==> s.session in s.loops
  {
    if s.mu.Some? then HolderStep(s)
    else
      match call
      case Opener(i) => OpenBy(i, OLock)
      case Viewer(i) => ViewBy(i, if s.viewers[i].Loading? then VLoad else VLock)
      case Loop(n) => LoopExit(s, n)
      case Closer(i) =>
        match s.closers[i]
        case ClosingReader(_) => CloseBy(i, CReader)
        case Waiting => if s.wg > 0 then LoopExit(s, s.session) else CloseBy(i, CWait)
        case WantsLockAgain => CloseBy(i, CLockAgain)
        case _ => CloseBy(i, CLock)
  }

  // ------------------------------------------------------------------
  // It is enabled and brings the return closer
  // ------------------------------------------------------------------

  function LoopRank(s: State): nat {
    if s.session !in s.loops then 0
    else
      match s.loops[s.session]
      case Received => 5
      case Injected => 4
      case Failing => 4
      case Selecting => 3
      case WritingError => 3
      case Cancelling => 2
      case Leaving => 1
  }

  function HoldRank(s: State): nat {
    match s.mu
    case None => 0
    case Some(Opener(i)) =>
      if i !in s.openers then 0
      else
        (match s.openers[i]
         case OWantsLock => 0
         case OChecking => 13
         case OpeningDriver(_) => 12
         case Opened(_) => 11
         case Seeded(_) => 10)
    case _ => 1
  }

  function CallRank(s: State, call: Who): nat
    requires InProgress(s, call)
  {
    match call
    case Opener(i) => if s.openers[i] == OWantsLock then 14 else 0
    case Viewer(i) => (match s.viewers[i] case VWantsLock => 4 case ReadingState => 2 case Loading(_) => 1)
    case Loop(_) => 0
    case Closer(i) =>
      match s.closers[i]
      case CWantsLock => 12
      case Snapshotting => 10
      case ClosingReader(_) => 8
      case Waiting => 6
      case WantsLockAgain => 4
      case Finishing => 2
  }

  function Rank(s: State, call: Who): nat
    requires InProgress(s, call)
  {
    2 * LoopRank(s) + HoldRank(s) + CallRank(s, call)
  }

  ghost predicate Returned(s: State, call: Who) {
    && !InProgress(s, call) && s.mu.None?
    && (call.Closer? || call.Loop? ==> s.loops == map[] && s.wg == 0)
    && (call.Closer? ==> s.state == CLOSED)
  }

  lemma OpenKeepsSteady(s: State, id: nat, o: OpenStep)
    requires MutexOk(s) && Steady(s) && ApplyOpen(s, id, o).Some? && !o.ODriverFails?
    ensures Steady(ApplyOpen(s, id, o).value)
  {
  }

  lemma CloseKeepsSteady(s: State, id: nat, c: CloseStep)
    requires MutexOk(s) && Steady(s) && ApplyClose(s, id, c).Some? && (c.CLockAgain? ==> s.loops == map[])
    ensures Steady(ApplyClose(s, id, c).value)
  {
  }

  lemma LoopKeepsSteady(s: State, n: nat, l: LoopStep)
    requires MutexOk(s) && Steady(s) && ApplyLoop(s, n, l).Some?
    ensures Steady(ApplyLoop(s, n, l).value)
  {
    var t := ApplyLoop(s, n, l).value;
    assert n == s.session && s.loops != map[];
    assert forall i :: i in t.openers ==> !Starting(t.openers[i]);
    assert l.LDone? ==> t.loops == map[];
  }

  lemma ViewKeepsSteady(s: State, id: nat, v: ViewStep)
    requires Steady(s) && ApplyView(s, id, v).Some?
    ensures Steady(ApplyView(s, id, v).value)
  {
    var t := ApplyView(s, id, v).value;
    assert forall i :: i in t.openers && Starting(t.openers[i]) ==> StartingOk(s, t.openers[i]);
  }

  lemma NextIsEnabled(s: State, call: Who)
    requires Returning(s, call)
    ensures Apply(s, Next(s, call)).Some? && OnItsOwn(Next(s, call))
  {
  }

  lemma NextKeepsSteady(s: State, call: Who)
    requires Returning(s, call) && Apply(s, Next(s, call)).Some?
    ensures MutexOk(Apply(s, Next(s, call)).value) && Steady(Apply(s, Next(s, call)).value)
  {
    match Next(s, call)
    case OpenBy(id, o) =>
      OpenKeepsMutex(s, id, o);
      OpenKeepsSteady(s, id, o);
    case CloseBy(id, c) =>
      CloseKeepsMutex(s, id, c);
      CloseKeepsSteady(s, id, c);
    case ViewBy(id, v) =>
      ViewKeepsMutex(s, id, v);
      ViewKeepsSteady(s, id, v);
    case LoopOf(n, l) =>
      LoopKeepsMutex(s, n, l);
      LoopKeepsSteady(s, n, l);
  }

  lemma OpenKeepsPast(s: State, id: nat, o: OpenStep, k: nat)
    requires k in s.closers && PastOk(s, k) && ApplyOpen(s, id, o).Some?
    ensures PastOk(ApplyOpen(s, id, o).value, k)
  {
  }

  lemma OthersKeepPast(s: State, id: nat, c: CloseStep, k: nat)
    requires k in s.closers && PastOk(s, k) && id != k && ApplyClose(s, id, c).Some? && c.CSnapshot?
    ensures PastOk(ApplyClose(s, id, c).value, k)
  {
  }

  // The close's own steps, its snapshot included.
  lemma CloseKeepsPast(s: State, k: nat, c: CloseStep)
    requires MutexOk(s) && Steady(s) && ApplyClose(s, k, c).Some? && !c.CStart?
    requires k in s.closers && (Past(s.closers[k]) ==> PastOk(s, k))
    ensures var t := ApplyClose(s, k, c).value; k in t.closers && Past(t.closers[k]) ==> PastOk(t, k)
  {
  }

  lemma ViewKeepsPast(s: State, id: nat, v: ViewStep, k: nat)
    requires k in s.closers && PastOk(s, k) && ApplyView(s, id, v).Some?
    ensures PastOk(ApplyView(s, id, v).value, k)
  {
  }

  lemma LoopKeepsPast(s: State, n: nat, l: LoopStep, k: nat)
    requires k in s.closers && PastOk(s, k) && ApplyLoop(s, n, l).Some?
    ensures PastOk(ApplyLoop(s, n, l).value, k)
  {
    var t := ApplyLoop(s, n, l).value;
    assert t.closers == s.closers && t.openers == s.openers;
  }

  lemma NextKeepsPast(s: State, call: Who)
    requires Returning(s, call) && Apply(s, Next(s, call)).Some? && IsPast(Apply(s, Next(s, call)).value, call)
    ensures PastOk(Apply(s, Next(s, call)).value, call.id)
  {
    match Next(s, call)
    case OpenBy(id, o) => OpenKeepsPast(s, id, o, call.id);
    case CloseBy(id, c) =>
      if id == call.id {
        CloseKeepsPast(s, id, c);
      } else {
        OthersKeepPast(s, id, c, call.id);
      }
    case ViewBy(id, v) => ViewKeepsPast(s, id, v, call.id);
    case LoopOf(n, l) => LoopKeepsPast(s, n, l, call.id);
  }

  lemma OpenLowersRank(s: State, id: nat, o: OpenStep)
    requires MutexOk(s) && Steady(s) && ApplyOpen(s, id, o).Some? && !o.OStart? && !o.OLock?
    ensures var t := ApplyOpen(s, id, o).value; 2 * LoopRank(t) + HoldRank(t) < 2 * LoopRank(s) + HoldRank(s)
  {
  }

  lemma LoopLowersRank(s: State, n: nat, l: LoopStep)
    requires Steady(s) && ApplyLoop(s, n, l).Some? && OnItsOwn(LoopOf(n, l)) && HoldRank(s) <= 1
    ensures var t := ApplyLoop(s, n, l).value; 2 * LoopRank(t) + HoldRank(t) < 2 * LoopRank(s) + HoldRank(s)
  {
  }

  lemma OwnStepLowersRank(s: State, call: Who)
    requires Returning(s, call) && Owner(Next(s, call)) == call && !call.Loop? && Apply(s, Next(s, call)).Some?
    ensures var t := Apply(s, Next(s, call)).value; InProgress(t, call) ==> Rank(t, call) < Rank(s, call)
  {
    if call.Opener? && s.openers[call.id] != OWantsLock {
      OpenLowersRank(s, call.id, Next(s, call).o);
    }
  }

  lemma OpenLeavesOthers(s: State, id: nat, o: OpenStep, call: Who)
    requires InProgress(s, call) && ApplyOpen(s, id, o).Some? && call != Opener(id)
    ensures var t := ApplyOpen(s, id, o).value; InProgress(t, call) && CallRank(t, call) == CallRank(s, call)
  {
  }

  lemma CloseLeavesOthers(s: State, id: nat, c: CloseStep, call: Who)
    requires InProgress(s, call) && ApplyClose(s, id, c).Some? && call != Closer(id)
    ensures var t := ApplyClose(s, id, c).value; InProgress(t, call) && CallRank(t, call) == CallRank(s, call)
  {
  }

  lemma ViewLeavesOthers(s: State, id: nat, v: ViewStep, call: Who)
    requires InProgress(s, call) && ApplyView(s, id, v).Some? && call != Viewer(id)
    ensures var t := ApplyView(s, id, v).value; InProgress(t, call) && CallRank(t, call) == CallRank(s, call)
  {
  }

  lemma LoopLeavesOthers(s: State, n: nat, l: LoopStep, call: Who)
    requires InProgress(s, call) && ApplyLoop(s, n, l).Some? && call != Loop(n)
    ensures var t := ApplyLoop(s, n, l).value; InProgress(t, call) && CallRank(t, call) == CallRank(s, call)
  {
  }

  // A step of another call or loop leaves `call` where it is.
  lemma OthersKeepCall(s: State, step: Step, call: Who)
    requires InProgress(s, call) && Apply(s, step).Some? && Owner(step) != call
    ensures var t := Apply(s, step).value; InProgress(t, call) && CallRank(t, call) == CallRank(s, call)
  {
    match step
    case OpenBy(id, o) => OpenLeavesOthers(s, id, o, call);
    case CloseBy(id, c) => CloseLeavesOthers(s, id, c, call);
    case ViewBy(id, v) => ViewLeavesOthers(s, id, v, call);
    case LoopOf(n, l) => LoopLeavesOthers(s, n, l, call);
  }

  lemma HolderLowersRank(s: State, call: Who)
    requires Returning(s, call) && s.mu.Some? && s.mu != Some(call) && Apply(s, Next(s, call)).Some?
    ensures var t := Apply(s, Next(s, call)).value;
            2 * LoopRank(t) + HoldRank(t) < 2 * LoopRank(s) + HoldRank(s)
  {
    match Next(s, call)
    case OpenBy(id, o) => OpenLowersRank(s, id, o);
    case LoopOf(n, l) => LoopLowersRank(s, n, l);
    case _ =>
  }

  lemma LoopExitLowersRank(s: State, call: Who)
    requires Returning(s, call) && s.mu.None? && Next(s, call).LoopOf? && Apply(s, Next(s, call)).Some?
    ensures var t := Apply(s, Next(s, call)).value;
            2 * LoopRank(t) + HoldRank(t) < 2 * LoopRank(s) + HoldRank(s)
  {
    LoopLowersRank(s, Next(s, call).n, Next(s, call).l);
  }

  lemma NextLowersRank(s: State, call: Who)
    requires Returning(s, call) && Apply(s, Next(s, call)).Some?
    ensures var t := Apply(s, Next(s, call)).value; InProgress(t, call) ==> Rank(t, call) < Rank(s, call)
  {
    if call.Loop? {
      if s.mu.Some? && s.mu != Some(call) {
        HolderLowersRank(s, call);
      } else {
        LoopLowersRank(s, Next(s, call).n, Next(s, call).l);
      }
    } else if Owner(Next(s, call)) == call {
      OwnStepLowersRank(s, call);
    } else {
      OthersKeepCall(s, Next(s, call), call);
      if s.mu.Some? {
        HolderLowersRank(s, call);
      } else {
        LoopExitLowersRank(s, call);
      }
    }
  }

  lemma CloseEnds(s: State, id: nat, c: CloseStep)
    requires MutexOk(s) && Steady(s) && id in s.closers
    requires ApplyClose(s, id, c).Some? && id !in ApplyClose(s, id, c).value.closers
    ensures Returned(ApplyClose(s, id, c).value, Closer(id))
  {
  }

  lemma LoopEnds(s: State, n: nat, l: LoopStep)
    requires Steady(s) && n in s.loops && s.mu.None?
    requires ApplyLoop(s, n, l).Some? && n !in ApplyLoop(s, n, l).value.loops
    ensures Returned(ApplyLoop(s, n, l).value, Loop(n))
  {
    assert s.loops.Keys == {n};
  }

  lemma HolderHasNotLeft(s: State, n: nat)
    requires MutexOk(s) && n in s.loops && s.mu.Some?
    ensures HolderStep(s).LoopOf? ==> HolderStep(s).l == LWriteError
  {
  }

  lemma NextEnds(s: State, call: Who)
    requires Returning(s, call) && Apply(s, Next(s, call)).Some? && !InProgress(Apply(s, Next(s, call)).value, call)
    ensures Returned(Apply(s, Next(s, call)).value, call)
  {
    var step := Next(s, call);
    if Owner(step) != call {
      OthersKeepCall(s, step, call);
    } else if call.Closer? {
      CloseEnds(s, call.id, step.c);
    } else if call.Loop? {
      if s.mu.Some? {
        HolderHasNotLeft(s, call.session);
      }
      LoopEnds(s, call.session, step.l);
    }
  }

  // ------------------------------------------------------------------
  // Every call returns
  // ------------------------------------------------------------------

  /** A step for the sake of `call`: its own, the loop's, or one that lets go of the mutex held at `s`. */
  predicate Serves(s: State, call: Who, step: Step) {
    && OnItsOwn(step)
    && (Owner(step) == call || Owner(step).Loop? || s.mu == Some(Owner(step)))
    && (IsPast(s, call) && step.CloseBy? && step.c.CSnapshot? ==> s.mu == Some(Owner(step)) && Owner(step) != call)
  }

  /** No close() but `call` has its lock or is past it. */
  predicate Alone(s: State, call: Who) {
    forall i :: i in s.closers && Closer(i) != call ==> s.closers[i] == CWantsLock
  }

  lemma NextServes(s: State, call: Who)
    requires Returning(s, call)
    ensures Serves(s, call, Next(s, call))
  {
  }

  lemma NextMutex(s: State, call: Who)
    requires Returning(s, call) && Apply(s, Next(s, call)).Some?
    ensures var t := Apply(s, Next(s, call)).value; t.mu.None? || t.mu.value == call || t.mu.value.Loop? || t.mu == s.mu
  {
  }

  lemma NextStaysPast(s: State, call: Who)
    requires Returning(s, call) && Apply(s, Next(s, call)).Some? && IsPast(s, call)
    ensures var t := Apply(s, Next(s, call)).value; InProgress(t, call) ==> IsPast(t, call)
  {
  }

  lemma ServesEarlier(s: State, call: Who, step: Step)
    requires Returning(s, call) && Apply(s, Next(s, call)).Some? && InProgress(Apply(s, Next(s, call)).value, call)
    requires Serves(Apply(s, Next(s, call)).value, call, step)
    ensures Serves(s, call, step)
  {
    NextMutex(s, call);
    if IsPast(s, call) {
      NextStaysPast(s, call);
      NextKeepsSteady(s, call);
    }
  }

  lemma OnlyCloseMovesClosers(s: State, step: Step)
    requires Apply(s, step).Some?
    ensures !step.CloseBy? ==> Apply(s, step).value.closers == s.closers
  {
    match step
    case OpenBy(id, o) => assert ApplyOpen(s, id, o).value.closers == s.closers;
    case CloseBy(_, _) =>
    case ViewBy(id, v) => assert ApplyView(s, id, v).value.closers == s.closers;
    case LoopOf(n, l) => assert ApplyLoop(s, n, l).value.closers == s.closers;
  }

  lemma CloseMovesItself(s: State, id: nat, c: CloseStep)
    requires ApplyClose(s, id, c).Some?
    ensures var t := ApplyClose(s, id, c).value;
            forall i :: i in t.closers && i != id ==> i in s.closers && t.closers[i] == s.closers[i]
  {
  }

  lemma AloneMovesItself(s: State, call: Who)
    requires Returning(s, call) && Alone(s, call) && Next(s, call).CloseBy?
    ensures Closer(Next(s, call).id) == call
  {
  }

  lemma NextKeepsAlone(s: State, call: Who)
    requires Returning(s, call) && Apply(s, Next(s, call)).Some? && Alone(s, call)
    ensures Alone(Apply(s, Next(s, call)).value, call)
  {
    var step := Next(s, call);
    OnlyCloseMovesClosers(s, step);
    if step.CloseBy? {
      AloneMovesItself(s, call);
      CloseMovesItself(s, step.id, step.c);
    }
  }

  lemma NextKeepsReturning(s: State, call: Who)
    requires Returning(s, call)
    ensures Apply(s, Next(s, call)).Some?
    ensures var t := Apply(s, Next(s, call)).value;
            if InProgress(t, call) then Returning(t, call) && Rank(t, call) < Rank(s, call) else Returned(t, call)
  {
    NextIsEnabled(s, call);
    NextKeepsSteady(s, call);
    NextLowersRank(s, call);
    var t := Apply(s, Next(s, call)).value;
    if IsPast(t, call) {
      NextKeepsPast(s, call);
    }
    if !InProgress(t, call) {
      NextEnds(s, call);
    }
  }

  // The schedule that takes the next step until the call has returned.
  lemma {:induction false} Return(s: State, call: Who) returns (more: seq<Step>, t: State)
    requires Returning(s, call)
    ensures Run(s, more) == Some(t) && Returned(t, call)
    ensures forall step :: step in more ==> Serves(s, call, step)
    ensures Alone(s, call) ==> NeverTwoClosers(s, more)
    decreases Rank(s, call)
  {
    var step := Next(s, call);
    NextKeepsReturning(s, call);
    NextServes(s, call);
    if Alone(s, call) {
      NextKeepsAlone(s, call);
    }
    var u := Apply(s, step).value;
    if !InProgress(u, call) {
      more, t := [step], u;
      assert more[1..] == [];
    } else {
      var rest;
      rest, t := Return(u, call);
      more := [step] + rest;
      assert more[1..] == rest;
      forall later | later in more
        ensures Serves(s, call, later)
      {
        if later in rest {
          ServesEarlier(s, call, later);
        }
      }
    }
  }

  lemma {:induction false} OneCloserAtEnd(s: State, steps: seq<Step>)
    requires Run(s, steps).Some? && NeverTwoClosers(s, steps)
    ensures OneCloser(Run(s, steps).value)
    decreases |steps|
  {
    if steps != [] {
      OneCloserAtEnd(Apply(s, steps[0]).value, steps[1..]);
    }
  }

  lemma InvReturning(s: State, call: Who)
    requires Inv(s) && OneCloser(s) && InProgress(s, call) && (call.Loop? ==> call.session in s.cancelled)
    ensures Returning(s, call)
  {
    if call.Closer? {
      assert CloserOk(s, s.closers[call.id]);
    }
  }

  /**
   * No deadlock: from every reachable state every open, close and view that is under way, and every loop whose context
   * is cancelled, has a schedule on which it returns. Nothing from outside is needed for it, no call begins, and of the
   * other calls only the one that holds the mutex moves, to let go of it.
   */
  lemma CallReturns(steps: seq<Step>, s: State, call: Who) returns (more: seq<Step>, t: State)
    requires Run(INIT, steps) == Some(s) && NeverTwoClosers(INIT, steps)
    requires InProgress(s, call) && (call.Loop? ==> call.session in s.cancelled)
    ensures Run(s, more) == Some(t) && !InProgress(t, call)
    ensures forall step :: step in more ==> Serves(s, call, step)
  {
    RunKeepsInv(INIT, steps);
    OneCloserAtEnd(INIT, steps);
    InvReturning(s, call);
    more, t := Return(s, call);
  }

  lemma OthersKeepCloser(s: State, step: Step, id: nat)
    requires Apply(s, step).Some? && id in s.closers && Owner(step) != Closer(id)
    ensures var t := Apply(s, step).value; id in t.closers && t.closers[id] == s.closers[id]
  {
    if step.CloseBy? {
      assert step.id != id;
    }
  }

  lemma {:induction false} RunLeavesClose(s: State, steps: seq<Step>, id: nat)
    requires Run(s, steps).Some? && id in s.closers && forall step :: step in steps ==> Owner(step) != Closer(id)
    ensures var t := Run(s, steps).value; id in t.closers && t.closers[id] == s.closers[id]
    decreases |steps|
  {
    if steps != [] {
      var step, u := steps[0], Apply(s, steps[0]).value;
      OnlyCloseMovesClosers(s, step);
      OthersKeepCloser(s, step, id);
      assert forall later :: later in steps[1..] ==> later in steps;
      RunLeavesClose(u, steps[1..], id);
    }
  }

  /** The loop that close() waits for gets out, its ERROR write included, while that close() stands still. */
  lemma WaitingHoldsNoLock(steps: seq<Step>, s: State, id: nat) returns (more: seq<Step>, t: State)
    requires Run(INIT, steps) == Some(s) && NeverTwoClosers(INIT, steps)
    requires id in s.closers && s.closers[id] == Waiting && s.wg > 0
    ensures Run(s, more) == Some(t) && Apply(t, CloseBy(id, CWait)).Some?
    ensures forall step :: step in more ==> OnItsOwn(step) && Owner(step) != Closer(id)
  {
    RunKeepsInv(INIT, steps);
    OneCloserAtEnd(INIT, steps);
    assert CloserOk(s, s.closers[id]);
    InvReturning(s, Loop(s.session));
    more, t := Return(s, Loop(s.session));
    RunLeavesClose(s, more, id);
  }

  /**
   * Every close() comes to its end and leaves the camera CLOSED with no loop; if it is past its snapshot and no other
   * close has the lock, with no reader, frame or parameter sets either.
   */
  lemma CloseEndsClosed(steps: seq<Step>, s: State, id: nat) returns (more: seq<Step>, t: State)
    requires Run(INIT, steps) == Some(s) && NeverTwoClosers(INIT, steps) && id in s.closers
    ensures Run(s, more) == Some(t) && t.state == CLOSED && t.loops == map[] && id !in t.closers
    ensures forall step :: step in more ==> Serves(s, Closer(id), step)
    ensures Alone(s, Closer(id)) ==> Quiet(t)
  {
    RunKeepsInv(INIT, steps);
    OneCloserAtEnd(INIT, steps);
    InvReturning(s, Closer(id));
    more, t := Return(s, Closer(id));
    if Alone(s, Closer(id)) {
      RunKeepsInv(s, more);
    }
  }

  lemma OnlyOpenLeavesClosed(s: State, step: Step)
    requires Inv(s) && OneCloser(s) && Apply(s, step).Some? && s.state == CLOSED
    ensures Apply(s, step).value.state != CLOSED ==> step.OpenBy? && (step.o.ODriverOk? || step.o.ODriverFails?)
  {
  }

  /** Once CLOSED the camera stays so, with nothing left over, until an open has asked the driver. */
  lemma {:induction false} ClosedStays(s: State, steps: seq<Step>)
    requires Inv(s) && s.state == CLOSED && Run(s, steps).Some? && NeverTwoClosers(s, steps)
    requires forall step :: step in steps ==> !(step.OpenBy? && (step.o.ODriverOk? || step.o.ODriverFails?))
    ensures Run(s, steps).value.state == CLOSED && Quiet(Run(s, steps).value)
    decreases |steps|
  {
    if steps != [] {
      StepKeepsInv(s, steps[0]);
      OnlyOpenLeavesClosed(s, steps[0]);
      assert forall later :: later in steps[1..] ==> later in steps;
      ClosedStays(Apply(s, steps[0]).value, steps[1..]);
    }
  }

  // ------------------------------------------------------------------
  // When OPEN means a running loop
  // ------------------------------------------------------------------

  /** The source of session `n` ended without an error. */
  function CleanEnd(n: nat): Step {
    LoopOf(n, LSourceEnds(false))
  }

  /** The loop of the current session has not begun to leave. */
  predicate Staying(s: State) {
    s.session in s.loops && s.loops[s.session] != Cancelling && s.loops[s.session] != Leaving
  }

  /** No open has begun a session it has yet to start the loop of, and no close() is past its snapshot. */
  predicate Settled(s: State) {
    && (forall i :: i in s.openers ==> !Starting(s.openers[i]))
    && (forall i :: i in s.closers ==> !Past(s.closers[i]))
  }

  // Nothing of a session lies in the past before its loop is started.
  predicate Unstarted(s: State, past: seq<Step>) {
    s.session !in s.cancelled && CleanEnd(s.session) !in past && LoopOf(s.session, LDone) !in past
  }

  // Cancelled contexts, clean ends and departures, `past` being the steps so far.
  ghost predicate HistoryOk(s: State, past: seq<Step>) {
    && (forall n :: n in s.cancelled ==> n <= s.session)
    && (forall n: nat :: CleanEnd(n) in past || LoopOf(n, LDone) in past ==> n <= s.session)
    && (forall i :: i in s.openers && Starting(s.openers[i]) ==> Unstarted(s, past))
    && (CleanEnd(s.session) in past ==> !Staying(s))
    && (s.session in s.loops ==> LoopOf(s.session, LDone) !in past)
    && (s.state == OPEN && Settled(s) ==> OpenOk(s, past))
  }

  ghost predicate OpenOk(s: State, past: seq<Step>) {
    && (Staying(s) <==> CleanEnd(s.session) !in past)
    && (s.session in s.loops <==> LoopOf(s.session, LDone) !in past)
    && (s.session in s.cancelled <==> s.session !in s.loops || s.loops[s.session] == Leaving)
  }

  lemma OpenSettles(s: State, id: nat, o: OpenStep)
    requires ApplyOpen(s, id, o).Some? && Settled(ApplyOpen(s, id, o).value)
    ensures Settled(s) || o.OLaunch? || o.ODriverFails?
  {
    var t := ApplyOpen(s, id, o).value;
    forall i | i in s.openers && !o.OLaunch? && !o.ODriverFails?
      ensures !Starting(s.openers[i])
    {
      assert i in t.openers || o.OReject?;
    }
  }

  lemma CloseSettles(s: State, id: nat, c: CloseStep)
    requires ApplyClose(s, id, c).Some? && Settled(ApplyClose(s, id, c).value)
    ensures Settled(s) || c.CFinish?
  {
    var t := ApplyClose(s, id, c).value;
    forall i | i in s.closers && !c.CFinish?
      ensures !Past(s.closers[i])
    {
      assert i in t.closers || c.CSnapshot?;
    }
  }

  lemma OpenKeepsOpenOk(s: State, id: nat, o: OpenStep, past: seq<Step>)
    requires Inv(s) && HistoryOk(s, past) && ApplyOpen(s, id, o).Some?
    requires var t := ApplyOpen(s, id, o).value; t.state == OPEN && Settled(t)
    ensures OpenOk(ApplyOpen(s, id, o).value, past + [OpenBy(id, o)])
  {
    OpenSettles(s, id, o);
  }

  lemma OpenKeepsHistory(s: State, id: nat, o: OpenStep, past: seq<Step>)
    requires Inv(s) && HistoryOk(s, past) && ApplyOpen(s, id, o).Some?
    ensures HistoryOk(ApplyOpen(s, id, o).value, past + [OpenBy(id, o)])
  {
    var t := ApplyOpen(s, id, o).value;
    if t.state == OPEN && Settled(t) {
      OpenKeepsOpenOk(s, id, o, past);
    }
  }

  lemma CloseKeepsHistory(s: State, id: nat, c: CloseStep, past: seq<Step>)
    requires Inv(s) && HistoryOk(s, past) && ApplyClose(s, id, c).Some?
    ensures HistoryOk(ApplyClose(s, id, c).value, past + [CloseBy(id, c)])
  {
    var t := ApplyClose(s, id, c).value;
    if t.state == OPEN && Settled(t) {
      CloseSettles(s, id, c);
      assert c.CSnapshot? && s.state == OPEN ==> Past(t.closers[id]);
    }
  }

  lemma ViewKeepsHistory(s: State, id: nat, v: ViewStep, past: seq<Step>)
    requires HistoryOk(s, past) && ApplyView(s, id, v).Some?
    ensures HistoryOk(ApplyView(s, id, v).value, past + [ViewBy(id, v)])
  {
  }

  lemma LoopKeepsOpenOk(s: State, n: nat, l: LoopStep, past: seq<Step>)
    requires SessionOk(s) && ApplyLoop(s, n, l).Some? && OpenOk(s, past) && !l.LWriteError?
    requires CleanEnd(s.session) in past ==> !Staying(s)
    ensures OpenOk(ApplyLoop(s, n, l).value, past + [LoopOf(n, l)])
  {
  }

  lemma NoneStarting(s: State, n: nat, l: LoopStep)
    requires Inv(s) && ApplyLoop(s, n, l).Some?
    ensures forall i :: i in s.openers ==> !Starting(s.openers[i])
  {
    forall i | i in s.openers
      ensures !Starting(s.openers[i])
    {
      assert OpenerOk(s, s.openers[i]);
    }
  }

  lemma LoopKeepsHistory(s: State, n: nat, l: LoopStep, past: seq<Step>)
    requires Inv(s) && HistoryOk(s, past) && ApplyLoop(s, n, l).Some?
    ensures HistoryOk(ApplyLoop(s, n, l).value, past + [LoopOf(n, l)])
  {
    var t := ApplyLoop(s, n, l).value;
    assert t.openers == s.openers && t.closers == s.closers && t.session == s.session == n;
    NoneStarting(s, n, l);
    if t.state == OPEN && Settled(t) {
      assert s.state == OPEN && Settled(s);
      LoopKeepsOpenOk(s, n, l, past);
    }
  }

  lemma {:induction false} RunKeepsHistory(s: State, past: seq<Step>, steps: seq<Step>)
    requires Inv(s) && HistoryOk(s, past) && Run(s, steps).Some? && NeverTwoClosers(s, steps)
    ensures HistoryOk(Run(s, steps).value, past + steps)
    decreases |steps|
  {
    if steps == [] {
      assert past + steps == past;
    } else {
      var step, u := steps[0], Apply(s, steps[0]).value;
      match step {
        case OpenBy(id, o) => OpenKeepsHistory(s, id, o, past);
        case CloseBy(id, c) => CloseKeepsHistory(s, id, c, past);
        case ViewBy(id, v) => ViewKeepsHistory(s, id, v, past);
        case LoopOf(n, l) => LoopKeepsHistory(s, n, l, past);
      }
      StepKeepsInv(s, step);
      RunKeepsHistory(u, past + [step], steps[1..]);
      assert (past + [step]) + steps[1..] == past + steps;
    }
  }

  /**
   * A camera that is OPEN between opens and closes has a running loop exactly if the source of its session has not
   * ended without an error; the loop is gone once it has left after such an end, and its watchers are released
   * exactly when it is about to leave or gone.
   */
  lemma OpenMeansRunningIff(steps: seq<Step>, s: State)
    requires Run(INIT, steps) == Some(s) && NeverTwoClosers(INIT, steps)
    requires s.state == OPEN && Settled(s)
    ensures Staying(s) <==> CleanEnd(s.session) !in steps
    ensures s.session in s.loops <==> !(CleanEnd(s.session) in steps && LoopOf(s.session, LDone) in steps)
    ensures s.session in s.cancelled <==> s.session !in s.loops || s.loops[s.session] == Leaving
  {
    RunKeepsHistory(INIT, [], steps);
    assert [] + steps == steps;
  }

  /** Without a close() past its lock no two of them overlap. */
  lemma {:induction false} NoCloseNoOverlap(s: State, steps: seq<Step>)
    requires s.closers == map[] && forall step :: step in steps ==> !step.CloseBy?
    requires Run(s, steps).Some?
    ensures NeverTwoClosers(s, steps)
    decreases |steps|
  {
    if steps != [] {
      OnlyCloseMovesClosers(s, steps[0]);
      assert forall later :: later in steps[1..] ==> later in steps;
      NoCloseNoOverlap(Apply(s, steps[0]).value, steps[1..]);
    }
  }
}
