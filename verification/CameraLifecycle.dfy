/** Opening, capturing on and closing one camera, as a step machine over every interleaving of its goroutines. */
module CameraLifecycle {
  import opened Sequences

  datatype CamState = CLOSED | OPEN | ERROR

  /** Who holds the camera's mutex. */
  datatype Who = Opener(id: nat) | Closer(id: nat) | Viewer(id: nat) | Loop(session: nat)

  /** OpenCamera: it holds the mutex everywhere but in WantsLock. */
  datatype OpenerPc = OWantsLock | OChecking | OpeningDriver(session: nat) | Opened(session: nat) | Seeded(session: nat)

  /** close(): snapshot under the mutex, close the reader, wait for the loop, finish under the mutex. */
  datatype CloserPc =
    | CWantsLock | Snapshotting | ClosingReader(reader: Option<nat>)
    | Waiting | WantsLockAgain | Finishing

  /** loadFrame: read the state under the mutex, then load the latest frame without it. */
  datatype ViewerPc = VWantsLock | ReadingState | Loading(observed: nat)

  /** captureLoop; Failing and WritingError lead to the ERROR write, Cancelling and Leaving are its deferred calls. */
  datatype LoopPc = Selecting | Received | Injected | Failing | WritingError | Cancelling | Leaving

  /** A frame handed to a viewer: the session it saw open, the frame's session, and the session at that moment. */
  datatype View = View(observed: nat, frame: nat, current: nat)

  /**
   * Sessions are numbered by successive capture contexts. `lastFrame` and `paramSets` carry the session they were
   * written in; `liveReaders` are the readers the driver opened that nobody has closed.
   */
  datatype State = State(
    mu: Option<Who>,
    state: CamState,
    session: nat,
    cancelled: set<nat>,
    reader: Option<nat>,
    liveReaders: set<nat>,
    wg: nat,
    lastFrame: Option<nat>,
    paramSets: Option<nat>,
    loops: map<nat, LoopPc>,
    openers: map<nat, OpenerPc>,
    closers: map<nat, CloserPc>,
    viewers: map<nat, ViewerPc>,
    views: seq<View>)

  const INIT: State := State(None, CLOSED, 0, {}, None, {}, 0, None, None, map[], map[], map[], map[], [])

  datatype OpenStep = OStart | OLock | OReject | OBegin | ODriverFails | ODriverOk | OSeed(store: bool) | OLaunch
  datatype CloseStep = CStart | CLock | CSnapshot | CReader | CWait | CLockAgain | CFinish
  datatype ViewStep = VStart | VLock | VState | VLoad
  datatype LoopStep =
    | LCancelled | LFrame | LInject(store: bool) | LStore | LSourceEnds(failed: bool)
    | LPanic | LLock | LWriteError | LCancel | LDone

  /** One step of one call, or of the loop of session `n`. */
  datatype Step =
    | OpenBy(id: nat, o: OpenStep)
    | CloseBy(id: nat, c: CloseStep)
    | ViewBy(id: nat, v: ViewStep)
    | LoopOf(n: nat, l: LoopStep)

  // ------------------------------------------------------------------
  // OpenCamera
  // ------------------------------------------------------------------

  function ApplyOpen(s: State, id: nat, o: OpenStep): Option<State> {
    match o
    case OStart =>
      if id in s.openers then None else Some(s.(openers := s.openers[id := OWantsLock]))
    case OLock =>
      if id in s.openers && s.openers[id] == OWantsLock && s.mu.None? then
        Some(s.(mu := Some(Opener(id)), openers := s.openers[id := OChecking]))
      else None
    case OReject => // already open, in ERROR, or an unsupported mode was asked for
      if id in s.openers && s.openers[id] == OChecking then
        Some(s.(mu := None, openers := s.openers - {id}))
      else None
    case OBegin =>
      if id in s.openers && s.openers[id] == OChecking && s.state == CLOSED then
        Some(s.(session := s.session + 1, openers := s.openers[id := OpeningDriver(s.session + 1)]))
      else None
    case ODriverFails =>
      if id in s.openers && s.openers[id].OpeningDriver? then
        Some(s.(mu := None, state := ERROR, cancelled := s.cancelled + {s.openers[id].session},
                openers := s.openers - {id}))
      else None
    case ODriverOk =>
      if id in s.openers && s.openers[id].OpeningDriver? then
        var n := s.openers[id].session;
        Some(s.(state := OPEN, reader := Some(n), liveReaders := s.liveReaders + {n},
                openers := s.openers[id := Opened(n)]))
      else None
    case OSeed(store) =>
      if id in s.openers && s.openers[id].Opened? then
        var n := s.openers[id].session;
        Some(s.(paramSets := if store then Some(n) else s.paramSets, openers := s.openers[id := Seeded(n)]))
      else None
    case OLaunch =>
      if id in s.openers && s.openers[id].Seeded? then
        Some(s.(mu := None, wg := s.wg + 1, loops := s.loops[s.openers[id].session := Selecting],
                openers := s.openers - {id}))
      else None
  }

  // ------------------------------------------------------------------
  // close
  // ------------------------------------------------------------------

  function ApplyClose(s: State, id: nat, c: CloseStep): Option<State> {
    match c
    case CStart =>
      if id in s.closers then None else Some(s.(closers := s.closers[id := CWantsLock]))
    case CLock =>
      if id in s.closers && s.closers[id] == CWantsLock && s.mu.None? then
        Some(s.(mu := Some(Closer(id)), closers := s.closers[id := Snapshotting]))
      else None
    case CSnapshot =>
      if id in s.closers && s.closers[id] == Snapshotting then
        if s.state == CLOSED then Some(s.(mu := None, closers := s.closers - {id}))
        else
          Some(s.(mu := None, cancelled := s.cancelled + {s.session}, reader := None,
                  closers := s.closers[id := ClosingReader(s.reader)]))
      else None
    case CReader =>
      if id in s.closers && s.closers[id].ClosingReader? then
        var r := s.closers[id].reader;
        Some(s.(liveReaders := s.liveReaders - (if r.Some? then {r.value} else {}),
                closers := s.closers[id := Waiting]))
      else None
    case CWait =>
      if id in s.closers && s.closers[id] == Waiting && s.wg == 0 then
        Some(s.(closers := s.closers[id := WantsLockAgain]))
      else None
    case CLockAgain =>
      if id in s.closers && s.closers[id] == WantsLockAgain && s.mu.None? then
        Some(s.(mu := Some(Closer(id)), closers := s.closers[id := Finishing]))
      else None
    case CFinish =>
      if id in s.closers && s.closers[id] == Finishing then
        Some(s.(mu := None, state := CLOSED, lastFrame := None, paramSets := None, closers := s.closers - {id}))
      else None
  }

  // ------------------------------------------------------------------
  // loadFrame
  // ------------------------------------------------------------------

  function ApplyView(s: State, id: nat, v: ViewStep): Option<State> {
    match v
    case VStart =>
      if id in s.viewers then None else Some(s.(viewers := s.viewers[id := VWantsLock]))
    case VLock =>
      if id in s.viewers && s.viewers[id] == VWantsLock && s.mu.None? then
        Some(s.(mu := Some(Viewer(id)), viewers := s.viewers[id := ReadingState]))
      else None
    case VState =>
      if id in s.viewers && s.viewers[id] == ReadingState then
        Some(s.(mu := None,
                viewers := if s.state == OPEN then s.viewers[id := Loading(s.session)] else s.viewers - {id}))
      else None
    case VLoad =>
      if id in s.viewers && s.viewers[id].Loading? then
        Some(s.(viewers := s.viewers - {id},
                views := if s.lastFrame.Some?
                         then s.views + [View(s.viewers[id].observed, s.lastFrame.value, s.session)] else s.views))
      else None
  }

  // ------------------------------------------------------------------
  // captureLoop
  // ------------------------------------------------------------------

  function GoTo(s: State, n: nat, pc: LoopPc): State {
    s.(loops := s.loops[n := pc])
  }

  predicate At(s: State, n: nat, pc: LoopPc) {
    n in s.loops && s.loops[n] == pc
  }

  function ApplyLoop(s: State, n: nat, l: LoopStep): Option<State> {
    match l
    case LCancelled => if At(s, n, Selecting) && n in s.cancelled then Some(GoTo(s, n, Cancelling)) else None
    case LFrame => if At(s, n, Selecting) then Some(GoTo(s, n, Received)) else None
    case LInject(store) =>
      if At(s, n, Received) then
        Some(GoTo(s, n, Injected).(paramSets := if store then Some(n) else s.paramSets))
      else None
    case LStore => if At(s, n, Injected) then Some(GoTo(s, n, Selecting).(lastFrame := Some(n))) else None
    case LSourceEnds(failed) =>
      if At(s, n, Selecting) then Some(GoTo(s, n, if failed then Failing else Cancelling)) else None
    case LPanic =>
      if At(s, n, Selecting) || At(s, n, Received) || At(s, n, Injected) then Some(GoTo(s, n, Failing)) else None
    case LLock =>
      if At(s, n, Failing) && s.mu.None? then Some(GoTo(s, n, WritingError).(mu := Some(Loop(n)))) else None
    case LWriteError =>
      if At(s, n, WritingError) then Some(GoTo(s, n, Cancelling).(mu := None, state := ERROR)) else None
    case LCancel =>
      if At(s, n, Cancelling) then Some(GoTo(s, n, Leaving).(cancelled := s.cancelled + {n})) else None
    case LDone =>
      if At(s, n, Leaving) && s.wg > 0 then Some(s.(wg := s.wg - 1, loops := s.loops - {n})) else None
  }

  /** The state after `step`, or None when it is not enabled. */
  function Apply(s: State, step: Step): Option<State> {
    match step
    case OpenBy(id, o) => ApplyOpen(s, id, o)
    case CloseBy(id, c) => ApplyClose(s, id, c)
    case ViewBy(id, v) => ApplyView(s, id, v)
    case LoopOf(n, l) => ApplyLoop(s, n, l)
  }

  /** The state after a whole schedule of enabled steps. */
  function Run(s: State, steps: seq<Step>): Option<State>
    decreases |steps|
  {
    if steps == [] then Some(s)
    else
      match Apply(s, steps[0])
      case None => None
      case Some(t) => Run(t, steps[1..])
  }

  /** A close() between its snapshot and its end. */
  predicate Past(pc: CloserPc) {
    !pc.CWantsLock? && !pc.Snapshotting?
  }

  predicate OneCloser(s: State) {
    forall i, j :: i in s.closers && j in s.closers && Past(s.closers[i]) && Past(s.closers[j]) ==> i == j
  }

  /** No state of the schedule has two close() calls between snapshot and end. */
  predicate NeverTwoClosers(s: State, steps: seq<Step>)
    decreases |steps|
  {
    OneCloser(s) && (steps != [] && Apply(s, steps[0]).Some? ==> NeverTwoClosers(Apply(s, steps[0]).value, steps[1..]))
  }

  // ------------------------------------------------------------------
  // The invariant
  // ------------------------------------------------------------------

  /** Exactly the holder is at a program point inside the mutex. */
  ghost predicate MutexOk(s: State) {
    && (forall i :: i in s.openers ==> (s.openers[i] != OWantsLock <==> s.mu == Some(Opener(i))))
    && (forall i :: i in s.closers ==>
        (s.closers[i] == Snapshotting || s.closers[i] == Finishing <==> s.mu == Some(Closer(i))))
    && (forall i :: i in s.viewers ==> (s.viewers[i] == ReadingState <==> s.mu == Some(Viewer(i))))
    && (forall n :: n in s.loops ==> (s.loops[n] == WritingError <==> s.mu == Some(Loop(n))))
    && (s.mu.Some? ==>
          match s.mu.value
          case Opener(i) => i in s.openers
          case Closer(i) => i in s.closers
          case Viewer(i) => i in s.viewers
          case Loop(n) => n in s.loops)
  }

  /** Everything alive belongs to the current session. */
  ghost predicate SessionOk(s: State) {
    && (forall n :: n in s.loops ==> n == s.session)
    && s.wg == (if s.session in s.loops then 1 else 0)
    && s.liveReaders <= {s.session}
    && (s.reader.Some? ==> s.reader.value == s.session && s.session in s.liveReaders)
    && (s.lastFrame.Some? ==> s.lastFrame.value == s.session)
    && (s.paramSets.Some? ==> s.paramSets.value == s.session)
  }

  /** Nothing of any session is left. */
  predicate Quiet(s: State) {
    s.loops == map[] && s.reader.None? && s.liveReaders == {} && s.lastFrame.None? && s.paramSets.None?
  }

  ghost predicate OpenerOk(s: State, pc: OpenerPc) {
    match pc
    case OpeningDriver(n) => n == s.session && s.state == CLOSED
    case Opened(n) => n == s.session && s.state == OPEN && s.reader == Some(n) && s.loops == map[]
    case Seeded(n) => n == s.session && s.state == OPEN && s.reader == Some(n) && s.loops == map[]
    case _ => true
  }

  ghost predicate CloserOk(s: State, pc: CloserPc) {
    Past(pc) ==>
      && s.state != CLOSED && s.reader.None?
      && s.session in s.cancelled
      && (pc.ClosingReader? && pc.reader.None? ==> s.liveReaders == {})
      && (pc.ClosingReader? && pc.reader.Some? ==> pc.reader.value == s.session)
      && (!pc.ClosingReader? ==> s.liveReaders == {})
      && (pc == WantsLockAgain || pc == Finishing ==> s.loops == map[])
  }

  predicate Launching(pc: OpenerPc, n: nat) {
    pc == OpeningDriver(n) || pc == Opened(n) || pc == Seeded(n)
  }

  /** A started session still runs, is being opened, or has its context cancelled, so that its watchers return. */
  ghost predicate Unblocked(s: State, n: nat) {
    || n in s.loops
    || n in s.cancelled
    || exists i :: i in s.openers && Launching(s.openers[i], n)
  }

  /** Opens and closes in progress agree with the camera's fields. */
  ghost predicate CoreOk(s: State) {
    && SessionOk(s)
    && (s.state == CLOSED ==> Quiet(s))
    && (s.liveReaders != {} && s.reader.None? ==> exists i :: i in s.closers && s.closers[i].ClosingReader?)
    && (forall i :: i in s.openers ==> OpenerOk(s, s.openers[i]))
    && (forall i :: i in s.closers ==> CloserOk(s, s.closers[i]))
  }

  ghost predicate ViewsOk(s: State) {
    && (forall i :: i in s.viewers && s.viewers[i].Loading? ==> s.viewers[i].observed <= s.session)
    && (forall v :: v in s.views ==> v.observed <= v.frame == v.current)
  }

  /** A loop cancels its context before it leaves. */
  ghost predicate LeavingOk(s: State) {
    forall n :: n in s.loops && s.loops[n] == Leaving ==> n in s.cancelled
  }

  ghost predicate Inv(s: State) {
    && MutexOk(s)
    && LeavingOk(s)
    && CoreOk(s)
    && ViewsOk(s)
    && (forall n :: 1 <= n <= s.session ==> Unblocked(s, n))
  }

  lemma OpenKeepsMutex(s: State, id: nat, o: OpenStep)
    requires MutexOk(s) && ApplyOpen(s, id, o).Some?
    ensures MutexOk(ApplyOpen(s, id, o).value)
  {
  }

  lemma OpenPausesKeepCore(s: State, id: nat, o: OpenStep)
    requires MutexOk(s) && CoreOk(s) && ApplyOpen(s, id, o).Some? && (o.OStart? || o.OLock? || o.OReject? || o.OSeed?)
    ensures CoreOk(ApplyOpen(s, id, o).value)
  {
  }

  lemma OpenDriverKeepsCore(s: State, id: nat, o: OpenStep)
    requires MutexOk(s) && CoreOk(s) && ApplyOpen(s, id, o).Some? && (o.ODriverFails? || o.ODriverOk?)
    ensures CoreOk(ApplyOpen(s, id, o).value)
  {
  }

  lemma OpenEndsKeepCore(s: State, id: nat, o: OpenStep)
    requires MutexOk(s) && CoreOk(s) && ApplyOpen(s, id, o).Some? && (o.OBegin? || o.OLaunch?)
    ensures CoreOk(ApplyOpen(s, id, o).value)
  {
  }

  lemma OpenKeepsCore(s: State, id: nat, o: OpenStep)
    requires MutexOk(s) && CoreOk(s) && ApplyOpen(s, id, o).Some?
    ensures CoreOk(ApplyOpen(s, id, o).value)
  {
    if o.ODriverFails? || o.ODriverOk? {
      OpenDriverKeepsCore(s, id, o);
    } else if o.OBegin? || o.OLaunch? {
      OpenEndsKeepCore(s, id, o);
    } else {
      OpenPausesKeepCore(s, id, o);
    }
  }

  lemma OpenKeepsUnblocked(s: State, id: nat, o: OpenStep, n: nat)
    requires MutexOk(s) && CoreOk(s) && ApplyOpen(s, id, o).Some?
    requires 1 <= n <= ApplyOpen(s, id, o).value.session
    requires n <= s.session ==> Unblocked(s, n)
    ensures Unblocked(ApplyOpen(s, id, o).value, n)
  {
    var t := ApplyOpen(s, id, o).value;
    if n > s.session {
      assert Launching(t.openers[id], n);
    } else if i: nat :| i in s.openers && Launching(s.openers[i], n) {
      if i in t.openers {
        assert Launching(t.openers[i], n) || i == id;
      }
    }
  }

  lemma CloseKeepsMutex(s: State, id: nat, c: CloseStep)
    requires MutexOk(s) && ApplyClose(s, id, c).Some?
    ensures MutexOk(ApplyClose(s, id, c).value)
  {
  }

  // The snapshot takes the reader along; with no other close() under way there is none left behind.
  lemma SnapshotKeepsCore(s: State, id: nat)
    requires MutexOk(s) && CoreOk(s) && ApplyClose(s, id, CSnapshot).Some?
    requires OneCloser(ApplyClose(s, id, CSnapshot).value)
    ensures CoreOk(ApplyClose(s, id, CSnapshot).value)
  {
    var t := ApplyClose(s, id, CSnapshot).value;
    if s.state != CLOSED {
      assert Past(t.closers[id]);
      forall i | i in s.closers && s.closers[i].ClosingReader?
        ensures i == id
      {
        assert t.closers[i] == s.closers[i] || i == id;
      }
      assert t.closers[id].ClosingReader?;
    } else {
      forall i | i in t.closers
        ensures CloserOk(t, t.closers[i])
      {
        assert CloserOk(s, s.closers[i]);
      }
    }
  }

  // Once its reader is closed, a close() leaves none alive.
  lemma ReaderCloseKeepsCore(s: State, id: nat)
    requires MutexOk(s) && CoreOk(s) && ApplyClose(s, id, CReader).Some? && OneCloser(s)
    ensures CoreOk(ApplyClose(s, id, CReader).value)
  {
    var t := ApplyClose(s, id, CReader).value;
    assert CloserOk(s, s.closers[id]);
    assert t.liveReaders == {};
  }

  lemma CloseWaitsKeepCore(s: State, id: nat, c: CloseStep)
    requires MutexOk(s) && CoreOk(s) && ApplyClose(s, id, c).Some? && OneCloser(s) && !c.CSnapshot? && !c.CReader?
    ensures CoreOk(ApplyClose(s, id, c).value)
  {
    var t := ApplyClose(s, id, c).value;
    assert CloserOk(s, if c.CStart? then CWantsLock else s.closers[id]);
    forall i | i in s.closers && s.closers[i].ClosingReader?
      ensures i in t.closers && t.closers[i].ClosingReader?
    {
    }
  }

  lemma CloseKeepsCore(s: State, id: nat, c: CloseStep)
    requires MutexOk(s) && CoreOk(s) && ApplyClose(s, id, c).Some? && OneCloser(s)
        && OneCloser(ApplyClose(s, id, c).value)
    ensures CoreOk(ApplyClose(s, id, c).value)
  {
    if c.CSnapshot? {
      SnapshotKeepsCore(s, id);
    } else if c.CReader? {
      ReaderCloseKeepsCore(s, id);
    } else {
      CloseWaitsKeepCore(s, id, c);
    }
  }

  lemma ViewKeepsMutex(s: State, id: nat, v: ViewStep)
    requires MutexOk(s) && ApplyView(s, id, v).Some?
    ensures MutexOk(ApplyView(s, id, v).value)
  {
  }

  lemma LoopLockKeepsMutex(s: State, n: nat, l: LoopStep)
    requires MutexOk(s) && ApplyLoop(s, n, l).Some? && (l.LLock? || l.LWriteError?)
    ensures MutexOk(ApplyLoop(s, n, l).value)
  {
  }

  lemma LoopMoveKeepsMutex(s: State, n: nat, l: LoopStep)
    requires MutexOk(s) && ApplyLoop(s, n, l).Some? && !l.LLock? && !l.LWriteError?
    ensures MutexOk(ApplyLoop(s, n, l).value)
  {
  }

  lemma LoopKeepsMutex(s: State, n: nat, l: LoopStep)
    requires MutexOk(s) && ApplyLoop(s, n, l).Some?
    ensures MutexOk(ApplyLoop(s, n, l).value)
  {
    if l.LLock? || l.LWriteError? {
      LoopLockKeepsMutex(s, n, l);
    } else {
      LoopMoveKeepsMutex(s, n, l);
    }
  }

  // Steps that only move the loop along.
  lemma LoopMoveKeepsCore(s: State, n: nat, l: LoopStep)
    requires MutexOk(s) && CoreOk(s) && ApplyLoop(s, n, l).Some?
    requires !l.LInject? && !l.LStore? && !l.LWriteError? && !l.LDone?
    ensures CoreOk(ApplyLoop(s, n, l).value)
  {
  }

  lemma LoopDataKeepsCore(s: State, n: nat, l: LoopStep)
    requires MutexOk(s) && CoreOk(s) && ApplyLoop(s, n, l).Some? && (l.LInject? || l.LStore?)
    ensures CoreOk(ApplyLoop(s, n, l).value)
  {
  }

  lemma LoopEndKeepsCore(s: State, n: nat, l: LoopStep)
    requires MutexOk(s) && CoreOk(s) && ApplyLoop(s, n, l).Some? && (l.LWriteError? || l.LDone?)
    ensures CoreOk(ApplyLoop(s, n, l).value)
  {
  }

  lemma LoopKeepsCore(s: State, n: nat, l: LoopStep)
    requires MutexOk(s) && CoreOk(s) && ApplyLoop(s, n, l).Some?
    ensures CoreOk(ApplyLoop(s, n, l).value)
  {
    if l.LInject? || l.LStore? {
      LoopDataKeepsCore(s, n, l);
    } else if l.LWriteError? || l.LDone? {
      LoopEndKeepsCore(s, n, l);
    } else {
      LoopMoveKeepsCore(s, n, l);
    }
  }

  lemma ViewKeepsCore(s: State, id: nat, v: ViewStep)
    requires CoreOk(s) && ApplyView(s, id, v).Some?
    ensures CoreOk(ApplyView(s, id, v).value)
  {
    var t := ApplyView(s, id, v).value;
    forall i | i in t.openers
      ensures OpenerOk(t, t.openers[i])
    {
      assert OpenerOk(s, s.openers[i]);
    }
    forall i | i in t.closers
      ensures CloserOk(t, t.closers[i])
    {
      assert CloserOk(s, s.closers[i]);
    }
  }

  lemma OpenKeepsRest(s: State, id: nat, o: OpenStep)
    requires Inv(s) && ApplyOpen(s, id, o).Some?
    ensures ViewsOk(ApplyOpen(s, id, o).value) && LeavingOk(ApplyOpen(s, id, o).value)
    ensures forall n :: 1 <= n <= ApplyOpen(s, id, o).value.session ==> Unblocked(ApplyOpen(s, id, o).value, n)
  {
    forall n | 1 <= n <= ApplyOpen(s, id, o).value.session
      ensures Unblocked(ApplyOpen(s, id, o).value, n)
    {
      OpenKeepsUnblocked(s, id, o, n);
    }
  }

  // Steps of the others leave the opens in progress alone and take no loop away before its context is cancelled.
  lemma UnblockedKept(s: State, t: State)
    requires Inv(s) && t.session == s.session && t.openers == s.openers && s.cancelled <= t.cancelled
    requires forall n :: n in s.loops ==> n in t.loops || n in s.cancelled
    ensures forall n :: 1 <= n <= t.session ==> Unblocked(t, n)
  {
    forall n | 1 <= n <= t.session
      ensures Unblocked(t, n)
    {
      assert Unblocked(s, n);
      if n !in s.loops && n !in s.cancelled {
        var i: nat :| i in s.openers && Launching(s.openers[i], n);
        assert Launching(t.openers[i], n);
      }
    }
  }

  lemma CloseKeepsRest(s: State, id: nat, c: CloseStep)
    requires Inv(s) && ApplyClose(s, id, c).Some?
    ensures ViewsOk(ApplyClose(s, id, c).value) && LeavingOk(ApplyClose(s, id, c).value)
    ensures forall n :: 1 <= n <= ApplyClose(s, id, c).value.session ==> Unblocked(ApplyClose(s, id, c).value, n)
  {
    UnblockedKept(s, ApplyClose(s, id, c).value);
  }

  lemma ViewKeepsRest(s: State, id: nat, v: ViewStep)
    requires Inv(s) && ApplyView(s, id, v).Some?
    ensures ViewsOk(ApplyView(s, id, v).value) && LeavingOk(ApplyView(s, id, v).value)
    ensures forall n :: 1 <= n <= ApplyView(s, id, v).value.session ==> Unblocked(ApplyView(s, id, v).value, n)
  {
    UnblockedKept(s, ApplyView(s, id, v).value);
  }

  lemma LoopKeepsRest(s: State, n: nat, l: LoopStep)
    requires Inv(s) && ApplyLoop(s, n, l).Some?
    ensures ViewsOk(ApplyLoop(s, n, l).value) && LeavingOk(ApplyLoop(s, n, l).value)
    ensures forall m :: 1 <= m <= ApplyLoop(s, n, l).value.session ==> Unblocked(ApplyLoop(s, n, l).value, m)
  {
    UnblockedKept(s, ApplyLoop(s, n, l).value);
  }

  lemma StepKeepsInv(s: State, step: Step)
    requires Inv(s) && Apply(s, step).Some? && OneCloser(s) && OneCloser(Apply(s, step).value)
    ensures Inv(Apply(s, step).value)
  {
    match step
    case OpenBy(id, o) =>
      OpenKeepsMutex(s, id, o);
      OpenKeepsCore(s, id, o);
      OpenKeepsRest(s, id, o);
    case CloseBy(id, c) =>
      CloseKeepsMutex(s, id, c);
      CloseKeepsCore(s, id, c);
      CloseKeepsRest(s, id, c);
    case ViewBy(id, v) =>
      ViewKeepsMutex(s, id, v);
      ViewKeepsCore(s, id, v);
      ViewKeepsRest(s, id, v);
    case LoopOf(n, l) =>
      LoopKeepsMutex(s, n, l);
      LoopKeepsCore(s, n, l);
      LoopKeepsRest(s, n, l);
  }

  /** The invariant holds after every schedule in which close() calls do not overlap past their snapshot. */
  lemma {:induction false} RunKeepsInv(s: State, steps: seq<Step>)
    requires Inv(s) && Run(s, steps).Some? && NeverTwoClosers(s, steps)
    ensures Inv(Run(s, steps).value)
    decreases |steps|
  {
    if steps != [] {
      StepKeepsInv(s, steps[0]);
      RunKeepsInv(Apply(s, steps[0]).value, steps[1..]);
    }
  }

  // ------------------------------------------------------------------
  // Safety
  // ------------------------------------------------------------------

  /**
   * Whatever the interleaving: there is never a second reader or loop; a CLOSED camera has no loop, reader, frame or
   * parameter sets; no frame and no parameter sets outlive their session; and a session whose loop is gone has its
   * context cancelled.
   */
  lemma Safety(steps: seq<Step>)
    requires Run(INIT, steps).Some? && NeverTwoClosers(INIT, steps)
    ensures var s := Run(INIT, steps).value;
            && |s.liveReaders| <= 1 && s.wg == |s.loops| <= 1
            && (s.state == CLOSED ==> Quiet(s))
            && (s.lastFrame.Some? ==> s.lastFrame.value == s.session)
            && (s.paramSets.Some? ==> s.paramSets.value == s.session)
            && (forall n :: 1 <= n <= s.session ==> Unblocked(s, n))
            && (forall v :: v in s.views ==> v.observed <= v.frame == v.current)
  {
    RunKeepsInv(INIT, steps);
    var s := Run(INIT, steps).value;
    if s.session in s.liveReaders {
      assert s.liveReaders == {s.session};
    } else {
      assert s.liveReaders == {};
    }
    if s.session in s.loops {
      assert s.loops.Keys == {s.session};
      assert |s.loops| == |s.loops.Keys|;
    } else {
      assert s.loops == map[];
    }
  }
}
