/** What the camera's fields say about the steps that led there, and what viewers get from them. */
module CameraHistory {
  import opened Sequences
  import opened CameraLifecycle
  import opened CameraProgress
  import opened CameraSchedules

  // ------------------------------------------------------------------
  // The latest frame and the parameter sets
  // ------------------------------------------------------------------

  predicate Finishes(step: Step) {
    step.CloseBy? && step.c.CFinish?
  }

  /** The loop of session `n` has stored a frame, and no close() has finished since. */
  ghost predicate StoredSince(past: seq<Step>, n: nat) {
    exists i :: 0 <= i < |past| && past[i] == LoopOf(n, LStore) && forall j :: i < j < |past| ==> !Finishes(past[j])
  }

  /** Parameter sets were seeded or seen, and no close() has finished since. */
  ghost predicate CachedSince(past: seq<Step>) {
    exists i :: 0 <= i < |past| && Caches(past[i]) && forall j :: i < j < |past| ==> !Finishes(past[j])
  }

  predicate Caches(step: Step) {
    match step
    case OpenBy(_, OSeed(store)) => store
    case LoopOf(_, LInject(store)) => store
    case _ => false
  }

  lemma StoredSnoc(past: seq<Step>, step: Step, n: nat)
    ensures StoredSince(past + [step], n) <==> step == LoopOf(n, LStore) || (StoredSince(past, n) && !Finishes(step))
  {
    var all := past + [step];
    assert all[|past|] == step;
    if StoredSince(all, n) && step != LoopOf(n, LStore) {
      var i :| 0 <= i < |all| && all[i] == LoopOf(n, LStore) && forall j :: i < j < |all| ==> !Finishes(all[j]);
      assert past[i] == LoopOf(n, LStore) && forall j :: i < j < |past| ==> past[j] == all[j];
    }
    if StoredSince(past, n) && !Finishes(step) {
      var i :| 0 <= i < |past| && past[i] == LoopOf(n, LStore) && forall j :: i < j < |past| ==> !Finishes(past[j]);
      assert all[i] == LoopOf(n, LStore);
    }
  }

  lemma CachedSnoc(past: seq<Step>, step: Step)
    ensures CachedSince(past + [step]) <==> Caches(step) || (CachedSince(past) && !Finishes(step))
  {
    var all := past + [step];
    assert all[|past|] == step;
    if CachedSince(all) && !Caches(step) {
      var i :| 0 <= i < |all| && Caches(all[i]) && forall j :: i < j < |all| ==> !Finishes(all[j]);
      assert past[i] == all[i] && forall j :: i < j < |past| ==> past[j] == all[j];
    }
    if CachedSince(past) && !Finishes(step) {
      var i :| 0 <= i < |past| && Caches(past[i]) && forall j :: i < j < |past| ==> !Finishes(past[j]);
      assert all[i] == past[i];
    }
  }

  /** What the last step that wrote the camera's state left there. */
  function LastWritten(past: seq<Step>): CamState {
    if past == [] then CLOSED
    else
      match past[|past| - 1]
      case OpenBy(_, ODriverOk) => OPEN
      case OpenBy(_, ODriverFails) => ERROR
      case LoopOf(_, LWriteError) => ERROR
      case CloseBy(_, CFinish) => CLOSED
      case _ => LastWritten(past[..|past| - 1])
  }

  lemma {:induction false} RunWrites(s: State, past: seq<Step>, steps: seq<Step>)
    requires s.state == LastWritten(past) && Run(s, steps).Some?
    ensures Run(s, steps).value.state == LastWritten(past + steps)
    decreases |steps|
  {
    if steps == [] {
      assert past + steps == past;
    } else {
      StateIsWritten(s, steps[0], past);
      assert (past + [steps[0]]) + steps[1..] == past + steps;
      RunWrites(Apply(s, steps[0]).value, past + [steps[0]], steps[1..]);
    }
  }

  lemma OpenWrites(s: State, id: nat, o: OpenStep, t: State)
    requires ApplyOpen(s, id, o) == Some(t)
    ensures t.state == if o.ODriverOk? then OPEN else if o.ODriverFails? then ERROR else s.state
  {
  }

  lemma CloseWrites(s: State, id: nat, c: CloseStep, t: State)
    requires ApplyClose(s, id, c) == Some(t)
    ensures t.state == if c.CFinish? then CLOSED else s.state
  {
  }

  lemma LoopWrites(s: State, n: nat, l: LoopStep, t: State)
    requires ApplyLoop(s, n, l) == Some(t)
    ensures t.state == if l.LWriteError? then ERROR else s.state
  {
  }

  lemma StateIsWritten(s: State, step: Step, past: seq<Step>)
    requires Apply(s, step).Some? && s.state == LastWritten(past)
    ensures Apply(s, step).value.state == LastWritten(past + [step])
  {
    assert (past + [step])[..|past|] == past;
    var t := Apply(s, step).value;
    match step
    case OpenBy(id, o) => OpenWrites(s, id, o, t);
    case CloseBy(id, c) => CloseWrites(s, id, c, t);
    case ViewBy(id, v) => assert ApplyView(s, id, v) == Some(t);
    case LoopOf(n, l) => LoopWrites(s, n, l, t);
  }

  /** The latest frame and the parameter sets agree with the steps so far. */
  ghost predicate Tracks(session: nat, lastFrame: Option<nat>, paramSets: Option<nat>, past: seq<Step>) {
    && (lastFrame == Some(session) <==> StoredSince(past, session))
    && (forall n: nat :: StoredSince(past, n) ==> n <= session)
    && (paramSets.Some? <==> CachedSince(past))
  }

  lemma OpenFrames(s: State, id: nat, o: OpenStep, t: State)
    requires ApplyOpen(s, id, o) == Some(t) && (s.state == CLOSED ==> s.lastFrame.None?)
    ensures t.lastFrame == s.lastFrame
    ensures t.session == s.session || (t.session == s.session + 1 && t.lastFrame.None?)
  {
  }

  lemma CloseFrames(s: State, id: nat, c: CloseStep, t: State)
    requires ApplyClose(s, id, c) == Some(t)
    ensures t.session == s.session
    ensures if c.CFinish? then t.lastFrame.None? && t.paramSets.None? else t.lastFrame == s.lastFrame
  {
  }

  lemma LoopFrames(s: State, n: nat, l: LoopStep, t: State)
    requires ApplyLoop(s, n, l) == Some(t)
    ensures n in s.loops && t.session == s.session && t.lastFrame == if l.LStore? then Some(n) else s.lastFrame
  {
  }

  // What one step does to the latest frame.
  lemma FrameStep(s: State, step: Step, t: State)
    requires (forall n :: n in s.loops ==> n == s.session) && (s.state == CLOSED ==> s.lastFrame.None?)
    requires Apply(s, step) == Some(t)
    ensures step.LoopOf? && step.l.LStore? ==> step.n == s.session == t.session && t.lastFrame == Some(s.session)
    ensures Finishes(step) ==> t.session == s.session && t.lastFrame.None? && t.paramSets.None?
    ensures !(step.LoopOf? && step.l.LStore?) && !Finishes(step) ==> t.lastFrame == s.lastFrame
    ensures t.session != s.session ==> t.session == s.session + 1 && t.lastFrame.None?
  {
    match step
    case OpenBy(id, o) => OpenFrames(s, id, o, t);
    case CloseBy(id, c) => CloseFrames(s, id, c, t);
    case ViewBy(id, v) => assert ApplyView(s, id, v) == Some(t);
    case LoopOf(n, l) => LoopFrames(s, n, l, t);
  }

  lemma CacheStep(s: State, step: Step, t: State)
    requires Apply(s, step) == Some(t) && !Finishes(step)
    ensures t.paramSets.Some? <==> s.paramSets.Some? || Caches(step)
  {
    match step
    case OpenBy(id, o) => OpenCaches(s, id, o, t);
    case LoopOf(n, l) => LoopCaches(s, n, l, t);
    case CloseBy(id, c) => assert ApplyClose(s, id, c) == Some(t);
    case ViewBy(id, v) => assert ApplyView(s, id, v) == Some(t);
  }

  lemma OpenCaches(s: State, id: nat, o: OpenStep, t: State)
    requires ApplyOpen(s, id, o) == Some(t)
    ensures t.paramSets.Some? <==> s.paramSets.Some? || Caches(OpenBy(id, o))
  {
  }

  lemma LoopCaches(s: State, n: nat, l: LoopStep, t: State)
    requires ApplyLoop(s, n, l) == Some(t)
    ensures t.paramSets.Some? <==> s.paramSets.Some? || Caches(LoopOf(n, l))
  {
  }

  lemma StepTracks(s: State, step: Step, past: seq<Step>, t: State)
    requires Inv(s) && Apply(s, step) == Some(t) && Tracks(s.session, s.lastFrame, s.paramSets, past)
    ensures Tracks(t.session, t.lastFrame, t.paramSets, past + [step])
  {
    FrameStep(s, step, t);
    if !Finishes(step) {
      CacheStep(s, step, t);
    }
    Tracked(s, step, past, t);
  }

  // Tracks from what the step did alone.
  lemma Tracked(s: State, step: Step, past: seq<Step>, t: State)
    requires Tracks(s.session, s.lastFrame, s.paramSets, past)
    requires step.LoopOf? && step.l.LStore? ==> step.n == s.session == t.session && t.lastFrame == Some(s.session)
    requires Finishes(step) ==> t.session == s.session && t.lastFrame.None? && t.paramSets.None?
    requires !(step.LoopOf? && step.l.LStore?) && !Finishes(step) ==> t.lastFrame == s.lastFrame
    requires t.session != s.session ==> t.session == s.session + 1 && t.lastFrame.None?
    requires !Finishes(step) ==> (t.paramSets.Some? <==> s.paramSets.Some? || Caches(step))
    ensures Tracks(t.session, t.lastFrame, t.paramSets, past + [step])
  {
    CachedSnoc(past, step);
    StoredSnoc(past, step, t.session);
    forall n: nat | StoredSince(past + [step], n)
      ensures n <= t.session
    {
      StoredSnoc(past, step, n);
    }
  }

  lemma {:induction false} RunTracks(s: State, past: seq<Step>, steps: seq<Step>, t: State)
    requires Inv(s) && Run(s, steps) == Some(t) && NeverTwoClosers(s, steps)
    requires Tracks(s.session, s.lastFrame, s.paramSets, past)
    ensures Tracks(t.session, t.lastFrame, t.paramSets, past + steps)
    decreases |steps|
  {
    if steps == [] {
      assert past + steps == past;
    } else {
      var next := Apply(s, steps[0]).value;
      StepKeepsInv(s, steps[0]);
      StepTracks(s, steps[0], past, next);
      assert (past + [steps[0]]) + steps[1..] == past + steps;
      RunTracks(next, past + [steps[0]], steps[1..], t);
    }
  }

  /**
   * On every schedule the latest frame is there, and is of the current session, exactly if the loop of that session has
   * stored one and no close() has finished since; likewise for the parameter sets.
   */
  lemma FieldsTellHistory(steps: seq<Step>, s: State)
    requires Run(INIT, steps) == Some(s) && NeverTwoClosers(INIT, steps)
    ensures s.lastFrame == if StoredSince(steps, s.session) then Some(s.session) else None
    ensures s.paramSets == if CachedSince(steps) then Some(s.session) else None
  {
    RunTracks(INIT, [], steps, s);
    assert [] + steps == steps;
    RunKeepsInv(INIT, steps);
  }

  /** The state is the one written last, also when close() calls overlap. */
  lemma StateTellsHistory(steps: seq<Step>, s: State)
    requires Run(INIT, steps) == Some(s)
    ensures s.state == LastWritten(steps)
  {
    RunWrites(INIT, [], steps);
    assert [] + steps == steps;
  }

  /** A panic, wherever the loop works on a frame or waits for one, ends in ERROR; so does a source that fails. */
  lemma FailureEndsInError(s: State, n: nat, step: LoopStep)
    requires n in s.loops && s.mu.None?
    requires step == LPanic || step == LSourceEnds(true)
    requires s.loops[n] == Selecting || (step.LPanic? && (s.loops[n] == Received || s.loops[n] == Injected))
    ensures Run(s, [LoopOf(n, step), LoopOf(n, LLock), LoopOf(n, LWriteError)]) ==
            Some(s.(state := ERROR, loops := s.loops[n := Cancelling]))
  {
    var s1 := s.(loops := s.loops[n := Failing]);
    var s2 := s.(mu := Some(Loop(n)), loops := s.loops[n := WritingError]);
    var s3 := s.(state := ERROR, loops := s.loops[n := Cancelling]);
    assert s1.loops[n := WritingError] == s2.loops && s2.loops[n := Cancelling] == s3.loops;
    Chain3(s, [LoopOf(n, step), LoopOf(n, LLock), LoopOf(n, LWriteError)], s1, s2, s3);
  }

  // ------------------------------------------------------------------
  // Viewers
  // ------------------------------------------------------------------

  /** A viewer goes on to load a frame exactly if it finds the camera OPEN, and remembers the session. */
  lemma ViewerReads(s: State, id: nat)
    requires id in s.viewers && s.viewers[id] == ReadingState
    ensures Apply(s, ViewBy(id, VState)).Some?
    ensures var t := Apply(s, ViewBy(id, VState)).value;
            && t == s.(mu := None, viewers := t.viewers) && t.viewers - {id} == s.viewers - {id}
            && (s.state == OPEN ==> id in t.viewers && t.viewers[id] == Loading(s.session))
            && (s.state != OPEN ==> id !in t.viewers)
  {
  }

  /**
   * A viewer that found session `n` open and loads while it is still the camera's gets a frame of that session exactly
   * if its loop has stored one that no close() has cleared.
   */
  lemma ViewerGetsFrame(steps: seq<Step>, s: State, id: nat, n: nat)
    requires Run(INIT, steps) == Some(s) && NeverTwoClosers(INIT, steps)
    requires id in s.viewers && s.viewers[id] == Loading(n) && n == s.session
    ensures Apply(s, ViewBy(id, VLoad)).Some?
    ensures var t := Apply(s, ViewBy(id, VLoad)).value;
            && t == s.(viewers := s.viewers - {id}, views := t.views)
            && t.views == s.views + if StoredSince(steps, n) then [View(n, n, n)] else []
  {
    FieldsTellHistory(steps, s);
  }

  // A loop with a frame in hand stores it.
  lemma FrameRuns(s: State, n: nat, stored: State)
    requires n in s.loops && s.loops[n] == Selecting && stored == s.(lastFrame := Some(n))
    ensures Run(s, [LoopOf(n, LFrame), LoopOf(n, LInject(false)), LoopOf(n, LStore)]) == Some(stored)
  {
    var s1, s2 := s.(loops := s.loops[n := Received]), s.(loops := s.loops[n := Injected]);
    assert s1.loops[n := Injected] == s2.loops && s2.loops[n := Selecting] == s.loops;
    Chain3(s, [LoopOf(n, LFrame), LoopOf(n, LInject(false)), LoopOf(n, LStore)], s1, s2, stored);
  }

  lemma ViewStarts(s: State, id: nat, loading: State)
    requires s.mu.None? && s.state == OPEN && id !in s.viewers
    requires loading == s.(viewers := s.viewers[id := Loading(s.session)])
    ensures Run(s, [ViewBy(id, VStart), ViewBy(id, VLock), ViewBy(id, VState)]) == Some(loading)
  {
    var s1 := s.(viewers := s.viewers[id := VWantsLock]);
    var s2 := s.(mu := Some(Viewer(id)), viewers := s.viewers[id := ReadingState]);
    assert s1.viewers[id := ReadingState] == s2.viewers;
    assert s2.viewers[id := Loading(s.session)] == loading.viewers;
    Chain3(s, [ViewBy(id, VStart), ViewBy(id, VLock), ViewBy(id, VState)], s1, s2, loading);
  }

  const FIRST_FRAME: seq<Step> := [LoopOf(1, LFrame), LoopOf(1, LInject(false)), LoopOf(1, LStore)]
  const FIRST_VIEW: seq<Step> := [ViewBy(1, VStart), ViewBy(1, VLock), ViewBy(1, VState)]
  const LOADS: seq<Step> := [ViewBy(1, VLoad)]

  lemma LoadRuns(s: State, end: State)
    requires Apply(s, ViewBy(1, VLoad)) == Some(end)
    ensures Run(s, LOADS) == Some(end)
  {
    assert LOADS[1..] == [] && Run(end, []) == Some(end);
  }

  lemma FirstViewRuns(s1: State, end: State)
    requires s1 == FIRST_OPEN.(lastFrame := Some(1)) && end == s1.(views := [View(1, 1, 1)])
    ensures Run(s1, FIRST_VIEW + LOADS) == Some(end)
  {
    var s2 := s1.(viewers := map[1 := Loading(1)]);
    assert s1.viewers[1 := Loading(1)] == s2.viewers && s2.viewers - {1} == map[] && [] + end.views == end.views;
    ViewStarts(s1, 1, s2);
    LoadRuns(s2, end);
    RunConcat(s1, FIRST_VIEW, LOADS);
  }

  /** A camera that is opened and has captured one frame shows it. */
  lemma FirstFrameIsSeen()
    ensures Run(INIT, OpenSteps(1) + (FIRST_FRAME + (FIRST_VIEW + LOADS))) ==
            Some(FIRST_OPEN.(lastFrame := Some(1), views := [View(1, 1, 1)]))
  {
    var s1 := FIRST_OPEN.(lastFrame := Some(1));
    FirstOpenRuns();
    FrameRuns(FIRST_OPEN, 1, s1);
    FirstViewRuns(s1, s1.(views := [View(1, 1, 1)]));
    RunConcat(FIRST_OPEN, FIRST_FRAME, FIRST_VIEW + LOADS);
    RunConcat(INIT, OpenSteps(1), FIRST_FRAME + (FIRST_VIEW + LOADS));
  }
}
