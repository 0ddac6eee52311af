/** Schedules of the camera machine: an open that is left without its loop, and two close() calls that overlap. */
module CameraSchedules {
  import opened Sequences
  import opened CameraLifecycle
  import opened CameraProgress

  // ------------------------------------------------------------------
  // Putting schedules together
  // ------------------------------------------------------------------

  lemma {:induction false} RunConcat(s: State, a: seq<Step>, b: seq<Step>)
    requires Run(s, a).Some?
    ensures Run(s, a + b) == Run(Run(s, a).value, b)
    decreases |a|
  {
    if a == [] {
      assert a + b == b;
    } else {
      assert (a + b)[1..] == a[1..] + b;
      RunConcat(Apply(s, a[0]).value, a[1..], b);
    }
  }

  lemma Chain2(s: State, steps: seq<Step>, s1: State, s2: State)
    requires |steps| == 2
    requires Apply(s, steps[0]) == Some(s1) && Apply(s1, steps[1]) == Some(s2)
    ensures Run(s, steps) == Some(s2)
  {
    var t1 := steps[1..];
    assert t1[1..] == [];
    assert Run(s1, t1) == Run(s2, []);
  }

  lemma Chain3(s: State, steps: seq<Step>, s1: State, s2: State, s3: State)
    requires |steps| == 3
    requires Apply(s, steps[0]) == Some(s1) && Apply(s1, steps[1]) == Some(s2) && Apply(s2, steps[2]) == Some(s3)
    ensures Run(s, steps) == Some(s3)
  {
    var t1, t2 := steps[1..], steps[2..];
    assert t1[1..] == t2 && t2[1..] == [];
    assert Run(s2, t2) == Run(s3, []);
    assert Run(s1, t1) == Run(s2, t2);
  }

  /** An undisturbed open. */
  function OpenSteps(id: nat): seq<Step> {
    [OpenBy(id, OStart), OpenBy(id, OLock), OpenBy(id, OBegin), OpenBy(id, ODriverOk), OpenBy(id, OSeed(true)),
     OpenBy(id, OLaunch)]
  }

  /** What an undisturbed open of a CLOSED camera leads to. */
  function AfterOpen(s: State): State {
    var n := s.session + 1;
    s.(state := OPEN, session := n, reader := Some(n), liveReaders := s.liveReaders + {n}, paramSets := Some(n),
       wg := s.wg + 1, loops := s.loops[n := Selecting])
  }

  function Opening(s: State, id: nat): State {
    var n := s.session + 1;
    s.(mu := Some(Opener(id)), session := n, openers := s.openers[id := OpeningDriver(n)])
  }

  lemma OpenRunsHalf(s: State, id: nat)
    requires s.mu.None? && s.state == CLOSED && id !in s.openers
    ensures Run(s, OpenSteps(id)[..3]) == Some(Opening(s, id))
  {
    var s1 := s.(openers := s.openers[id := OWantsLock]);
    var s2 := s.(mu := Some(Opener(id)), openers := s.openers[id := OChecking]);
    var s3 := Opening(s, id);
    assert s1.openers[id := OChecking] == s2.openers && s2.openers[id := OpeningDriver(s.session + 1)] == s3.openers;
    Chain3(s, OpenSteps(id)[..3], s1, s2, s3);
  }

  lemma OpenRunsOn(s: State, id: nat)
    requires s.mu.None? && s.state == CLOSED && id !in s.openers
    ensures Run(Opening(s, id), OpenSteps(id)[3..]) == Some(AfterOpen(s))
  {
    var n, s3 := s.session + 1, Opening(s, id);
    var s4 := s3.(state := OPEN, reader := Some(n), liveReaders := s.liveReaders + {n},
                  openers := s.openers[id := Opened(n)]);
    var s5 := s4.(paramSets := Some(n), openers := s.openers[id := Seeded(n)]);
    assert s3.openers[id := Opened(n)] == s4.openers && s4.openers[id := Seeded(n)] == s5.openers;
    assert s5.openers - {id} == s.openers;
    Chain3(s3, OpenSteps(id)[3..], s4, s5, AfterOpen(s));
  }

  lemma OpenRuns(s: State, id: nat)
    requires s.mu.None? && s.state == CLOSED && id !in s.openers
    ensures Run(s, OpenSteps(id)) == Some(AfterOpen(s))
  {
    OpenRunsHalf(s, id);
    OpenRunsOn(s, id);
    RunConcat(s, OpenSteps(id)[..3], OpenSteps(id)[3..]);
    assert OpenSteps(id)[..3] + OpenSteps(id)[3..] == OpenSteps(id);
  }

  // Session 1 is open and nothing else is going on.
  const FIRST_OPEN: State :=
    INIT.(state := OPEN, session := 1, reader := Some(1), liveReaders := {1}, paramSets := Some(1), wg := 1,
          loops := map[1 := Selecting])

  lemma FirstOpenRuns()
    ensures Run(INIT, OpenSteps(1)) == Some(FIRST_OPEN)
  {
    assert FIRST_OPEN.liveReaders == INIT.liveReaders + {1} && FIRST_OPEN.loops == INIT.loops[1 := Selecting];
    OpenRuns(INIT, 1);
  }

  // ------------------------------------------------------------------
  // OPEN without a loop
  // ------------------------------------------------------------------

  const CLEAN_END: seq<Step> := [LoopOf(1, LSourceEnds(false)), LoopOf(1, LCancel), LoopOf(1, LDone)]

  lemma CleanEndRuns(t: State)
    requires t == FIRST_OPEN.(cancelled := {1}, wg := 0, loops := map[])
    ensures Run(FIRST_OPEN, CLEAN_END) == Some(t)
  {
    var s := FIRST_OPEN;
    var s1 := s.(loops := map[1 := Cancelling]);
    var s2 := s.(loops := map[1 := Leaving], cancelled := {1});
    assert s.loops[1 := Cancelling] == s1.loops && s1.loops[1 := Leaving] == s2.loops && s2.loops - {1} == map[];
    assert s1.cancelled + {1} == s2.cancelled;
    Chain3(s, CLEAN_END, s1, s2, t);
  }

  lemma OpensWithoutClose(id: nat)
    ensures forall step :: step in OpenSteps(id) + CLEAN_END ==> !step.CloseBy?
  {
  }

  /** A source that ends without an error leaves the camera OPEN with no loop, on a schedule without any close(). */
  lemma OpenWithoutLoop()
    ensures Run(INIT, OpenSteps(1) + CLEAN_END).Some? && NeverTwoClosers(INIT, OpenSteps(1) + CLEAN_END)
    ensures var s := Run(INIT, OpenSteps(1) + CLEAN_END).value; s.state == OPEN && Settled(s) && s.loops == map[]
  {
    FirstOpenRuns();
    CleanEndRuns(FIRST_OPEN.(cancelled := {1}, wg := 0, loops := map[]));
    RunConcat(INIT, OpenSteps(1), CLEAN_END);
    OpensWithoutClose(1);
    NoCloseNoOverlap(INIT, OpenSteps(1) + CLEAN_END);
  }

  // ------------------------------------------------------------------
  // Two overlapping close() calls
  // ------------------------------------------------------------------

  // Both calls have taken their snapshot; call 1 holds the reader.
  const BOTH_PAST: State :=
    FIRST_OPEN.(cancelled := {1}, reader := None, closers := map[1 := ClosingReader(Some(1)), 2 := ClosingReader(None)])

  // The loop of session 1 is gone and call 1 is about to finish.
  const FIRST_FINISHING: State :=
    BOTH_PAST.(mu := Some(Closer(1)), liveReaders := {}, wg := 0, loops := map[],
               closers := map[1 := Finishing, 2 := ClosingReader(None)])

  // Call 1 is through; call 2 waited for no loop and still has to finish.
  const ONE_LEFT: State := INIT.(session := 1, cancelled := {1}, closers := map[2 := WantsLockAgain])

  // Session 2 was opened in the meantime.
  const SECOND_OPEN: State :=
    ONE_LEFT.(state := OPEN, session := 2, reader := Some(2), liveReaders := {2}, paramSets := Some(2), wg := 1,
              loops := map[2 := Selecting])

  const SNAPSHOT_1: seq<Step> := [CloseBy(1, CStart), CloseBy(1, CLock), CloseBy(1, CSnapshot)]
  const SNAPSHOT_2: seq<Step> := [CloseBy(2, CStart), CloseBy(2, CLock), CloseBy(2, CSnapshot)]
  const LOOP_ENDS: seq<Step> := [LoopOf(1, LCancelled), LoopOf(1, LCancel), LoopOf(1, LDone)]
  const WAIT_1: seq<Step> := [CloseBy(1, CReader), CloseBy(1, CWait), CloseBy(1, CLockAgain)]
  const FINISH_1: seq<Step> := [CloseBy(1, CFinish), CloseBy(2, CReader), CloseBy(2, CWait)]
  const FINISH_2: seq<Step> := [LoopOf(2, LFrame), CloseBy(2, CLockAgain), CloseBy(2, CFinish)]

  const OVERLAPPING: seq<Step> :=
    OpenSteps(1) + (SNAPSHOT_1 + (SNAPSHOT_2 + (LOOP_ENDS + (WAIT_1 + (FINISH_1 + (OpenSteps(1) + FINISH_2))))))

  lemma FirstSnapshotRuns(s3: State)
    requires s3 == FIRST_OPEN.(cancelled := {1}, reader := None, closers := map[1 := ClosingReader(Some(1))])
    ensures Run(FIRST_OPEN, SNAPSHOT_1) == Some(s3)
  {
    var s := FIRST_OPEN;
    var s1 := s.(closers := map[1 := CWantsLock]);
    var s2 := s.(mu := Some(Closer(1)), closers := map[1 := Snapshotting]);
    assert s1.closers[1 := Snapshotting] == s2.closers && s2.closers[1 := ClosingReader(Some(1))] == s3.closers;
    assert s2.cancelled + {1} == s3.cancelled;
    Chain3(s, SNAPSHOT_1, s1, s2, s3);
  }

  lemma SecondSnapshotRuns(s3: State)
    requires s3 == FIRST_OPEN.(cancelled := {1}, reader := None, closers := map[1 := ClosingReader(Some(1))])
    ensures Run(s3, SNAPSHOT_2) == Some(BOTH_PAST)
  {
    var s4 := s3.(closers := map[1 := ClosingReader(Some(1)), 2 := CWantsLock]);
    var s5 := s3.(mu := Some(Closer(2)), closers := map[1 := ClosingReader(Some(1)), 2 := Snapshotting]);
    assert s3.closers[2 := CWantsLock] == s4.closers && s4.closers[2 := Snapshotting] == s5.closers;
    assert s5.closers[2 := ClosingReader(None)] == BOTH_PAST.closers && s5.cancelled + {1} == BOTH_PAST.cancelled;
    Chain3(s3, SNAPSHOT_2, s4, s5, BOTH_PAST);
  }

  lemma LoopEndRuns(s3: State)
    requires s3 == BOTH_PAST.(wg := 0, loops := map[])
    ensures Run(BOTH_PAST, LOOP_ENDS) == Some(s3)
  {
    var s1 := BOTH_PAST.(loops := map[1 := Cancelling]);
    var s2 := BOTH_PAST.(loops := map[1 := Leaving]);
    assert BOTH_PAST.loops[1 := Cancelling] == s1.loops && s1.loops[1 := Leaving] == s2.loops
        && s2.loops - {1} == map[];
    assert s1.cancelled + {1} == s2.cancelled;
    Chain3(BOTH_PAST, LOOP_ENDS, s1, s2, s3);
  }

  lemma WaitRuns(s: State)
    requires s == BOTH_PAST.(wg := 0, loops := map[])
    ensures Run(s, WAIT_1) == Some(FIRST_FINISHING)
  {
    var s1 := s.(liveReaders := {}, closers := map[1 := Waiting, 2 := ClosingReader(None)]);
    var s2 := s1.(closers := map[1 := WantsLockAgain, 2 := ClosingReader(None)]);
    assert s.closers[1 := Waiting] == s1.closers && s1.closers[1 := WantsLockAgain] == s2.closers;
    assert s2.closers[1 := Finishing] == FIRST_FINISHING.closers && s.liveReaders - {1} == {};
    Chain3(s, WAIT_1, s1, s2, FIRST_FINISHING);
  }

  lemma FirstFinishRuns()
    ensures Run(FIRST_FINISHING, FINISH_1) == Some(ONE_LEFT)
  {
    var s := FIRST_FINISHING;
    var s1 := ONE_LEFT.(closers := map[2 := ClosingReader(None)]);
    var s2 := ONE_LEFT.(closers := map[2 := Waiting]);
    assert s.closers - {1} == s1.closers;
    assert s1.closers[2 := Waiting] == s2.closers && s2.closers[2 := WantsLockAgain] == ONE_LEFT.closers;
    assert s1.liveReaders - {} == s2.liveReaders;
    Chain3(s, FINISH_1, s1, s2, ONE_LEFT);
  }

  lemma SecondFinishRuns(end: State)
    requires end == SECOND_OPEN.(state := CLOSED, paramSets := None, closers := map[], loops := map[2 := Received])
    ensures Run(SECOND_OPEN, FINISH_2) == Some(end)
  {
    var s1 := SECOND_OPEN.(loops := map[2 := Received]);
    var s2 := s1.(mu := Some(Closer(2)), closers := map[2 := Finishing]);
    assert SECOND_OPEN.loops[2 := Received] == s1.loops;
    assert s1.closers[2 := Finishing] == s2.closers && s2.closers - {2} == map[];
    Chain3(SECOND_OPEN, FINISH_2, s1, s2, end);
  }

  lemma ReachesOneLeft(rest: seq<Step>)
    ensures Run(FIRST_OPEN, SNAPSHOT_1 + (SNAPSHOT_2 + (LOOP_ENDS + (WAIT_1 + (FINISH_1 + rest))))) ==
        Run(ONE_LEFT, rest)
  {
    var s3 := FIRST_OPEN.(cancelled := {1}, reader := None, closers := map[1 := ClosingReader(Some(1))]);
    var s9 := BOTH_PAST.(wg := 0, loops := map[]);
    FirstSnapshotRuns(s3);
    SecondSnapshotRuns(s3);
    LoopEndRuns(s9);
    WaitRuns(s9);
    FirstFinishRuns();
    RunConcat(FIRST_FINISHING, FINISH_1, rest);
    RunConcat(s9, WAIT_1, FINISH_1 + rest);
    RunConcat(BOTH_PAST, LOOP_ENDS, WAIT_1 + (FINISH_1 + rest));
    RunConcat(s3, SNAPSHOT_2, LOOP_ENDS + (WAIT_1 + (FINISH_1 + rest)));
    RunConcat(FIRST_OPEN, SNAPSHOT_1, SNAPSHOT_2 + (LOOP_ENDS + (WAIT_1 + (FINISH_1 + rest))));
  }

  lemma SecondOpenRuns()
    ensures Run(ONE_LEFT, OpenSteps(1)) == Some(SECOND_OPEN)
  {
    assert SECOND_OPEN.liveReaders == ONE_LEFT.liveReaders + {2} && SECOND_OPEN.loops == ONE_LEFT.loops[2 := Selecting];
    OpenRuns(ONE_LEFT, 1);
  }

  lemma OverlappingRuns(end: State)
    requires end == SECOND_OPEN.(state := CLOSED, paramSets := None, closers := map[], loops := map[2 := Received])
    ensures Run(INIT, OVERLAPPING) == Some(end)
  {
    var rest := OpenSteps(1) + FINISH_2;
    FirstOpenRuns();
    ReachesOneLeft(rest);
    SecondOpenRuns();
    SecondFinishRuns(end);
    RunConcat(ONE_LEFT, OpenSteps(1), FINISH_2);
    RunConcat(INIT, OpenSteps(1), SNAPSHOT_1 + (SNAPSHOT_2 + (LOOP_ENDS + (WAIT_1 + (FINISH_1 + rest)))));
  }

  /**
   * The condition on close() is needed: two calls that overlap can leave the camera CLOSED while the loop and the
   * reader of a later session live on.
   */
  lemma OverlappingClosesBreakIt()
    ensures Run(INIT, OVERLAPPING).Some? && !NeverTwoClosers(INIT, OVERLAPPING)
    ensures var s := Run(INIT, OVERLAPPING).value;
            s.state == CLOSED && s.loops == map[2 := Received] && s.reader == Some(2) && s.liveReaders == {2}
  {
    OverlappingRuns(SECOND_OPEN.(state := CLOSED, paramSets := None, closers := map[], loops := map[2 := Received]));
    if NeverTwoClosers(INIT, OVERLAPPING) {
      Safety(OVERLAPPING);
    }
  }

  // ------------------------------------------------------------------
  // Any overlap breaks it, and nothing else does
  // ------------------------------------------------------------------

  predicate NoSnapshots(steps: seq<Step>) {
    forall step :: step in steps ==> !(step.CloseBy? && step.c.CSnapshot?)
  }

  lemma UnusedId(ids: set<nat>) returns (id: nat)
    ensures forall i :: i in ids ==> i < id
  {
    id := 0;
    if ids != {} {
      var i :| i in ids;
      var rest := ids - {i};
      id := UnusedId(rest);
      assert ids == rest + {i};
      id := if i < id then id else i + 1;
    }
  }

  // Close `other` ends while close `id` stands at its reader.
  lemma OtherEnds(t: State, id: nat, other: nat) returns (more: seq<Step>, u: State)
    requires Returning(t, Closer(other)) && t.mu.None? && IsPast(t, Closer(other))
    requires id in t.closers && id != other
    ensures Run(t, more) == Some(u) && NoSnapshots(more)
    ensures Returned(u, Closer(other)) && id in u.closers && u.closers[id] == t.closers[id]
  {
    more, u := Return(t, Closer(other));
    RunLeavesClose(t, more, id);
  }

  lemma WaitsForNothing(u: State, id: nat, w: State)
    requires id in u.closers && u.closers[id] == ClosingReader(None) && u.wg == 0
    requires w == u.(closers := u.closers[id := WantsLockAgain])
    ensures Run(u, [CloseBy(id, CReader), CloseBy(id, CWait)]) == Some(w)
  {
    var u1 := u.(closers := u.closers[id := Waiting]);
    assert u1.closers[id := WantsLockAgain] == w.closers;
    assert u.liveReaders - {} == u.liveReaders;
    Chain2(u, [CloseBy(id, CReader), CloseBy(id, CWait)], u1, w);
  }

  lemma FinishRuns(v: State, id: nat, end: State)
    requires id in v.closers && v.closers[id] == WantsLockAgain && v.mu.None?
    requires end == v.(state := CLOSED, lastFrame := None, paramSets := None, closers := v.closers - {id})
    ensures Run(v, [CloseBy(id, CLockAgain), CloseBy(id, CFinish)]) == Some(end)
  {
    var v1 := v.(mu := Some(Closer(id)), closers := v.closers[id := Finishing]);
    assert v1.closers - {id} == end.closers;
    Chain2(v, [CloseBy(id, CLockAgain), CloseBy(id, CFinish)], v1, end);
  }

  // Close `id`, with no loop to wait for, finishes after the camera was opened again.
  lemma LateFinish(u: State, id: nat) returns (more: seq<Step>, end: State)
    requires u.mu.None? && u.state == CLOSED && u.loops == map[] && u.wg == 0
    requires id in u.closers && u.closers[id] == ClosingReader(None)
    ensures Run(u, more) == Some(end) && NoSnapshots(more)
    ensures end.state == CLOSED && end.loops == map[end.session := Selecting]
    ensures end.reader == Some(end.session) && end.session in end.liveReaders
  {
    var w := u.(closers := u.closers[id := WantsLockAgain]);
    var opener := UnusedId(u.openers.Keys);
    var v := AfterOpen(w);
    var waits, opens := [CloseBy(id, CReader), CloseBy(id, CWait)], OpenSteps(opener);
    var ends := [CloseBy(id, CLockAgain), CloseBy(id, CFinish)];
    end := v.(state := CLOSED, lastFrame := None, paramSets := None, closers := v.closers - {id});
    more := waits + (opens + ends);
    WaitsForNothing(u, id, w);
    OpenRuns(w, opener);
    FinishRuns(v, id, end);
    RunConcat(w, opens, ends);
    RunConcat(u, waits, opens + ends);
  }

  /**
   * Wherever a second close() passes its snapshot, the camera can end up CLOSED with a live loop and reader, with no
   * further snapshot and nothing failing.
   */
  lemma OverlapBreaks(steps: seq<Step>, s: State, id: nat, other: nat, t: State) returns (more: seq<Step>, end: State)
    requires Run(INIT, steps) == Some(s) && NeverTwoClosers(INIT, steps)
    requires other in s.closers && Past(s.closers[other]) && Apply(s, CloseBy(id, CSnapshot)) == Some(t)
    ensures Run(t, more) == Some(end) && NoSnapshots(more)
    ensures end.state == CLOSED && end.loops == map[end.session := Selecting]
    ensures end.reader == Some(end.session) && end.session in end.liveReaders
  {
    RunKeepsInv(INIT, steps);
    OneCloserAtEnd(INIT, steps);
    assert CloserOk(s, s.closers[other]);
    InvReturning(s, Closer(other));
    assert Next(s, Closer(other)) == CloseBy(id, CSnapshot);
    NextKeepsReturning(s, Closer(other));
    NextStaysPast(s, Closer(other));
    var first, u := OtherEnds(t, id, other);
    var second;
    second, end := LateFinish(u, id);
    more := first + second;
    RunConcat(t, first, second);
  }

  lemma NoSnapshotKeepsOne(s: State, step: Step)
    requires OneCloser(s) && Apply(s, step).Some? && !(step.CloseBy? && step.c.CSnapshot?)
    ensures OneCloser(Apply(s, step).value)
  {
    OnlyCloseMovesClosers(s, step);
  }

  lemma {:induction false} NoSnapshotNoOverlap(s: State, steps: seq<Step>)
    requires OneCloser(s) && NoSnapshots(steps) && Run(s, steps).Some?
    ensures NeverTwoClosers(s, steps)
    decreases |steps|
  {
    if steps != [] {
      NoSnapshotKeepsOne(s, steps[0]);
      assert forall later :: later in steps[1..] ==> later in steps;
      NoSnapshotNoOverlap(Apply(s, steps[0]).value, steps[1..]);
    }
  }

  // The step that breaks OneCloser is the snapshot of a second close().
  lemma WhatOverlaps(s: State, step: Step) returns (other: nat)
    requires OneCloser(s) && Apply(s, step).Some? && !OneCloser(Apply(s, step).value)
    ensures step.CloseBy? && step.c.CSnapshot? && other in s.closers && Past(s.closers[other])
  {
    if !(step.CloseBy? && step.c.CSnapshot?) {
      NoSnapshotKeepsOne(s, step);
    }
    var t := Apply(s, step).value;
    var i, j :| i in t.closers && j in t.closers && Past(t.closers[i]) && Past(t.closers[j]) && i != j;
    other := if i == step.id then j else i;
  }

  /** Whatever happens next without a further snapshot, a CLOSED camera is quiet. */
  ghost predicate ClosedIsQuiet(t: State) {
    forall more :: NoSnapshots(more) && Run(t, more).Some? && Run(t, more).value.state == CLOSED ==>
        Quiet(Run(t, more).value)
  }

  /** The condition on close() is exact: it is the state in which every later CLOSED is a quiet one. */
  lemma OneCloserIsExact(steps: seq<Step>, s: State, step: Step, t: State)
    requires Run(INIT, steps) == Some(s) && NeverTwoClosers(INIT, steps) && Apply(s, step) == Some(t)
    ensures OneCloser(t) <==> ClosedIsQuiet(t)
  {
    OneCloserAtEnd(INIT, steps);
    if OneCloser(t) {
      RunKeepsInv(INIT, steps);
      StepKeepsInv(s, step);
      forall more | NoSnapshots(more) && Run(t, more).Some? && Run(t, more).value.state == CLOSED
        ensures Quiet(Run(t, more).value)
      {
        NoSnapshotNoOverlap(t, more);
        RunKeepsInv(t, more);
      }
    } else {
      var other := WhatOverlaps(s, step);
      var more, end := OverlapBreaks(steps, s, step.id, other, t);
    }
  }
}
