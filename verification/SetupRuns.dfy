/** Whole Setup calls on the shared segment: one left alone serves every network, one that fails leaves nothing. */
module SetupRuns {
  import opened Sequences
  import opened Subnet
  import opened ArpProbe
  import opened Enrich
  import opened SetupProtocol

  // ------------------------------------------------------------------
  // Failure
  // ------------------------------------------------------------------

  /** While `c` has held the lock since `s`, the links of its pod are those of `s` or the call's own. */
  ghost predicate OwnOrOld(s: State, t: State, c: nat) {
    && Has(s, c) && Has(t, c) && t.calls[c].pod == s.calls[c].pod
    && (t.holder == Some(c) ==>
          forall slot :: slot in t.held && slot.pod == t.calls[c].pod ==>
            slot.cfg in t.calls[c].made || (slot in s.held && t.held[slot] == s.held[slot]))
  }

  lemma StepKeepsOwnOrOld(node: Node, s: State, t: State, c: nat, step: Step)
    requires ValidNode(node) && OwnOrOld(s, t, c) && Enabled(node, t, step)
    requires t.holder == Some(c) || !step.Locks? || step.call != c
    ensures OwnOrOld(s, Apply(node, t, step), c)
  {
  }

  /** `c` never takes the lock anew. */
  predicate NoRelock(steps: seq<Step>, c: nat) {
    Locks(c) !in steps
  }

  lemma {:induction false} RunKeepsOwnOrOld(node: Node, s: State, t: State, c: nat, steps: seq<Step>, u: State)
    requires ValidNode(node) && OwnOrOld(s, t, c) && Run(node, t, steps) == Some(u) && NoRelock(steps, c)
    ensures OwnOrOld(s, u, c)
    decreases |steps|
  {
    if steps != [] {
      assert steps[0] in steps && forall step :: step in steps[1..] ==> step in steps;
      StepKeepsOwnOrOld(node, s, t, c, steps[0]);
      RunKeepsOwnOrOld(node, s, Apply(node, t, steps[0]), c, steps[1..], u);
    }
  }

  /**
   * A call that fails leaves its pod no link that was not there, just so, when it took the lock, whatever other calls
   * and pods did meanwhile.
   */
  lemma FailureLeavesNothing(node: Node, s: State, c: nat, steps: seq<Step>, t: State, own: bool)
    requires ValidNode(node) && Has(s, c) && s.calls[c].phase.Waiting? && s.calls[c].made == {}
    requires Enabled(node, s, Locks(c)) && Run(node, Apply(node, s, Locks(c)), steps) == Some(t)
    requires NoRelock(steps, c) && Enabled(node, t, Fails(c, own))
    ensures var u: State, pod := Apply(node, t, Fails(c, own)), s.calls[c].pod;
            && u.holder.None? && (own ==> Slot(pod, t.calls[c].phase.cfg) !in u.held)
            && (forall slot :: slot in u.held && slot.pod == pod ==> slot in s.held && u.held[slot] == s.held[slot])
            && (forall slot: Slot :: slot.pod != pod ==>
                  (slot in u.held <==> slot in t.held) && (slot in u.held ==> u.held[slot] == t.held[slot]))
  {
    RunKeepsOwnOrOld(node, s, Apply(node, s, Locks(c)), c, steps, t);
  }

  predicate By(s: State, step: Step, pod: nat) {
    match step
    case PodStarts(p) => p == pod
    case PodDies(p) => p == pod
    case Arrives(p) => p == pod
    case Locks(c) => Has(s, c) && s.calls[c].pod == pod
    case Probes(c) => Has(s, c) && s.calls[c].pod == pod
    case Creates(c, _) => Has(s, c) && s.calls[c].pod == pod
    case Fails(c, _) => Has(s, c) && s.calls[c].pod == pod
  }

  /** A pod's links change only by its own death and its own calls. */
  lemma LinksAreOwn(node: Node, s: State, step: Step, slot: Slot)
    requires ValidNode(node) && Fits(node, s, step) && !By(s, step, slot.pod)
    ensures var t := Apply(node, s, step);
            (slot in t.held <==> slot in s.held) && (slot in s.held ==> t.held[slot] == s.held[slot])
  {
  }

  /** A created link has the chosen address, and no other when the old ones could be flushed. */
  lemma CreatedHas(node: Node, s: State, c: nat, flushed: bool)
    requires ValidNode(node) && Enabled(node, s, Creates(c, flushed))
    requires s.calls[c].phase.ip != node.nets[s.calls[c].phase.cfg].base
    ensures var t, slot := Apply(node, s, Creates(c, flushed)), Slot(s.calls[c].pod, s.calls[c].phase.cfg);
            && slot in t.held && s.calls[c].phase.ip in t.held[slot]
            && t.held[slot] == {s.calls[c].phase.ip} + if slot in s.held && !flushed then s.held[slot] else {}
  {
  }

  // ------------------------------------------------------------------
  // The lock is always given back
  // ------------------------------------------------------------------

  /** The holder of the lock is at work. */
  ghost predicate HolderOk(s: State) {
    s.holder.Some? ==>
      var c := s.holder.value; Has(s, c) && (s.calls[c].phase.Scanning? || s.calls[c].phase.Chosen?)
  }

  lemma {:induction false} RunKeepsHolder(node: Node, s: State, steps: seq<Step>, t: State)
    requires ValidNode(node) && HolderOk(s) && Run(node, s, steps) == Some(t)
    ensures HolderOk(t)
    decreases |steps|
  {
    if steps != [] {
      StepKeepsHolder(node, s, steps[0]);
      RunKeepsHolder(node, Apply(node, s, steps[0]), steps[1..], t);
    }
  }

  lemma StepKeepsHolder(node: Node, s: State, step: Step)
    requires ValidNode(node) && HolderOk(s) && Enabled(node, s, step)
    ensures HolderOk(Apply(node, s, step))
  {
  }

  /** In every reachable state a waiting call can take the lock, or its holder can go on. */
  lemma NobodyIsStuck(node: Node, steps: seq<Step>, s: State, c: nat)
    requires ValidNode(node) && Run(node, INITIAL, steps) == Some(s) && Has(s, c) && s.calls[c].phase.Waiting?
    ensures if s.holder.None? then Enabled(node, s, Locks(c))
            else Enabled(node, s, Probes(s.holder.value)) || Enabled(node, s, Fails(s.holder.value, true))
  {
    RunKeepsHolder(node, INITIAL, steps, s);
  }

  // ------------------------------------------------------------------
  // Success
  // ------------------------------------------------------------------

  lemma {:induction false} RunConcat(node: Node, s: State, a: seq<Step>, b: seq<Step>)
    requires ValidNode(node) && Run(node, s, a).Some?
    ensures Run(node, s, a + b) == Run(node, Run(node, s, a).value, b)
    decreases |a|
  {
    if a == [] {
      assert a + b == b;
    } else {
      assert (a + b)[1..] == a[1..] + b;
      RunConcat(node, Apply(node, s, a[0]), a[1..], b);
    }
  }

  /** The first candidate that is free, or one past the end. */
  lemma {:induction false} FirstFreeOrFull(list: seq<IP>, used: set<IP>) returns (i: nat)
    ensures i <= |list| && (forall j :: 0 <= j < i ==> list[j] in used) && (i < |list| ==> list[i] !in used)
  {
    i := 0;
    if list != [] && list[0] in used {
      i := FirstFreeOrFull(list[1..], used);
      i := i + 1;
      assert forall j :: 0 < j < i ==> list[j] == list[1..][j - 1];
    }
  }

  ghost predicate Full(node: Node, s: State, cfg: nat)
    requires ValidNode(node) && cfg < |node.nets|
  {
    forall ip :: ip in Choices(node, cfg) ==> ip in Segment(node, s)
  }

  lemma RoundInFull(node: Node, s: State, c: nat)
    requires ValidNode(node) && Holds(s, c) && s.calls[c].phase.Scanning? && s.calls[c].phase.cfg < |node.nets|
    requires Full(node, s, s.calls[c].phase.cfg)
    ensures var cfg, batch := s.calls[c].phase.cfg, s.calls[c].phase.batch;
            SetupProtocol.Probe(node, s, c) ==
            SetPhase(s, c, if batch * ARP_PROBE_BATCH < |Choices(node, cfg)| then Scanning(cfg, batch + 1)
                           else Scanning(cfg + 1, 0))
  {
    var choices := Choices(node, s.calls[c].phase.cfg);
    var part := Batch(choices, s.calls[c].phase.batch);
    assert forall ip :: ip in part ==> ip in choices;
  }

  /** The scan of a network whose candidates all answer goes on with the next network. */
  lemma {:induction false} FullIsSkipped(node: Node, s: State, c: nat, cfg: nat, batch: nat) returns (n: nat)
    requires ValidNode(node) && Holds(s, c) && s.calls[c].phase == Scanning(cfg, batch) && cfg < |node.nets|
    requires Full(node, s, cfg)
    ensures Run(node, s, Rounds(c, n)) == Some(SetPhase(s, c, Scanning(cfg + 1, 0)))
    decreases |Choices(node, cfg)| - batch * ARP_PROBE_BATCH
  {
    RoundInFull(node, s, c);
    if batch * ARP_PROBE_BATCH < |Choices(node, cfg)| {
      var t := SetPhase(s, c, Scanning(cfg, batch + 1));
      assert Segment(node, t) == Segment(node, s);
      n := FullIsSkipped(node, t, c, cfg, batch + 1);
      n := n + 1;
      RunRound(node, s, c, n);
      PhaseTwice(s, c, Scanning(cfg, batch + 1), Scanning(cfg + 1, 0));
    } else {
      n := 1;
      RunRound(node, s, c, n);
      assert Rounds(c, 0) == [];
    }
  }

  /** Each link still has the addresses it had. */
  ghost predicate Grown(s: State, t: State) {
    forall slot :: slot in s.held ==> slot in t.held && s.held[slot] <= t.held[slot]
  }

  lemma GrownSegment(node: Node, s: State, t: State)
    requires Grown(s, t)
    ensures Segment(node, s) <= Segment(node, t)
  {
  }

  /** Config `k` got its pod a link, or there was nothing to give it: no free candidate, or just the network's own. */
  ghost predicate Served(node: Node, s: State, t: State, pod: nat, k: nat)
    requires ValidNode(node) && k < |node.nets|
  {
    || (Slot(pod, k) in t.held && exists ip :: ip in t.held[Slot(pod, k)] && ip !in Segment(node, s))
    || Full(node, t, k)
    || (node.nets[k].base in Choices(node, k) && node.nets[k].base !in Segment(node, s))
  }

  lemma StaysServed(node: Node, s0: State, s: State, t: State, u: State, pod: nat, k: nat)
    requires ValidNode(node) && k < |node.nets| && Served(node, s, t, pod, k) && Grown(s0, s) && Grown(t, u)
    ensures Served(node, s0, u, pod, k)
  {
    GrownSegment(node, s0, s);
    GrownSegment(node, t, u);
  }

  predicate OwnStep(step: Step, c: nat) {
    step == Probes(c) || step == Creates(c, false)
  }

  lemma {:induction false} RoundsAreOwn(c: nat, n: nat)
    ensures forall step :: step in Rounds(c, n) ==> OwnStep(step, c)
  {
    if n > 0 {
      RoundsAreOwn(c, n - 1);
    }
  }

  /** What one network's turn leads to. */
  ghost predicate TurnDone(node: Node, s: State, t: State, c: nat, cfg: nat)
    requires ValidNode(node) && Has(s, c)
  {
    && Holds(t, c) && t.calls[c].phase == Scanning(cfg + 1, 0) && t.calls[c].pod == s.calls[c].pod
    && t.pods == s.pods && |t.calls| == |s.calls| && Grown(s, t)
    && (forall slot :: slot in t.held && (slot.pod != s.calls[c].pod || slot.cfg != cfg) ==>
          slot in s.held && t.held[slot] == s.held[slot])
    && (cfg < |node.nets| ==> Served(node, s, t, s.calls[c].pod, cfg))
  }

  lemma CreateIsTurn(node: Node, s: State, c: nat, cfg: nat, ip: IP)
    requires ValidNode(node) && Holds(s, c) && s.calls[c].phase == Chosen(cfg, ip) && cfg < |node.nets|
    requires ip in Choices(node, cfg) && ip !in Segment(node, s)
    ensures TurnDone(node, s, Create(node, s, c, false), c, cfg)
  {
    var t := Create(node, s, c, false);
    if ip != node.nets[cfg].base {
      assert ip in t.held[Slot(s.calls[c].pod, cfg)];
    }
  }

  // The turn of a network: its scan, and the creation of the link if an address was found.
  lemma NetworkTurn(node: Node, s: State, c: nat, cfg: nat) returns (steps: seq<Step>, t: State)
    requires ValidNode(node) && Holds(s, c) && s.calls[c].phase == Scanning(cfg, 0) && cfg < |node.nets|
    requires s.calls[c].pod in s.pods
    ensures Run(node, s, steps) == Some(t) && forall step :: step in steps ==> OwnStep(step, c)
    ensures TurnDone(node, s, t, c, cfg)
  {
    var choices := Choices(node, cfg);
    var i := FirstFreeOrFull(choices, Segment(node, s));
    if i == |choices| {
      assert Full(node, s, cfg);
      var n := FullIsSkipped(node, s, c, cfg, 0);
      RoundsAreOwn(c, n);
      steps, t := Rounds(c, n), SetPhase(s, c, Scanning(cfg + 1, 0));
      assert Segment(node, t) == Segment(node, s);
    } else {
      var n, chosen := i / ARP_PROBE_BATCH + 1, SetPhase(s, c, Chosen(cfg, choices[i]));
      ScanFinds(node, s, c, cfg, 0, i);
      RoundsAreOwn(c, n);
      assert Segment(node, chosen) == Segment(node, s);
      CreateIsTurn(node, chosen, c, cfg, choices[i]);
      steps, t := Rounds(c, n) + [Creates(c, false)], Create(node, chosen, c, false);
      OneStep(node, chosen, Creates(c, false));
      RunConcat(node, s, Rounds(c, n), [Creates(c, false)]);
      TurnFrom(node, s, chosen, t, c, cfg);
    }
  }

  lemma OneStep(node: Node, s: State, step: Step)
    requires ValidNode(node) && Enabled(node, s, step)
    ensures Run(node, s, [step]) == Some(Apply(node, s, step))
  {
    assert [step][1..] == [];
  }

  lemma TurnFrom(node: Node, s: State, chosen: State, t: State, c: nat, cfg: nat)
    requires ValidNode(node) && Has(s, c) && Has(chosen, c) && chosen == SetPhase(s, c, chosen.calls[c].phase)
    requires TurnDone(node, chosen, t, c, cfg)
    ensures TurnDone(node, s, t, c, cfg)
  {
    assert Segment(node, chosen) == Segment(node, s);
  }

  /** From network `cfg` on every network was served, and the call is over. */
  ghost predicate CallDone(node: Node, s: State, t: State, c: nat, cfg: nat)
    requires ValidNode(node) && Has(s, c)
  {
    && Has(t, c) && t.calls[c].phase.Ended? && t.holder.None? && t.pods == s.pods && Grown(s, t)
    && (forall slot :: slot in t.held && slot.pod != s.calls[c].pod ==> slot in s.held && t.held[slot] == s.held[slot])
    && (forall k :: cfg <= k < |node.nets| ==> Served(node, s, t, s.calls[c].pod, k))
  }

  lemma DoneAfterTurn(node: Node, s: State, mid: State, t: State, c: nat, cfg: nat)
    requires ValidNode(node) && Has(s, c) && cfg < |node.nets| && TurnDone(node, s, mid, c, cfg)
    requires CallDone(node, mid, t, c, cfg + 1)
    ensures CallDone(node, s, t, c, cfg)
  {
    forall k | cfg <= k < |node.nets|
      ensures Served(node, s, t, s.calls[c].pod, k)
    {
      if k == cfg {
        StaysServed(node, s, s, mid, t, s.calls[c].pod, k);
      } else {
        StaysServed(node, s, mid, t, t, s.calls[c].pod, k);
      }
    }
  }

  /** A full network does not keep the call from the ones after it. */
  lemma {:induction false} CallFrom(node: Node, s: State, c: nat, cfg: nat) returns (steps: seq<Step>, t: State)
    requires ValidNode(node) && Holds(s, c) && s.calls[c].phase == Scanning(cfg, 0) && cfg <= |node.nets|
    requires s.calls[c].pod in s.pods
    ensures Run(node, s, steps) == Some(t) && forall step :: step in steps ==> OwnStep(step, c)
    ensures CallDone(node, s, t, c, cfg)
    decreases |node.nets| - cfg
  {
    if cfg == |node.nets| {
      OneStep(node, s, Probes(c));
      steps, t := [Probes(c)], Apply(node, s, Probes(c));
    } else {
      var first, mid := NetworkTurn(node, s, c, cfg);
      var rest;
      rest, t := CallFrom(node, mid, c, cfg + 1);
      RunConcat(node, s, first, rest);
      DoneAfterTurn(node, s, mid, t, c, cfg);
      steps := first + rest;
    }
  }

  /**
   * A call that takes the lock and is left alone comes to its end and gives the lock back. Every network gets its pod a
   * link with an address that was free, unless all its candidates are in use, or its own address was a free candidate.
   */
  lemma CallServesAll(node: Node, s: State, c: nat) returns (steps: seq<Step>, t: State)
    requires ValidNode(node) && Has(s, c) && s.calls[c].phase.Waiting? && s.holder.None? && s.calls[c].pod in s.pods
    ensures Run(node, s, [Locks(c)] + steps) == Some(t) && forall step :: step in steps ==> OwnStep(step, c)
    ensures Has(t, c) && t.calls[c].phase.Ended? && t.holder.None? && t.pods == s.pods
    ensures forall k :: 0 <= k < |node.nets| ==> Served(node, s, t, s.calls[c].pod, k)
    ensures forall slot :: slot in t.held && slot.pod != s.calls[c].pod ==>
              slot in s.held && t.held[slot] == s.held[slot]
  {
    var locked := Apply(node, s, Locks(c));
    steps, t := CallFrom(node, locked, c, 0);
    assert ([Locks(c)] + steps)[1..] == steps;
    assert Segment(node, locked) == Segment(node, s);
    forall k | 0 <= k < |node.nets|
      ensures Served(node, s, t, s.calls[c].pod, k)
    {
      StaysServed(node, s, locked, t, t, s.calls[c].pod, k);
    }
  }
}
