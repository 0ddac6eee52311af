/**
 * Concurrent Setup calls of many pods on one node, with pods starting and dying at any time. The calls resolve network
 * placeholders with an exact probe; the only table of addresses in use is the live network itself.
 */
module SetupProtocol {
  import opened Sequences
  import opened Subnet
  import opened ArpProbe
  import opened Enrich

  /** The node's placeholder configs, the host's own address, and the addresses of machines other than pods. */
  datatype Node = Node(nets: seq<Net>, hostIP: Option<IP>, external: set<IP>)

  ghost predicate ValidNode(node: Node) {
    forall i :: 0 <= i < |node.nets| ==> ValidNet(node.nets[i])
  }

  function Choices(node: Node, cfg: nat): seq<IP>
    requires cfg < |node.nets| && ValidNet(node.nets[cfg])
  {
    Candidates(node.nets[cfg], node.hostIP, START_OCTET)
  }

  /** A pod's link for one config. */
  datatype Slot = Slot(pod: nat, cfg: nat)

  datatype Phase = Waiting | Scanning(cfg: nat, batch: nat) | Chosen(cfg: nat, ip: IP) | Ended

  /** A Setup call; `made` are the configs whose links it has created or reused. */
  datatype Call = Call(pod: nat, phase: Phase, made: set<nat>)

  datatype State = State(pods: set<nat>, calls: seq<Call>, holder: Option<nat>, held: map<Slot, set<IP>>)

  const INITIAL: State := State({}, [], None, map[])

  /** The addresses that answer on the segment. */
  ghost function Segment(node: Node, s: State): set<IP> {
    node.external + set slot, ip | slot in s.held && ip in s.held[slot] :: ip
  }

  datatype Step =
    | PodStarts(pod: nat)
    | PodDies(pod: nat)
    | Arrives(pod: nat)
    | Locks(call: nat)
    | Probes(call: nat)
    | Creates(call: nat, flushed: bool)
    | Fails(call: nat, own: bool)

  predicate Has(s: State, call: nat) {
    call < |s.calls|
  }

  predicate Holds(s: State, call: nat) {
    Has(s, call) && s.holder == Some(call)
  }

  /** Whether the step makes sense at all, the lock aside. */
  ghost predicate Fits(node: Node, s: State, step: Step) {
    match step
    case PodStarts(pod) => pod !in s.pods && forall slot :: slot in s.held ==> slot.pod != pod
    case PodDies(pod) => pod in s.pods
    case Arrives(pod) => pod in s.pods
    case Locks(c) => Has(s, c) && s.calls[c].phase.Waiting?
    case Probes(c) => Has(s, c) && s.calls[c].phase.Scanning?
    case Creates(c, _) => Has(s, c) && s.calls[c].phase.Chosen? && s.calls[c].phase.cfg < |node.nets|
        && s.calls[c].pod in s.pods
    case Fails(c, _) => Has(s, c) && s.calls[c].phase.Chosen?
  }

  /** What the lock allows; a narrow one would be given back between picking an address and creating the link. */
  predicate Unlocked(s: State, step: Step, narrow: bool) {
    match step
    case PodStarts(_) => true
    case PodDies(_) => true
    case Arrives(_) => true
    case Locks(_) => s.holder.None? || (narrow && Has(s, s.holder.value) && s.calls[s.holder.value].phase.Chosen?)
    case Probes(c) => Holds(s, c)
    case Creates(c, _) => narrow || Holds(s, c)
    case Fails(c, _) => narrow || Holds(s, c)
  }

  /** A step that the lock, held for the whole call, allows. */
  ghost predicate Enabled(node: Node, s: State, step: Step) {
    Fits(node, s, step) && Unlocked(s, step, false)
  }

  function SetPhase(s: State, c: nat, phase: Phase): State
    requires Has(s, c)
  {
    s.(calls := s.calls[c := s.calls[c].(phase := phase)])
  }

  /** The part of the candidates that one round probes. */
  function Batch(choices: seq<IP>, batch: nat): seq<IP> {
    var lo := batch * ARP_PROBE_BATCH;
    if lo >= |choices| then []
    else if lo + ARP_PROBE_BATCH > |choices| then choices[lo..] else choices[lo..lo + ARP_PROBE_BATCH]
  }

  /** One round: the first free address of the batch, or the next batch, or the next config, or the end of the call. */
  ghost function AfterProbe(node: Node, s: State, cfg: nat, batch: nat): Phase
    requires ValidNode(node)
  {
    if cfg >= |node.nets| then Ended
    else if batch * ARP_PROBE_BATCH >= |Choices(node, cfg)| then Scanning(cfg + 1, 0)
    else
      match LowestFree(Batch(Choices(node, cfg), batch), Segment(node, s))
      case Some(ip) => Chosen(cfg, ip)
      case None => Scanning(cfg, batch + 1)
  }

  ghost function Probe(node: Node, s: State, c: nat): State
    requires ValidNode(node) && Has(s, c) && s.calls[c].phase.Scanning?
  {
    var next := AfterProbe(node, s, s.calls[c].phase.cfg, s.calls[c].phase.batch);
    SetPhase(s, c, next).(holder := if next.Ended? then None else s.holder)
  }

  /**
   * A network address does not validate and is skipped; otherwise the link gets the address, keeping old ones if they
   * could not be flushed.
   */
  function Create(node: Node, s: State, c: nat, flushed: bool): State
    requires Has(s, c) && s.calls[c].phase.Chosen? && s.calls[c].phase.cfg < |node.nets|
  {
    var call := s.calls[c];
    var cfg, ip := call.phase.cfg, call.phase.ip;
    var slot := Slot(call.pod, cfg);
    if ip == node.nets[cfg].base then SetPhase(s, c, Scanning(cfg + 1, 0))
    else
      var kept := if flushed || slot !in s.held then {} else s.held[slot];
      s.(calls := s.calls[c := call.(phase := Scanning(cfg + 1, 0), made := call.made + {cfg})],
         held := s.held[slot := kept + {ip}])
  }

  /** Creation failed: the call's links are destroyed, with `own` also the one being made. */
  function Fail(s: State, c: nat, own: bool): State
    requires Has(s, c) && s.calls[c].phase.Chosen?
  {
    var call := s.calls[c];
    var gone := if own then call.made + {call.phase.cfg} else call.made;
    SetPhase(s, c, Ended)
    .(holder := None,
      held := map slot | slot in s.held && !(slot.pod == call.pod && slot.cfg in gone) :: s.held[slot])
  }

  ghost function Apply(node: Node, s: State, step: Step): State
    requires ValidNode(node) && Fits(node, s, step)
  {
    match step
    case PodStarts(pod) => s.(pods := s.pods + {pod})
    case PodDies(pod) =>
      s.(pods := s.pods - {pod}, held := map slot | slot in s.held && slot.pod != pod :: s.held[slot])
    case Arrives(pod) => s.(calls := s.calls + [Call(pod, Waiting, {})])
    case Locks(c) => SetPhase(s, c, Scanning(0, 0)).(holder := Some(c))
    case Probes(c) => Probe(node, s, c)
    case Creates(c, flushed) => Create(node, s, c, flushed)
    case Fails(c, own) => Fail(s, c, own)
  }

  /** The state after a run, if every step was possible when it was taken. */
  ghost function Run(node: Node, s: State, steps: seq<Step>, narrow: bool := false): Option<State>
    requires ValidNode(node)
    decreases |steps|
  {
    if steps == [] then Some(s)
    else if !(Fits(node, s, steps[0]) && Unlocked(s, steps[0], narrow)) then None
    else Run(node, Apply(node, s, steps[0]), steps[1..], narrow)
  }

  /** Within a batch, the first candidate silent in the batch's window is the first one free. */
  lemma {:induction false} SilentInBatch(choices: seq<IP>, round: nat -> seq<Recv>, batch: nat, segment: set<IP>,
                                         j: nat, end: nat)
    requires batch * ARP_PROBE_BATCH <= j <= end <= |choices| && end <= (batch + 1) * ARP_PROBE_BATCH
    requires forall k :: j <= k < end ==> (choices[k] in Heard(round(batch)) <==> choices[k] in segment)
    ensures var r := LowestFree(choices[j..end], segment);
            FirstSilent(choices, round, j) == if r.Some? then r else FirstSilent(choices, round, end)
    decreases end - j
  {
    if j < end {
      assert j / ARP_PROBE_BATCH == batch;
      assert choices[j..end][0] == choices[j] && choices[j..end][1..] == choices[j + 1..end];
      SilentInBatch(choices, round, batch, segment, j + 1, end);
    }
  }

  /**
   * A round of this machine is one batch of the probe: when its window hears from exactly what is then on the segment,
   * the search goes on, or ends, with the same address.
   */
  lemma RoundIsOneBatch(choices: seq<IP>, round: nat -> seq<Recv>, batch: nat, segment: set<IP>)
    requires batch * ARP_PROBE_BATCH < |choices|
    requires forall c :: c in Batch(choices, batch) ==> (c in Heard(round(batch)) <==> c in segment)
    ensures var r := LowestFree(Batch(choices, batch), segment);
            FirstSilent(choices, round, batch * ARP_PROBE_BATCH) ==
            if r.Some? then r else FirstSilent(choices, round, (batch + 1) * ARP_PROBE_BATCH)
  {
    var lo := batch * ARP_PROBE_BATCH;
    var end := if lo + ARP_PROBE_BATCH > |choices| then |choices| else lo + ARP_PROBE_BATCH;
    assert choices[lo..end] == Batch(choices, batch);
    assert forall k :: lo <= k < end ==> choices[k] == choices[lo..end][k - lo];
    SilentInBatch(choices, round, batch, segment, lo, end);
  }

  // ------------------------------------------------------------------
  // The invariant
  // ------------------------------------------------------------------

  /** Only the holder of the lock is past waiting. */
  ghost predicate LockOk(s: State) {
    forall c :: 0 <= c < |s.calls| ==> (s.calls[c].phase.Scanning? || s.calls[c].phase.Chosen? ==> s.holder == Some(c))
  }

  /** A chosen address is a candidate of its config that nobody holds. */
  ghost predicate ChosenOk(node: Node, s: State)
    requires ValidNode(node)
  {
    forall c :: 0 <= c < |s.calls| && s.calls[c].phase.Chosen? ==>
                  && s.calls[c].phase.cfg < |node.nets|
                  && s.calls[c].phase.ip in Choices(node, s.calls[c].phase.cfg)
                  && s.calls[c].phase.ip !in Segment(node, s)
  }

  /** Links belong to live pods and carry candidates of their config, never the network address. */
  ghost predicate HeldOk(node: Node, s: State)
    requires ValidNode(node)
  {
    forall slot :: slot in s.held ==>
                     && slot.pod in s.pods && slot.cfg < |node.nets|
                     && (forall ip :: ip in s.held[slot] ==>
                         ip in Choices(node, slot.cfg) && ip != node.nets[slot.cfg].base)
                     && s.held[slot] !! node.external
  }

  /** No two links share an address. */
  ghost predicate Unshared(s: State) {
    forall a, b :: a in s.held && b in s.held && a != b ==> s.held[a] !! s.held[b]
  }

  ghost predicate Inv(node: Node, s: State)
    requires ValidNode(node)
  {
    LockOk(s) && ChosenOk(node, s) && HeldOk(node, s) && Unshared(s)
  }

  /** Links can only disappear: what was free stays free. */
  lemma ShrinkKeeps(node: Node, s: State, t: State)
    requires ValidNode(node) && Inv(node, s)
    requires forall slot :: slot in t.held ==> slot in s.held && t.held[slot] == s.held[slot] && slot.pod in t.pods
    requires LockOk(t)
    requires forall c ::
        0 <= c < |t.calls| && t.calls[c].phase.Chosen? ==> c < |s.calls| && s.calls[c].phase == t.calls[c].phase
    ensures Inv(node, t) && Segment(node, t) <= Segment(node, s)
  {
  }

  lemma FoundInBatch(choices: seq<IP>, batch: nat, segment: set<IP>)
    ensures var r := LowestFree(Batch(choices, batch), segment); r.Some? ==> r.value in choices && r.value !in segment
  {
  }

  lemma ProbeKeepsInv(node: Node, s: State, c: nat)
    requires ValidNode(node) && Inv(node, s) && Enabled(node, s, Probes(c))
    ensures Inv(node, Probe(node, s, c))
  {
    var t := Probe(node, s, c);
    var cfg := s.calls[c].phase.cfg;
    if cfg < |node.nets| {
      FoundInBatch(Choices(node, cfg), s.calls[c].phase.batch, Segment(node, s));
    }
    assert Segment(node, t) == Segment(node, s);
  }

  lemma HeldAfterPut(node: Node, s: State, t: State, slot: Slot, ip: IP)
    requires ValidNode(node) && HeldOk(node, s) && Unshared(s) && ip !in Segment(node, s)
    requires slot.pod in s.pods && slot.cfg < |node.nets| && ip in Choices(node, slot.cfg)
        && ip != node.nets[slot.cfg].base
    requires t.pods == s.pods && t.held.Keys == s.held.Keys + {slot}
    requires forall a :: a in s.held && a != slot ==> t.held[a] == s.held[a]
    requires t.held[slot] <= (if slot in s.held then s.held[slot] else {}) + {ip}
    ensures HeldOk(node, t) && Unshared(t)
  {
    assert forall a :: a in s.held ==> ip !in s.held[a];
  }

  lemma CreateKeepsInv(node: Node, s: State, c: nat, flushed: bool)
    requires ValidNode(node) && Inv(node, s) && Enabled(node, s, Creates(c, flushed))
    ensures Inv(node, Create(node, s, c, flushed))
  {
    var t := Create(node, s, c, flushed);
    var slot, ip := Slot(s.calls[c].pod, s.calls[c].phase.cfg), s.calls[c].phase.ip;
    if ip != node.nets[slot.cfg].base {
      HeldAfterPut(node, s, t, slot, ip);
    }
  }

  lemma StepKeepsInv(node: Node, s: State, step: Step)
    requires ValidNode(node) && Inv(node, s) && Enabled(node, s, step)
    ensures Inv(node, Apply(node, s, step))
  {
    match step
    case PodStarts(_) => ShrinkKeeps(node, s, Apply(node, s, step));
    case PodDies(_) => ShrinkKeeps(node, s, Apply(node, s, step));
    case Arrives(_) => ShrinkKeeps(node, s, Apply(node, s, step));
    case Locks(_) => ShrinkKeeps(node, s, Apply(node, s, step));
    case Probes(c) => ProbeKeepsInv(node, s, c);
    case Creates(c, flushed) => CreateKeepsInv(node, s, c, flushed);
    case Fails(_, _) => ShrinkKeeps(node, s, Apply(node, s, step));
  }

  lemma {:induction false} RunKeepsInv(node: Node, s: State, steps: seq<Step>)
    requires ValidNode(node) && Inv(node, s)
    ensures Run(node, s, steps).Some? ==> Inv(node, Run(node, s, steps).value)
    decreases |steps|
  {
    if steps != [] && Enabled(node, s, steps[0]) {
      StepKeepsInv(node, s, steps[0]);
      RunKeepsInv(node, Apply(node, s, steps[0]), steps[1..]);
    }
  }

  /**
   * However calls, pod starts and pod deaths interleave, no address is ever on two links, or on a link and another
   * machine; every address in use is a proper host address of its config's network.
   */
  lemma NoSharedAddress(node: Node, steps: seq<Step>)
    requires ValidNode(node) && Run(node, INITIAL, steps).Some?
    ensures var s := Run(node, INITIAL, steps).value;
            && (forall a, b :: a in s.held && b in s.held && a != b ==> s.held[a] !! s.held[b])
            && (forall a :: a in s.held ==> s.held[a] !! node.external && a.pod in s.pods)
            && (forall a, ip :: a in s.held && ip in s.held[a] ==>
                                  a.cfg < |node.nets| && ip != node.nets[a.cfg].base
                                      && ip != Broadcast(node.nets[a.cfg])
                                  && Contains(node.nets[a.cfg], ip) && node.hostIP != Some(ip))
  {
    RunKeepsInv(node, INITIAL, steps);
    var s := Run(node, INITIAL, steps).value;
    forall a, ip | a in s.held && ip in s.held[a]
      ensures a.cfg < |node.nets| && ip != node.nets[a.cfg].base && Eligible(node.nets[a.cfg], node.hostIP, ip)
    {
      CandidatesMean(node.nets[a.cfg], node.hostIP, START_OCTET);
    }
  }

  // ------------------------------------------------------------------
  // Addresses come back
  // ------------------------------------------------------------------

  /** With its pod, an address leaves the segment. */
  lemma DeadAddressIsFree(node: Node, s: State, slot: Slot, ip: IP)
    requires ValidNode(node) && Inv(node, s) && slot in s.held && ip in s.held[slot]
    ensures ip in Segment(node, s) && ip !in Segment(node, Apply(node, s, PodDies(slot.pod)))
  {
    var t := Apply(node, s, PodDies(slot.pod));
    assert forall a :: a in t.held ==> ip !in t.held[a];
  }

  function Rounds(c: nat, n: nat): seq<Step> {
    if n == 0 then [] else [Probes(c)] + Rounds(c, n - 1)
  }

  lemma RunRound(node: Node, s: State, c: nat, n: nat)
    requires ValidNode(node) && Holds(s, c) && s.calls[c].phase.Scanning? && n > 0
    ensures Run(node, s, Rounds(c, n)) == Run(node, Probe(node, s, c), Rounds(c, n - 1))
  {
    assert Rounds(c, n)[1..] == Rounds(c, n - 1);
    assert Apply(node, s, Probes(c)) == Probe(node, s, c);
  }

  /** What a round does when the first free candidate is in its batch, and when it is further on. */
  lemma RoundFinds(choices: seq<IP>, segment: set<IP>, batch: nat, i: nat)
    requires batch * ARP_PROBE_BATCH <= i < |choices| && choices[i] !in segment
    requires forall j :: 0 <= j < i ==> choices[j] in segment
    ensures LowestFree(Batch(choices, batch), segment) ==
            if i < batch * ARP_PROBE_BATCH + ARP_PROBE_BATCH then Some(choices[i]) else None
  {
    var part, lo := Batch(choices, batch), batch * ARP_PROBE_BATCH;
    assert forall j :: 0 <= j < |part| ==> part[j] == choices[lo + j];
    if i < lo + ARP_PROBE_BATCH {
      LowestFreeMeans(part, segment, i - lo);
    }
  }

  /** A round before the first free candidate moves on to the next batch; the one that has it, chooses it. */
  lemma RoundGoes(node: Node, s: State, c: nat, i: nat)
    requires ValidNode(node) && Holds(s, c) && s.calls[c].phase.Scanning? && s.calls[c].phase.cfg < |node.nets|
    requires FirstFree(node, s, s.calls[c].phase.cfg, i) && s.calls[c].phase.batch * ARP_PROBE_BATCH <= i
    ensures var cfg, batch := s.calls[c].phase.cfg, s.calls[c].phase.batch;
            Probe(node, s, c) ==
            SetPhase(s, c, if i < (batch + 1) * ARP_PROBE_BATCH then Chosen(cfg, Choices(node, cfg)[i])
                     else Scanning(cfg, batch + 1))
  {
    RoundFinds(Choices(node, s.calls[c].phase.cfg), Segment(node, s), s.calls[c].phase.batch, i);
  }

  lemma PhaseTwice(s: State, c: nat, first: Phase, second: Phase)
    requires Has(s, c)
    ensures SetPhase(SetPhase(s, c, first), c, second) == SetPhase(s, c, second)
  {
    assert SetPhase(SetPhase(s, c, first), c, second).calls == SetPhase(s, c, second).calls;
  }

  /** Candidate `i` of a config is the first one that does not answer. */
  ghost predicate FirstFree(node: Node, s: State, cfg: nat, i: nat)
    requires ValidNode(node) && cfg < |node.nets|
  {
    && i < |Choices(node, cfg)| && Choices(node, cfg)[i] !in Segment(node, s)
    && (forall j :: 0 <= j < i ==> Choices(node, cfg)[j] in Segment(node, s))
  }

  lemma FirstFreeStays(node: Node, s: State, t: State, cfg: nat, i: nat)
    requires ValidNode(node) && cfg < |node.nets| && FirstFree(node, s, cfg, i) && t.held == s.held
    ensures FirstFree(node, t, cfg, i)
  {
    assert Segment(node, t) == Segment(node, s);
  }

  /** Left alone, a scan chooses the first candidate that is free, in the round whose batch contains it. */
  lemma {:induction false} ScanFinds(node: Node, s: State, c: nat, cfg: nat, batch: nat, i: nat)
    requires ValidNode(node) && Holds(s, c) && s.calls[c].phase == Scanning(cfg, batch) && cfg < |node.nets|
    requires FirstFree(node, s, cfg, i) && batch * ARP_PROBE_BATCH <= i
    ensures i / ARP_PROBE_BATCH >= batch
    ensures Run(node, s, Rounds(c, i / ARP_PROBE_BATCH - batch + 1)) ==
        Some(SetPhase(s, c, Chosen(cfg, Choices(node, cfg)[i])))
    decreases i - batch * ARP_PROBE_BATCH
  {
    var n := i / ARP_PROBE_BATCH - batch + 1;
    RunRound(node, s, c, n);
    RoundGoes(node, s, c, i);
    if i < (batch + 1) * ARP_PROBE_BATCH {
      assert n == 1;
    } else {
      var t := SetPhase(s, c, Scanning(cfg, batch + 1));
      FirstFreeStays(node, s, t, cfg, i);
      ScanFinds(node, t, c, cfg, batch + 1, i);
      PhaseTwice(s, c, Scanning(cfg, batch + 1), Chosen(cfg, Choices(node, cfg)[i]));
    }
  }

  /** An address freed by its pod's death is what the next scan chooses, when all candidates before it are in use. */
  lemma DeadAddressIsReused(node: Node, s: State, slot: Slot, c: nat, i: nat)
    requires ValidNode(node) && Inv(node, s) && slot in s.held && Holds(s, c)
    requires s.calls[c].phase == Scanning(slot.cfg, 0) && i < |Choices(node, slot.cfg)|
    requires Choices(node, slot.cfg)[i] in s.held[slot]
    requires var t := Apply(node, s, PodDies(slot.pod));
             forall j :: 0 <= j < i ==> Choices(node, slot.cfg)[j] in Segment(node, t)
    ensures var t := Apply(node, s, PodDies(slot.pod));
            Run(node, t, Rounds(c, i / ARP_PROBE_BATCH + 1)) ==
                Some(SetPhase(t, c, Chosen(slot.cfg, Choices(node, slot.cfg)[i])))
  {
    DeadAddressIsFree(node, s, slot, Choices(node, slot.cfg)[i]);
    ScanFinds(node, Apply(node, s, PodDies(slot.pod)), c, slot.cfg, 0, i);
  }

  // ------------------------------------------------------------------
  // Why the lock spans pick and create
  // ------------------------------------------------------------------

  const RACE: seq<Step> := [
    PodStarts(1), PodStarts(2), Arrives(1), Arrives(2),
    Locks(0), Probes(0), Locks(1), Probes(1),
    Creates(0, true), Creates(1, true)
  ]

  lemma RaceStep(node: Node, s: State, k: nat, t: State)
    requires ValidNode(node) && k < |RACE| && Fits(node, s, RACE[k]) && Unlocked(s, RACE[k], true)
    requires Apply(node, s, RACE[k]) == t
    ensures Run(node, s, RACE[k..], true) == Run(node, t, RACE[k + 1..], true)
  {
    assert RACE[k..][0] == RACE[k] && RACE[k..][1..] == RACE[k + 1..];
  }

  /** While no pod holds an address, the first round takes the first candidate. */
  lemma FirstPick(node: Node, s: State)
    requires ValidNode(node) && |node.nets| > 0 && |Choices(node, 0)| > 0 && s.held == map[]
    requires Choices(node, 0)[0] !in node.external
    ensures AfterProbe(node, s, 0, 0) == Chosen(0, Choices(node, 0)[0])
  {
    RoundFinds(Choices(node, 0), Segment(node, s), 0, 0);
  }

  lemma RacersArrive(node: Node)
    requires ValidNode(node)
    ensures Run(node, INITIAL, RACE, true) ==
            Run(node, State({1, 2}, [Call(1, Waiting, {}), Call(2, Waiting, {})], None, map[]), RACE[4..], true)
  {
    var pods: set<nat> := {1, 2};
    var w0, w1 := Call(1, Waiting, {}), Call(2, Waiting, {});
    assert RACE[0..] == RACE;
    RaceStep(node, INITIAL, 0, State({1}, [], None, map[]));
    RaceStep(node, State({1}, [], None, map[]), 1, State(pods, [], None, map[]));
    RaceStep(node, State(pods, [], None, map[]), 2, State(pods, [w0], None, map[]));
    RaceStep(node, State(pods, [w0], None, map[]), 3, State(pods, [w0, w1], None, map[]));
  }

  lemma RacersPick(node: Node, ip: IP)
    requires ValidNode(node) && |node.nets| > 0 && |Choices(node, 0)| > 0
    requires ip == Choices(node, 0)[0] && ip !in node.external
    ensures Run(node, State({1, 2}, [Call(1, Waiting, {}), Call(2, Waiting, {})], None, map[]), RACE[4..], true) ==
            Run(node, State({1, 2}, [Call(1, Chosen(0, ip), {}), Call(2, Chosen(0, ip), {})], Some(1), map[]),
                RACE[8..], true)
  {
    var pods: set<nat> := {1, 2};
    var w0, w1 := Call(1, Waiting, {}), Call(2, Waiting, {});
    var p0, p1 := Call(1, Scanning(0, 0), {}), Call(2, Scanning(0, 0), {});
    var c0, c1 := Call(1, Chosen(0, ip), {}), Call(2, Chosen(0, ip), {});
    var s5, s7 := State(pods, [p0, w1], Some(0), map[]), State(pods, [c0, p1], Some(1), map[]);
    RaceStep(node, State(pods, [w0, w1], None, map[]), 4, s5);
    FirstPick(node, s5);
    RaceStep(node, s5, 5, State(pods, [c0, w1], Some(0), map[]));
    RaceStep(node, State(pods, [c0, w1], Some(0), map[]), 6, s7);
    FirstPick(node, s7);
    RaceStep(node, s7, 7, State(pods, [c0, c1], Some(1), map[]));
  }

  lemma RacersCreate(node: Node, ip: IP)
    requires ValidNode(node) && |node.nets| > 0 && ip != node.nets[0].base
    ensures Run(node, State({1, 2}, [Call(1, Chosen(0, ip), {}), Call(2, Chosen(0, ip), {})], Some(1), map[]),
                RACE[8..], true) ==
            Some(State({1, 2}, [Call(1, Scanning(1, 0), {0}), Call(2, Scanning(1, 0), {0})], Some(1),
                       map[Slot(1, 0) := {ip}, Slot(2, 0) := {ip}]))
  {
    var pods: set<nat> := {1, 2};
    var c0, c1 := Call(1, Chosen(0, ip), {}), Call(2, Chosen(0, ip), {});
    var d0, d1 := Call(1, Scanning(1, 0), {0}), Call(2, Scanning(1, 0), {0});
    var one: map<Slot, set<IP>> := map[Slot(1, 0) := {ip}];
    assert {} + {ip} == {ip} && c0.made + {0} == {0} && c1.made + {0} == {0};
    RaceStep(node, State(pods, [c0, c1], Some(1), map[]), 8, State(pods, [d0, c1], Some(1), one));
    RaceStep(node, State(pods, [d0, c1], Some(1), one), 9, State(pods, [d0, d1], Some(1), one[Slot(2, 0) := {ip}]));
    assert RACE[10..] == [];
  }

  /** With the lock given back after the pick, two pods get the same address, whatever the node's first network. */
  lemma NarrowLockShares(node: Node)
    requires ValidNode(node) && |node.nets| > 0 && |Choices(node, 0)| > 0
    requires Choices(node, 0)[0] !in node.external && Choices(node, 0)[0] != node.nets[0].base
    ensures var ip, end := Choices(node, 0)[0], Run(node, INITIAL, RACE, true);
            && end.Some? && end.value.pods == {1, 2}
            && end.value.held == map[Slot(1, 0) := {ip}, Slot(2, 0) := {ip}]
  {
    RacersArrive(node);
    RacersPick(node, Choices(node, 0)[0]);
    RacersCreate(node, Choices(node, 0)[0]);
  }
}
