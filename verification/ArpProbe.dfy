/** Active ARP probing: request and reply frames, one probed batch, and the search over all batches. */
module ArpProbe {
  import opened Sequences
  import opened Subnet

  type Frame = seq<byte>

  // ------------------------------------------------------------------
  // Frames
  // ------------------------------------------------------------------

  function Octets(ip: IP): (s: seq<byte>)
    ensures |s| == 4
  {
    [ip.a, ip.b, ip.c, ip.d]
  }

  /** Six bytes of hardware address: what `copy` leaves in a zeroed field. */
  function MacField(mac: seq<byte>): (s: seq<byte>)
    ensures |s| == 6
  {
    seq(6, i requires 0 <= i => if i < |mac| then mac[i] else 0)
  }

  function SourceField(ip: Option<IP>): (s: seq<byte>)
    ensures |s| == 4
  {
    if ip.Some? then Octets(ip.value) else [0, 0, 0, 0]
  }

  /** Ethernet and IPv4, with the given operation code. */
  function ArpHeader(op: byte): (s: seq<byte>)
    ensures |s| == 10
  {
    [0x08, 0x06, 0x00, 0x01, 0x08, 0x00, 6, 4, 0x00, op]
  }

  /** The 42 bytes of an ARP frame of RFC 826 on Ethernet. */
  function ArpFrame(dst: seq<byte>, op: byte, sha: seq<byte>, spa: seq<byte>, tha: seq<byte>,
                    tpa: seq<byte>): (f: Frame)
    requires |dst| == 6 && |sha| == 6 && |spa| == 4 && |tha| == 6 && |tpa| == 4
    ensures |f| == 42
  {
    dst + sha + ArpHeader(op) + sha + spa + tha + tpa
  }

  const BROADCAST_MAC: seq<byte> := [0xFF, 0xFF, 0xFF, 0xFF, 0xFF, 0xFF]
  const NO_MAC: seq<byte> := [0, 0, 0, 0, 0, 0]

  function Request(mac: seq<byte>, src: Option<IP>, dst: IP): Frame {
    ArpFrame(BROADCAST_MAC, 1, MacField(mac), SourceField(src), NO_MAC, Octets(dst))
  }

  /** `n` zero bytes. */
  function Padding(n: nat): (s: Frame)
    ensures |s| == n
  {
    seq(n, _ => 0)
  }

  /** A packet whose bytes from `lo` on are `data`, and otherwise those of `before`. */
  ghost predicate Overlaid(pkt: seq<byte>, before: seq<byte>, lo: nat, data: seq<byte>) {
    && |pkt| == |before| && lo + |data| <= |pkt|
    && (forall i :: 0 <= i < |pkt| ==> pkt[i] == if lo <= i < lo + |data| then data[i - lo] else before[i])
  }

  function Fitting(data: seq<byte>, width: nat): seq<byte> {
    if |data| < width then data else data[..width]
  }

  /** Go's copy into the zeroed field of `width` bytes at `lo`: as much of `data` as fits. */
  method CopyInto(pkt: array<byte>, lo: nat, width: nat, data: seq<byte>)
    requires lo + width <= pkt.Length
    modifies pkt
    ensures Overlaid(pkt[..], old(pkt[..]), lo, Fitting(data, width))
  {
    var k := 0;
    while k < width && k < |data|
      invariant 0 <= k <= width && k <= |data|
      invariant Overlaid(pkt[..], old(pkt[..]), lo, data[..k])
    {
      pkt[lo + k] := data[k];
      k := k + 1;
    }
    assert k == |data| ==> data[..k] == data;
  }

  method WriteHeader(pkt: array<byte>)
    requires pkt.Length >= 42
    modifies pkt
    ensures Overlaid(pkt[..], old(pkt[..]), 12, ArpHeader(1))
  {
    pkt[12], pkt[13] := 0x08, 0x06;
    pkt[14], pkt[15] := 0x00, 0x01;
    pkt[16], pkt[17] := 0x08, 0x00;
    pkt[18] := 6;
    pkt[19] := 4;
    pkt[20], pkt[21] := 0x00, 0x01;
  }

  /** Byte by byte, what the writes below leave in a zeroed packet. */
  lemma RequestBytes(mac: seq<byte>, src: Option<IP>, dst: IP, padding: Frame, i: nat)
    requires i < 42 + |padding|
    ensures (Request(mac, src, dst) + padding)[i] ==
            if i < 6 then 0xFF
            else if i < 12 then MacField(mac)[i - 6]
            else if i < 22 then ArpHeader(1)[i - 12]
            else if i < 28 then MacField(mac)[i - 22]
            else if i < 32 then SourceField(src)[i - 28]
            else if i < 38 then 0
            else if i < 42 then Octets(dst)[i - 38]
            else padding[i - 42]
  {
  }

  /** Six writes into a zeroed packet make the request. */
  lemma WritesMakeRequest(s: seq<seq<byte>>, mac: seq<byte>, src: Option<IP>, dst: IP)
    requires |s| == 7 && |s[0]| >= 42 && s[0] == Padding(|s[0]|)
    requires Overlaid(s[1], s[0], 0, BROADCAST_MAC) && Overlaid(s[2], s[1], 6, Fitting(mac, 6))
    requires Overlaid(s[3], s[2], 12, ArpHeader(1)) && Overlaid(s[4], s[3], 22, Fitting(mac, 6))
    requires Overlaid(s[5], s[4], 28, if src.Some? then Octets(src.value) else [])
    requires Overlaid(s[6], s[5], 38, Octets(dst))
    ensures s[6] == Request(mac, src, dst) + Padding(|s[0]| - 42)
  {
    var r := Request(mac, src, dst) + Padding(|s[0]| - 42);
    forall i | 0 <= i < |s[6]|
      ensures s[6][i] == r[i]
    {
      RequestBytes(mac, src, dst, Padding(|s[0]| - 42), i);
    }
  }

  method BuildARPRequestInto(pkt: array<byte>, srcMAC: seq<byte>, srcIP: Option<IP>, dstIP: IP)
    requires pkt.Length >= 42
    modifies pkt
    ensures pkt[..] == Request(srcMAC, srcIP, dstIP) + Padding(pkt.Length - 42)
  {
    for i := 0 to pkt.Length
      invariant forall k :: 0 <= k < i ==> pkt[k] == 0
    {
      pkt[i] := 0;
    }
    ghost var s := [pkt[..]];
    CopyInto(pkt, 0, 6, BROADCAST_MAC);
    s := s + [pkt[..]];
    CopyInto(pkt, 6, 6, srcMAC);
    s := s + [pkt[..]];
    WriteHeader(pkt);
    s := s + [pkt[..]];
    CopyInto(pkt, 22, 6, srcMAC);
    s := s + [pkt[..]];
    CopyInto(pkt, 28, 4, if srcIP.Some? then Octets(srcIP.value) else []);
    s := s + [pkt[..]];
    CopyInto(pkt, 38, 4, Octets(dstIP));
    s := s + [pkt[..]];
    WritesMakeRequest(s, srcMAC, srcIP, dstIP);
  }

  /** The sender's address of an ARP reply. */
  function ParseARPReply(frame: Frame): Option<IP> {
    if |frame| < 42 then None
    else if frame[12] != 0x08 || frame[13] != 0x06 then None
    else if frame[20] != 0x00 || frame[21] != 0x02 then None
    else Some(IP(frame[28], frame[29], frame[30], frame[31]))
  }

  /** What a host with hardware address `mac` sends back: the target becomes the sender (RFC 826, packet reception). */
  function ReplyTo(request: Frame, mac: seq<byte>): Frame
    requires |request| >= 42
  {
    ArpFrame(request[22..28], 2, MacField(mac), request[38..42], request[22..28], request[28..32])
  }

  /** The probe never takes its own request for a reply, however the packet is padded. */
  lemma RequestIsNoReply(mac: seq<byte>, src: Option<IP>, dst: IP, padding: Frame)
    ensures ParseARPReply(Request(mac, src, dst) + padding) == None
  {
    var f := Request(mac, src, dst) + padding;
    assert f[21] == 1;
  }

  /** The answer to a request for `dst` is read as coming from `dst`. */
  lemma ReplyNamesTheTarget(mac: seq<byte>, src: Option<IP>, dst: IP, padding: Frame, owner: seq<byte>, trailer: Frame)
    ensures ParseARPReply(ReplyTo(Request(mac, src, dst) + padding, owner) + trailer) == Some(dst)
  {
    var f := Request(mac, src, dst) + padding;
    assert f[38..42] == Octets(dst);
    var r := ReplyTo(f, owner) + trailer;
    assert r[12] == 0x08 && r[13] == 0x06 && r[20] == 0x00 && r[21] == 0x02;
    assert r[28] == dst.a && r[29] == dst.b && r[30] == dst.c && r[31] == dst.d;
  }

  // ------------------------------------------------------------------
  // One batch
  // ------------------------------------------------------------------

  /** One receive call inside the window: a frame, an expired wait, or another error, which ends the window. */
  datatype Recv = Got(frame: Frame) | TimedOut | Failed

  function Answer(recv: Recv): set<IP> {
    if recv.Got? && ParseARPReply(recv.frame).Some? then {ParseARPReply(recv.frame).value} else {}
  }

  /** The addresses heard from in a window. */
  function Heard(inbox: seq<Recv>): set<IP> {
    if inbox == [] || inbox[0].Failed? then {} else Answer(inbox[0]) + Heard(inbox[1..])
  }

  lemma AllReplied(replied: set<IP>, want: set<IP>)
    requires replied <= want && |replied| >= |want|
    ensures replied == want
  {
    assert |want - replied| == |want| - |replied|;
  }

  function Asked(candidates: seq<IP>): set<IP> {
    set c | c in candidates
  }

  /** The receive loop. Leaving the window early, once everyone has answered, makes no difference. */
  method CollectReplies(want: set<IP>, inbox: seq<Recv>) returns (replied: set<IP>)
    ensures replied == Heard(inbox) * want
  {
    replied := {};
    var i := 0;
    while i < |inbox|
      invariant 0 <= i <= |inbox|
      invariant replied <= want
      invariant replied + Heard(inbox[i..]) * want == Heard(inbox) * want
    {
      if |replied| >= |want| {
        AllReplied(replied, want);
        break;
      }
      assert inbox[i..][1..] == inbox[i + 1..];
      var recv := inbox[i];
      i := i + 1;
      if recv.TimedOut? {
        continue;
      }
      if recv.Failed? {
        break;
      }
      var spa := ParseARPReply(recv.frame);
      if spa.Some? && spa.value in want {
        replied := replied + {spa.value};
      }
    }
  }

  /** Asked minus heard. */
  method ProbeBatchFree(candidates: seq<IP>, inbox: seq<Recv>) returns (free: set<IP>)
    ensures free == Asked(candidates) - Heard(inbox)
  {
    var replied := CollectReplies(Asked(candidates), inbox);
    free := {};
    for k := 0 to |candidates|
      invariant free == Asked(candidates[..k]) - replied
    {
      if candidates[k] !in replied {
        free := free + {candidates[k]};
      }
    }
    assert candidates[..|candidates|] == candidates;
  }

  // ------------------------------------------------------------------
  // All batches
  // ------------------------------------------------------------------

  const ARP_PROBE_BATCH := 16

  /** The probe as the environment lets it run: no socket, or what each window receives. */
  datatype Probe = Unavailable | Socket(selfTest: seq<Recv>, round: nat -> seq<Recv>)

  /** Unreadable, or the addresses with a resolved hardware address. */
  type ArpCache = Option<set<IP>>

  datatype Pick = Picked(ip: IP) | NoneFree | Panics

  function AsPick(ip: Option<IP>): Pick {
    if ip.Some? then Picked(ip.value) else NoneFree
  }

  /** The first candidate from `i` on that its own batch's window did not hear from. */
  function FirstSilent(candidates: seq<IP>, round: nat -> seq<Recv>, i: nat): Option<IP>
    decreases |candidates| - i
  {
    if i >= |candidates| then None
    else if candidates[i] !in Heard(round(i / ARP_PROBE_BATCH)) then Some(candidates[i])
    else FirstSilent(candidates, round, i + 1)
  }

  /** Without a usable probe; writing the host's address into the map of an unreadable cache panics. */
  function PassivePick(net: Net, hostIP: Option<IP>, startOctet: int, cache: ArpCache): Pick
    requires ValidNet(net)
  {
    if cache.None? && hostIP.Some? then Panics
    else
      var used := if cache.Some? then cache.value else {};
      var host := if hostIP.Some? then {hostIP.value} else {};
      AsPick(LowestFree(Candidates(net, None, startOctet), used + host))
  }

  /** A socket, through which the host, if its address is known, hears itself. */
  predicate Usable(probe: Probe, hostIP: Option<IP>) {
    probe.Socket? && (hostIP.Some? ==> hostIP.value in Heard(probe.selfTest))
  }

  function ProbePick(net: Net, hostIP: Option<IP>, startOctet: int, probe: Probe, cache: ArpCache): Pick
    requires ValidNet(net)
  {
    var candidates := Candidates(net, hostIP, startOctet);
    if candidates == [] then NoneFree
    else if Usable(probe, hostIP) then AsPick(FirstSilent(candidates, probe.round, 0))
    else PassivePick(net, hostIP, startOctet, cache)
  }

  method RunPassivePick(net: Net, hostIP: Option<IP>, startOctet: int, cache: ArpCache) returns (r: Pick)
    requires ValidNet(net)
    ensures r == PassivePick(net, hostIP, startOctet, cache)
  {
    var used := if cache.Some? then cache.value else {};
    if hostIP.Some? {
      if cache.None? {
        return Panics;
      }
      used := used + {hostIP.value};
    } else {
      assert used + {} == used;
    }
    var ip := PickUnusedIP(net, used, startOctet);
    return AsPick(ip);
  }

  /** One batch: the first silent candidate in it, if any. */
  method PickFromBatch(candidates: seq<IP>, round: nat -> seq<Recv>, i: nat, end: nat) returns (r: Option<IP>)
    requires i % ARP_PROBE_BATCH == 0 && i < end <= |candidates| && end <= i + ARP_PROBE_BATCH
    ensures r.Some? ==> r == FirstSilent(candidates, round, i)
    ensures r.None? ==> FirstSilent(candidates, round, i) == FirstSilent(candidates, round, end)
  {
    var free := ProbeBatchFree(candidates[i..end], round(i / ARP_PROBE_BATCH));
    for j := i to end
      invariant FirstSilent(candidates, round, i) == FirstSilent(candidates, round, j)
    {
      assert j / ARP_PROBE_BATCH == i / ARP_PROBE_BATCH;
      assert candidates[i..end][j - i] == candidates[j];
      if candidates[j] in free {
        return Some(candidates[j]);
      }
    }
    return None;
  }

  method PickFromAll(candidates: seq<IP>, round: nat -> seq<Recv>) returns (r: Option<IP>)
    ensures r == FirstSilent(candidates, round, 0)
  {
    var i := 0;
    while i < |candidates|
      invariant 0 <= i && i % ARP_PROBE_BATCH == 0
      invariant FirstSilent(candidates, round, 0) == FirstSilent(candidates, round, i)
    {
      var end := i + ARP_PROBE_BATCH;
      if end > |candidates| {
        end := |candidates|;
      }
      r := PickFromBatch(candidates, round, i, end);
      if r.Some? {
        return;
      }
      i := i + ARP_PROBE_BATCH;
    }
    return None;
  }

  method ProbeFreeIP(net: Net, hostIP: Option<IP>, startOctet: int, probe: Probe, cache: ArpCache) returns (r: Pick)
    requires ValidNet(net)
    ensures r == ProbePick(net, hostIP, startOctet, probe, cache)
  {
    var candidates := CandidateIPs(net, hostIP, startOctet);
    if |candidates| == 0 {
      return NoneFree;
    }
    if probe.Unavailable? {
      r := RunPassivePick(net, hostIP, startOctet, cache);
      return;
    }
    if hostIP.Some? {
      var free := ProbeBatchFree([hostIP.value], probe.selfTest);
      assert hostIP.value in Asked([hostIP.value]);
      if hostIP.value in free {
        r := RunPassivePick(net, hostIP, startOctet, cache);
        return;
      }
    }
    var ip := PickFromAll(candidates, probe.round);
    return AsPick(ip);
  }

  // ------------------------------------------------------------------
  // Batched probing refines linear search
  // ------------------------------------------------------------------

  /** Each batch's window hears from exactly those of its candidates that are on the segment. */
  ghost predicate Exact(candidates: seq<IP>, round: nat -> seq<Recv>, segment: set<IP>) {
    forall i :: 0 <= i < |candidates| ==>
        (candidates[i] in Heard(round(i / ARP_PROBE_BATCH)) <==> candidates[i] in segment)
  }

  lemma {:induction false} SilentIsFree(candidates: seq<IP>, round: nat -> seq<Recv>, segment: set<IP>, i: nat)
    requires Exact(candidates, round, segment) && i <= |candidates|
    ensures FirstSilent(candidates, round, i) == LowestFree(candidates[i..], segment)
    decreases |candidates| - i
  {
    if i < |candidates| {
      SilentIsFree(candidates, round, segment, i + 1);
      assert candidates[i..][1..] == candidates[i + 1..];
    }
  }

  /** A usable, exact probe picks the first candidate not on the segment, whatever the number of batches. */
  lemma ProbeRefinesLinearSearch(net: Net, hostIP: Option<IP>, startOctet: int, probe: Probe, cache: ArpCache,
                                 segment: set<IP>)
    requires ValidNet(net) && Usable(probe, hostIP)
    requires Exact(Candidates(net, hostIP, startOctet), probe.round, segment)
    ensures ProbePick(net, hostIP, startOctet, probe, cache) ==
        AsPick(LowestFree(Candidates(net, hostIP, startOctet), segment))
  {
    var candidates := Candidates(net, hostIP, startOctet);
    SilentIsFree(candidates, probe.round, segment, 0);
    assert candidates[0..] == candidates;
  }

  /** The fallback panics exactly when it is reached with the cache unreadable and the host's address known. */
  lemma PanicsExactly(net: Net, hostIP: Option<IP>, startOctet: int, probe: Probe, cache: ArpCache)
    requires ValidNet(net)
    ensures ProbePick(net, hostIP, startOctet, probe, cache) == Panics <==>
            Candidates(net, hostIP, startOctet) != [] && !Usable(probe, hostIP) && hostIP.Some? && cache.None?
  {
  }

  /** Without a socket, with the host at 10.0.0.1 and its cache unreadable, the pick in 10.0.0.0/24 panics. */
  lemma PanicExample(net: Net)
    requires net == Net(IP(10, 0, 0, 0), 24)
    ensures ValidNet(net) && ProbePick(net, Some(IP(10, 0, 0, 1)), 100, Unavailable, None) == Panics
  {
    var ip, host := IP(10, 0, 0, 2), Some(IP(10, 0, 0, 1));
    assert Pow2(8) == 256;
    ClearedAll(0, 8);
    ClearedAll(ip.d, 8);
    assert Masked(net.base, 24) == net.base == Masked(ip, 24);
    assert Filled(net.base.d, 8) == 2 * Filled(net.base.d / 2, 7) + 1;
    assert ip == WithLast(net, ip.d) && Eligible(net, host, ip);
    CandidatesMean(net, host, 100);
    PanicsExactly(net, host, 100, Unavailable, None);
  }

  // ------------------------------------------------------------------
  // When a window is exact
  // ------------------------------------------------------------------

  lemma {:induction false} HeardIs(inbox: seq<Recv>, ip: IP)
    requires forall i :: 0 <= i < |inbox| ==> !inbox[i].Failed?
    ensures ip in Heard(inbox) <==> exists i :: 0 <= i < |inbox| && ip in Answer(inbox[i])
  {
    if inbox != [] {
      HeardIs(inbox[1..], ip);
      if ip in Heard(inbox[1..]) {
        var i :| 0 <= i < |inbox[1..]| && ip in Answer(inbox[1..][i]);
        assert inbox[i + 1] == inbox[1..][i];
      }
      if i :| 0 <= i < |inbox| && ip in Answer(inbox[i]) {
        assert i > 0 ==> inbox[1..][i - 1] == inbox[i];
      }
    }
  }

  /** Every holder of a probed address answers its request in time, and only holders answer. */
  ghost predicate LiveWindow(batch: seq<IP>, inbox: seq<Recv>, segment: set<IP>, mac: seq<byte>, src: Option<IP>) {
    && (forall i :: 0 <= i < |inbox| ==> !inbox[i].Failed? && Answer(inbox[i]) <= segment)
    && (forall c :: c in batch && c in segment ==>
                      exists i, owner :: 0 <= i < |inbox| && inbox[i] == Got(ReplyTo(Request(mac, src, c), owner)))
  }

  /** Such a window separates the free candidates from the used ones. */
  lemma LiveWindowSeparates(batch: seq<IP>, inbox: seq<Recv>, segment: set<IP>, mac: seq<byte>, src: Option<IP>, c: IP)
    requires LiveWindow(batch, inbox, segment, mac, src) && c in batch
    ensures c in Heard(inbox) <==> c in segment
  {
    HeardIs(inbox, c);
    if c in segment {
      var i, owner :| 0 <= i < |inbox| && inbox[i] == Got(ReplyTo(Request(mac, src, c), owner));
      ReplyNamesTheTarget(mac, src, c, [], owner, []);
      assert Request(mac, src, c) + [] == Request(mac, src, c);
      assert ReplyTo(Request(mac, src, c), owner) + [] == ReplyTo(Request(mac, src, c), owner);
      assert c in Answer(inbox[i]);
    }
  }
}
