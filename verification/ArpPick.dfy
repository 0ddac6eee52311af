/** The address that is picked, told from what the probe's socket receives and what the ARP cache holds. */
module ArpPick {
  import opened Sequences
  import opened Subnet
  import opened ArpProbe

  // ------------------------------------------------------------------
  // Frames and windows
  // ------------------------------------------------------------------

  /** An ARP frame taken apart: a reply is told by its ether type and operation alone, and names the sender. */
  lemma ReplyBytes(macs: seq<byte>, etherType: seq<byte>, kinds: seq<byte>, op: seq<byte>, sha: seq<byte>, ip: IP,
                   rest: seq<byte>)
    requires |macs| == 12 && |etherType| == 2 && |kinds| == 6 && |op| == 2 && |sha| == 6
    ensures ParseARPReply(macs + etherType + kinds + op + sha + Octets(ip) + rest) ==
            if |rest| >= 10 && etherType == [0x08, 0x06] && op == [0, 2] then Some(ip) else None
  {
    var f := macs + etherType + kinds + op + sha + Octets(ip) + rest;
    assert f[12] == etherType[0] && f[13] == etherType[1] && f[20] == op[0] && f[21] == op[1];
    assert f[28] == ip.a && f[29] == ip.b && f[30] == ip.c && f[31] == ip.d;
  }

  /** A request byte by byte, as RFC 826 lays it out for IPv4 on Ethernet. */
  lemma RequestOnWire(mac: seq<byte>, src: IP, dst: IP)
    requires |mac| == 6
    ensures var f := Request(mac, Some(src), dst);
            && |f| == 42 && f[..6] == [0xFF, 0xFF, 0xFF, 0xFF, 0xFF, 0xFF] && f[6..12] == mac
            && f[12..22] == [0x08, 0x06, 0x00, 0x01, 0x08, 0x00, 6, 4, 0x00, 0x01] && f[22..28] == mac
            && f[28..32] == [src.a, src.b, src.c, src.d] && f[32..38] == [0, 0, 0, 0, 0, 0]
            && f[38..] == [dst.a, dst.b, dst.c, dst.d]
  {
    assert MacField(mac) == mac;
  }

  /** Some frame of the window, before any error that ends it, is a reply from `ip`. */
  ghost predicate Named(window: seq<Recv>, ip: IP) {
    exists i :: 0 <= i < |window| && NamedBy(window, i, ip)
  }

  ghost predicate NamedBy(window: seq<Recv>, i: nat, ip: IP)
    requires i < |window|
  {
    && window[i].Got? && ParseARPReply(window[i].frame) == Some(ip)
    && forall j :: 0 <= j < i ==> !window[j].Failed?
  }

  lemma {:induction false} HeardIsNamed(window: seq<Recv>, ip: IP)
    ensures ip in Heard(window) <==> Named(window, ip)
  {
    if window != [] && !window[0].Failed? {
      var rest := window[1..];
      HeardIsNamed(rest, ip);
      if ip in Answer(window[0]) {
        assert NamedBy(window, 0, ip);
      } else if ip in Heard(rest) {
        var i :| 0 <= i < |rest| && NamedBy(rest, i, ip);
        assert window[i + 1] == rest[i];
        assert forall j :: 0 < j < i + 1 ==> window[j] == rest[j - 1];
        assert NamedBy(window, i + 1, ip);
      }
      if i :| 0 <= i < |window| && NamedBy(window, i, ip) {
        if i > 0 {
          assert rest[i - 1] == window[i];
          assert forall j :: 0 <= j < i - 1 ==> rest[j] == window[j + 1];
          assert NamedBy(rest, i - 1, ip);
        }
      }
    }
  }

  // ------------------------------------------------------------------
  // The pick
  // ------------------------------------------------------------------

  /** The first candidate that is free: every one before it is taken; or none, when all are. */
  ghost predicate IsFirstFree(r: Pick, candidates: seq<IP>, taken: set<nat>) {
    match r
    case Panics => false
    case NoneFree => forall k :: 0 <= k < |candidates| ==> k in taken
    case Picked(ip) =>
      exists k :: 0 <= k < |candidates| && candidates[k] == ip && k !in taken && forall j :: 0 <= j < k ==> j in taken
  }

  /** The candidates, by position, that their batch of sixteen heard from. */
  ghost function HeardFrom(candidates: seq<IP>, round: nat -> seq<Recv>): set<nat> {
    set k | 0 <= k < |candidates| && Named(round(k / 16), candidates[k])
  }

  ghost function Cached(candidates: seq<IP>, cache: set<IP>): set<nat> {
    set k | 0 <= k < |candidates| && candidates[k] in cache
  }

  lemma {:induction false} FirstSilentIs(candidates: seq<IP>, round: nat -> seq<Recv>, i: nat)
    requires i <= |candidates| && forall j :: 0 <= j < i ==> j in HeardFrom(candidates, round)
    ensures IsFirstFree(AsPick(FirstSilent(candidates, round, i)), candidates, HeardFrom(candidates, round))
    decreases |candidates| - i
  {
    if i < |candidates| {
      HeardIsNamed(round(i / 16), candidates[i]);
      if candidates[i] in Heard(round(i / 16)) {
        FirstSilentIs(candidates, round, i + 1);
      } else {
        assert i !in HeardFrom(candidates, round);
      }
    }
  }

  lemma {:induction false} LowestFreeIs(candidates: seq<IP>, cache: set<IP>, i: nat)
    requires i <= |candidates| && forall j :: 0 <= j < i ==> candidates[j] in cache
    ensures IsFirstFree(AsPick(LowestFree(candidates[i..], cache)), candidates, Cached(candidates, cache))
    decreases |candidates| - i
  {
    if i < |candidates| {
      assert candidates[i..][0] == candidates[i] && candidates[i..][1..] == candidates[i + 1..];
      if candidates[i] in cache {
        LowestFreeIs(candidates, cache, i + 1);
      } else {
        assert i !in Cached(candidates, cache);
      }
    }
  }

  lemma PassiveIs(net: Net, hostIP: Option<IP>, startOctet: int, cache: ArpCache)
    requires ValidNet(net) && (cache.Some? || hostIP.None?)
    ensures var candidates := Candidates(net, hostIP, startOctet);
            IsFirstFree(PassivePick(net, hostIP, startOctet, cache), candidates,
                        Cached(candidates, if cache.Some? then cache.value else {}))
  {
    var candidates, used := Candidates(net, hostIP, startOctet), if cache.Some? then cache.value else {};
    assert candidates[0..] == candidates;
    LowestFreeIs(candidates, used, 0);
    if hostIP.Some? {
      HostUsedOrExcluded(net, hostIP.value, used, startOctet);
    } else {
      assert used + {} == used;
    }
  }

  /**
   * The pick, for every input. With a socket whose self-test window, if there is a host address, names the host, it is
   * the first candidate its batch of sixteen did not hear from. Otherwise it is the first candidate not in the ARP
   * cache, or a panic when the cache is unreadable and the host's address known. The host is never a candidate.
   */
  lemma PickMeans(net: Net, hostIP: Option<IP>, startOctet: int, probe: Probe, cache: ArpCache)
    requires ValidNet(net)
    ensures var candidates, r := Candidates(net, hostIP, startOctet), ProbePick(net, hostIP, startOctet, probe, cache);
            if candidates == [] then r == NoneFree
            else if probe.Socket? && (hostIP.Some? ==> Named(probe.selfTest, hostIP.value)) then
              IsFirstFree(r, candidates, HeardFrom(candidates, probe.round))
            else if cache.None? && hostIP.Some? then r == Panics
            else IsFirstFree(r, candidates, Cached(candidates, if cache.Some? then cache.value else {}))
  {
    var candidates := Candidates(net, hostIP, startOctet);
    if probe.Socket? {
      if hostIP.Some? {
        HeardIsNamed(probe.selfTest, hostIP.value);
      }
      FirstSilentIs(candidates, probe.round, 0);
    }
    if cache.Some? || hostIP.None? {
      PassiveIs(net, hostIP, startOctet, cache);
    }
  }

  lemma CandidatesHead(net: Net, hostIP: Option<IP>, start: nat, p: nat)
    requires ValidNet(net) && 1 <= start <= p < start + 254 && start <= 254
    ensures var cand, rest := WithLast(net, OctetAt(p)), CandidatesFrom(net, hostIP, start, p + 1);
            CandidatesFrom(net, hostIP, start, p) == if Eligible(net, hostIP, cand) then [cand] + rest else rest
  {
  }

  lemma Slash24(net: Net, d: byte)
    requires net == Net(IP(10, 0, 0, 0), 24) && 0 < d < 255
    ensures ValidNet(net) && Eligible(net, Some(IP(10, 0, 0, 1)), WithLast(net, d)) <==> d != 1
  {
    assert Pow2(8) == 256;
    ClearedAll(0, 8);
    ClearedAll(d, 8);
    assert Masked(net.base, 24) == net.base == Masked(WithLast(net, d), 24);
    FilledAll(0, 8);
  }

  lemma FirstTwo(net: Net, hostIP: Option<IP>, start: nat)
    requires net == Net(IP(10, 0, 0, 0), 24) && hostIP == Some(IP(10, 0, 0, 1)) && 1 < start < 254
    ensures ValidNet(net)
    ensures var c := Candidates(net, hostIP, start);
            |c| >= 2 && c[0] == IP(10, 0, 0, start) && c[1] == IP(10, 0, 0, start + 1)
  {
    Slash24(net, start);
    Slash24(net, start + 1);
    CandidatesHead(net, hostIP, start, start);
    CandidatesHead(net, hostIP, start, start + 1);
  }

  /**
   * A socket that hears nothing is not trusted: with the host at 10.0.0.1 and 10.0.0.100 in the ARP cache the pick in
   * 10.0.0.0/24 from 100 is 10.0.0.101.
   */
  lemma DeafProbeExample(net: Net, probe: Probe, cache: ArpCache)
    requires net == Net(IP(10, 0, 0, 0), 24) && probe == Socket([], _ => []) && cache == Some({IP(10, 0, 0, 100)})
    ensures ValidNet(net) && ProbePick(net, Some(IP(10, 0, 0, 1)), 100, probe, cache) == Picked(IP(10, 0, 0, 101))
  {
    var host := Some(IP(10, 0, 0, 1));
    FirstTwo(net, host, 100);
    PickMeans(net, host, 100, probe, cache);
    var candidates := Candidates(net, host, 100);
    assert 0 in Cached(candidates, {IP(10, 0, 0, 100)}) && 1 !in Cached(candidates, {IP(10, 0, 0, 100)});
  }
}
