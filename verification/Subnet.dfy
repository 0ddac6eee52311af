/** IPv4 networks and the choice of an unused address in one. */
module Subnet {
  import opened Sequences

  datatype IP = IP(a: byte, b: byte, c: byte, d: byte)

  /** A network as CIDR notation gives it: the host part of `base` is zero. */
  datatype Net = Net(base: IP, prefix: nat)

  // ------------------------------------------------------------------
  // Masks
  // ------------------------------------------------------------------

  /** How many host bits a prefix leaves in octet `i` (0 to 3). */
  function HostBits(prefix: nat, i: nat): (n: nat)
    requires prefix <= 32 && i < 4
    ensures n <= 8
  {
    if prefix <= 8 * i then 8 else if prefix >= 8 * i + 8 then 0 else 8 * i + 8 - prefix
  }

  /** `x` with its low `bits` bits cleared. */
  function Cleared(x: nat, bits: nat): (r: nat)
    ensures r <= x
  {
    if bits == 0 then x else 2 * Cleared(x / 2, bits - 1)
  }

  /** `x` with its low `bits` bits set. */
  function Filled(x: nat, bits: nat): (r: nat)
    ensures x <= r
  {
    if bits == 0 then x else 2 * Filled(x / 2, bits - 1) + 1
  }

  lemma {:induction false} ClearedTwice(x: nat, bits: nat)
    ensures Cleared(Cleared(x, bits), bits) == Cleared(x, bits)
  {
    if bits > 0 {
      ClearedTwice(x / 2, bits - 1);
    }
  }

  function Pow2(n: nat): nat {
    if n == 0 then 1 else 2 * Pow2(n - 1)
  }

  lemma {:induction false} FilledFits(x: nat, bits: nat, width: nat)
    requires bits <= width && x < Pow2(width)
    ensures Filled(x, bits) < Pow2(width)
  {
    if bits > 0 {
      FilledFits(x / 2, bits - 1, width - 1);
    }
  }

  lemma {:induction false} ClearedAll(x: nat, bits: nat)
    requires x < Pow2(bits)
    ensures Cleared(x, bits) == 0
  {
    if bits > 0 {
      ClearedAll(x / 2, bits - 1);
    }
  }

  lemma {:induction false} FilledAll(x: nat, bits: nat)
    requires x < Pow2(bits)
    ensures Filled(x, bits) == Pow2(bits) - 1
  {
    if bits > 0 {
      FilledAll(x / 2, bits - 1);
    }
  }

  function Masked(ip: IP, prefix: nat): IP
    requires prefix <= 32
  {
    IP(Cleared(ip.a, HostBits(prefix, 0)), Cleared(ip.b, HostBits(prefix, 1)),
       Cleared(ip.c, HostBits(prefix, 2)), Cleared(ip.d, HostBits(prefix, 3)))
  }

  predicate ValidNet(net: Net) {
    net.prefix <= 32 && Masked(net.base, net.prefix) == net.base
  }

  predicate Contains(net: Net, ip: IP)
    requires ValidNet(net)
  {
    Masked(ip, net.prefix) == net.base
  }

  function HighestIn(x: byte, prefix: nat, i: nat): byte
    requires prefix <= 32 && i < 4
  {
    assert Pow2(8) == 256;
    FilledFits(x, HostBits(prefix, i), 8);
    Filled(x, HostBits(prefix, i))
  }

  /** The address with every host bit set. */
  function Broadcast(net: Net): IP
    requires ValidNet(net)
  {
    IP(HighestIn(net.base.a, net.prefix, 0), HighestIn(net.base.b, net.prefix, 1),
       HighestIn(net.base.c, net.prefix, 2), HighestIn(net.base.d, net.prefix, 3))
  }

  // ------------------------------------------------------------------
  // Candidates in priority order
  // ------------------------------------------------------------------

  function NormStart(startOctet: int): (start: nat)
    ensures 1 <= start <= 254
  {
    if startOctet < 1 then 1 else if startOctet > 254 then 100 else startOctet
  }

  /** The last octet tried at position `p`: counting goes upward from the start octet and wraps from 254 to 1. */
  function OctetAt(p: nat): (octet: nat)
    requires 1 <= p < 508
    ensures 1 <= octet <= 254
  {
    if p > 254 then p - 254 else p
  }

  function WithLast(net: Net, octet: byte): IP {
    IP(net.base.a, net.base.b, net.base.c, octet)
  }

  /** In the network, not its broadcast address and not the host's own address. */
  predicate Eligible(net: Net, hostIP: Option<IP>, ip: IP)
    requires ValidNet(net)
  {
    Contains(net, ip) && ip != Broadcast(net) && hostIP != Some(ip)
  }

  /** What positions `p` to `start + 253` contribute. */
  function CandidatesFrom(net: Net, hostIP: Option<IP>, start: nat, p: nat): seq<IP>
    requires ValidNet(net) && 1 <= start <= 254 && start <= p
    decreases start + 254 - p, net
  {
    if p >= start + 254 then []
    else
      var cand := WithLast(net, OctetAt(p));
      var rest := CandidatesFrom(net, hostIP, start, p + 1);
      if Eligible(net, hostIP, cand) then [cand] + rest else rest
  }

  function Candidates(net: Net, hostIP: Option<IP>, startOctet: int): seq<IP>
    requires ValidNet(net)
  {
    CandidatesFrom(net, hostIP, NormStart(startOctet), NormStart(startOctet))
  }

  /** What one turn of the loop adds. */
  lemma CandidatesStep(net: Net, hostIP: Option<IP>, start: nat, p: nat, out: seq<IP>)
    requires ValidNet(net) && 1 <= start <= 254 && start <= p < start + 254
    ensures var cand := WithLast(net, OctetAt(p));
            var out' := if Eligible(net, hostIP, cand) then out + [cand] else out;
            out' + CandidatesFrom(net, hostIP, start, p + 1) == out + CandidatesFrom(net, hostIP, start, p)
  {
    var rest := CandidatesFrom(net, hostIP, start, p + 1);
    var cand := WithLast(net, OctetAt(p));
    assert out + ([cand] + rest) == (out + [cand]) + rest;
  }

  method CandidateIPs(net: Net, hostIP: Option<IP>, startOctet: int) returns (out: seq<IP>)
    requires ValidNet(net)
    ensures out == Candidates(net, hostIP, startOctet)
  {
    var broadcast := Broadcast(net);
    var start := startOctet;
    if start < 1 {
      start := 1;
    }
    if start > 254 {
      start := 100;
    }
    out := [];
    ghost var all := CandidatesFrom(net, hostIP, start, start);
    assert all == Candidates(net, hostIP, startOctet) && out + all == all;
    for n := 0 to 254
      invariant out + CandidatesFrom(net, hostIP, start, start + n) == all
    {
      CandidatesStep(net, hostIP, start, start + n, out);
      var octet := start + n;
      if octet > 254 {
        octet := octet - 254;
      }
      var cand := WithLast(net, octet);
      if !Contains(net, cand) {
        continue;
      }
      if cand == broadcast {
        continue;
      }
      if hostIP == Some(cand) {
        continue;
      }
      out := out + [cand];
    }
    assert out + [] == out;
  }

  /** The position at which an octet is tried. */
  function Position(start: nat, octet: nat): nat {
    if octet >= start then octet else octet + 254
  }

  /** An eligible address of the form base.1 to base.254, tried at position `p` or later. */
  predicate Listed(net: Net, hostIP: Option<IP>, start: nat, p: nat, ip: IP)
    requires ValidNet(net)
  {
    ip == WithLast(net, ip.d) && 1 <= ip.d <= 254 && p <= Position(start, ip.d) && Eligible(net, hostIP, ip)
  }

  predicate InOrder(c: seq<IP>, start: nat) {
    forall i, j :: 0 <= i < j < |c| ==> Position(start, c[i].d) < Position(start, c[j].d)
  }

  lemma InOrderCons(ip: IP, c: seq<IP>, start: nat)
    requires InOrder(c, start) && forall k :: 0 <= k < |c| ==> Position(start, ip.d) < Position(start, c[k].d)
    ensures InOrder([ip] + c, start)
  {
  }

  lemma ListedNext(net: Net, hostIP: Option<IP>, start: nat, p: nat, ip: IP)
    requires ValidNet(net) && 1 <= start <= 254 && start <= p < start + 254
    ensures var cand := WithLast(net, OctetAt(p));
            && (Listed(net, hostIP, start, p, ip) <==>
                  Listed(net, hostIP, start, p + 1, ip) || (ip == cand && Eligible(net, hostIP, cand)))
            && Position(start, cand.d) == p
  {
  }

  ghost predicate ListsExactly(c: seq<IP>, net: Net, hostIP: Option<IP>, start: nat, p: nat)
    requires ValidNet(net)
  {
    (forall ip :: ip in c <==> Listed(net, hostIP, start, p, ip)) && InOrder(c, start)
  }

  lemma ListsNext(c: seq<IP>, net: Net, hostIP: Option<IP>, start: nat, p: nat)
    requires ValidNet(net) && 1 <= start <= 254 && start <= p < start + 254
    requires ListsExactly(c, net, hostIP, start, p + 1)
    ensures var cand := WithLast(net, OctetAt(p));
            ListsExactly(if Eligible(net, hostIP, cand) then [cand] + c else c, net, hostIP, start, p)
  {
    var cand := WithLast(net, OctetAt(p));
    var all := if Eligible(net, hostIP, cand) then [cand] + c else c;
    forall ip: IP
      ensures ip in all <==> Listed(net, hostIP, start, p, ip)
    {
      ListedNext(net, hostIP, start, p, ip);
    }
    assert forall k :: 0 <= k < |c| ==> c[k] in c;
    ListedNext(net, hostIP, start, p, cand);
    InOrderCons(cand, c, start);
  }

  lemma {:induction false} CandidatesFromMean(net: Net, hostIP: Option<IP>, start: nat, p: nat)
    requires ValidNet(net) && 1 <= start <= 254 && start <= p <= start + 254
    ensures ListsExactly(CandidatesFrom(net, hostIP, start, p), net, hostIP, start, p)
    decreases start + 254 - p
  {
    if p < start + 254 {
      CandidatesFromMean(net, hostIP, start, p + 1);
      ListsNext(CandidatesFrom(net, hostIP, start, p + 1), net, hostIP, start, p);
    }
  }

  /**
   * The candidates are exactly the addresses base.1 to base.254 that are in the network, not its broadcast address and
   * not the host's, each once, in cyclic order from the start octet.
   */
  lemma CandidatesMean(net: Net, hostIP: Option<IP>, startOctet: int)
    requires ValidNet(net)
    ensures var c := Candidates(net, hostIP, startOctet);
            && (forall ip :: ip in c <==> ip == WithLast(net, ip.d) && 1 <= ip.d <= 254 && Eligible(net, hostIP, ip))
            && (forall i, j :: 0 <= i < j < |c| ==>
                  c[i] != c[j] && Position(NormStart(startOctet), c[i].d) < Position(NormStart(startOctet), c[j].d))
  {
    CandidatesFromMean(net, hostIP, NormStart(startOctet), NormStart(startOctet));
  }

  /** The network address is not skipped: it is a candidate whenever its last octet lies in 1 to 254. */
  lemma NetworkAddressIsCandidate(net: Net, hostIP: Option<IP>, startOctet: int)
    requires ValidNet(net)
    ensures net.base in Candidates(net, hostIP, startOctet) <==>
            1 <= net.base.d <= 254 && net.base != Broadcast(net) && hostIP != Some(net.base)
  {
    CandidatesMean(net, hostIP, startOctet);
  }

  // ------------------------------------------------------------------
  // Addresses in configuration text, and validation
  // ------------------------------------------------------------------

  /** An address as written in the configuration: unreadable, without prefix, or in CIDR notation. */
  datatype AddrText = BadText | Plain(ip: IP) | Cidr(ip: IP, prefix: nat)

  /** net.ParseCIDR: the address and its network. */
  function ParseCIDR(text: AddrText): (r: Option<(IP, Net)>)
    ensures r.Some? ==> ValidNet(r.value.1) && Contains(r.value.1, r.value.0)
  {
    if text.Cidr? && text.prefix <= 32 then
      MaskTwice(text.ip, text.prefix);
      Some((text.ip, Net(Masked(text.ip, text.prefix), text.prefix)))
    else None
  }

  lemma MaskTwice(ip: IP, prefix: nat)
    requires prefix <= 32
    ensures Masked(Masked(ip, prefix), prefix) == Masked(ip, prefix)
  {
    ClearedTwice(ip.a, HostBits(prefix, 0));
    ClearedTwice(ip.b, HostBits(prefix, 1));
    ClearedTwice(ip.c, HostBits(prefix, 2));
    ClearedTwice(ip.d, HostBits(prefix, 3));
  }

  /** A missing prefix counts as /24. */
  function ParseIPNet(text: AddrText): (r: Option<(IP, Net)>)
    ensures r.Some? ==> ValidNet(r.value.1) && Contains(r.value.1, r.value.0)
  {
    if text.Plain? then ParseCIDR(Cidr(text.ip, 24)) else ParseCIDR(text)
  }

  datatype MacvlanConfig = MacvlanConfig(hostNIC: string, name: string, ip: AddrText, gateway: Option<AddrText>)

  datatype Verdict = Valid | NoName | NoHostNIC | InvalidIP | IsNetworkAddress | IsBroadcastAddress

  /** What ValidateMACVLANConfig finds first. */
  function Validate(cfg: MacvlanConfig): Verdict {
    if cfg.name == "" then NoName
    else if cfg.hostNIC == "" then NoHostNIC
    else
      match ParseIPNet(cfg.ip)
      case None => InvalidIP
      case Some((ip, net)) =>
        if ip == net.base then IsNetworkAddress else if ip == Broadcast(net) then IsBroadcastAddress else Valid
  }

  /** A picked candidate, written back with the network's prefix, validates unless it is the network address itself. */
  lemma PickValidates(cfg: MacvlanConfig, net: Net, hostIP: Option<IP>, startOctet: int, ip: IP)
    requires ValidNet(net) && ip in Candidates(net, hostIP, startOctet)
    requires cfg.name != "" && cfg.hostNIC != ""
    ensures ParseIPNet(Cidr(ip, net.prefix)) == Some((ip, net))
    ensures Validate(cfg.(ip := Cidr(ip, net.prefix))) == if ip == net.base then IsNetworkAddress else Valid
    ensures net.base.d == 0 ==> Validate(cfg.(ip := Cidr(ip, net.prefix))) == Valid
  {
    CandidatesMean(net, hostIP, startOctet);
  }

  /** Every pick validates exactly when the network address is no candidate. */
  lemma AllPicksValidate(cfg: MacvlanConfig, net: Net, hostIP: Option<IP>, startOctet: int)
    requires ValidNet(net) && cfg.name != "" && cfg.hostNIC != ""
    ensures (forall ip :: ip in Candidates(net, hostIP, startOctet) ==>
               Validate(cfg.(ip := Cidr(ip, net.prefix))) == Valid)
            <==> !(1 <= net.base.d <= 254 && net.base != Broadcast(net) && hostIP != Some(net.base))
  {
    NetworkAddressIsCandidate(net, hostIP, startOctet);
    forall ip: IP | ip in Candidates(net, hostIP, startOctet)
      ensures Validate(cfg.(ip := Cidr(ip, net.prefix))) == if ip == net.base then IsNetworkAddress else Valid
    {
      PickValidates(cfg, net, hostIP, startOctet, ip);
    }
  }

  /** A network whose own last octet is not before the start octet offers its network address before all else. */
  lemma NetworkAddressFirst(net: Net, hostIP: Option<IP>, startOctet: int)
    requires ValidNet(net) && NormStart(startOctet) <= net.base.d <= 254
    requires net.base != Broadcast(net) && hostIP != Some(net.base)
    ensures Candidates(net, hostIP, startOctet) != [] && Candidates(net, hostIP, startOctet)[0] == net.base
  {
    var c := Candidates(net, hostIP, startOctet);
    CandidatesMean(net, hostIP, startOctet);
    NetworkAddressIsCandidate(net, hostIP, startOctet);
    var k :| 0 <= k < |c| && c[k] == net.base;
    assert c[0] in c && Contains(net, c[0]);
    assert c[0].d >= net.base.d;
  }

  /** 10.0.0.128/25 with the start octet 100 is such a network. */
  lemma NetworkAddressExample(hostIP: Option<IP>, startOctet: int)
    requires startOctet == 100 && hostIP != Some(IP(10, 0, 0, 128))
    ensures var net := Net(IP(10, 0, 0, 128), 25);
            && ValidNet(net)
            && Candidates(net, hostIP, startOctet) != []
            && Candidates(net, hostIP, startOctet)[0] == net.base
  {
    NetworkAddressFirst(Net(IP(10, 0, 0, 128), 25), hostIP, startOctet);
  }

  // ------------------------------------------------------------------
  // The first unused candidate
  // ------------------------------------------------------------------

  /** The first address of the list that is not in use. */
  function LowestFree(list: seq<IP>, used: set<IP>): (r: Option<IP>)
    ensures r.None? <==> forall ip :: ip in list ==> ip in used
    ensures r.Some? ==> r.value in list && r.value !in used
  {
    if list == [] then None else if list[0] !in used then Some(list[0]) else LowestFree(list[1..], used)
  }

  /** Everything before the answer is in use. */
  lemma {:induction false} LowestFreeMeans(list: seq<IP>, used: set<IP>, i: nat)
    requires i < |list| && list[i] !in used && forall j :: 0 <= j < i ==> list[j] in used
    ensures LowestFree(list, used) == Some(list[i])
  {
    if i > 0 {
      LowestFreeMeans(list[1..], used, i - 1);
    }
  }

  method PickUnusedIP(net: Net, used: set<IP>, startOctet: int) returns (r: Option<IP>)
    requires ValidNet(net)
    ensures r == LowestFree(Candidates(net, None, startOctet), used)
  {
    var candidates := CandidateIPs(net, None, startOctet);
    for i := 0 to |candidates|
      invariant LowestFree(candidates[i..], used) == LowestFree(candidates, used)
    {
      assert candidates[i..][1..] == candidates[i + 1..];
      if candidates[i] !in used {
        return Some(candidates[i]);
      }
    }
    return None;
  }

  lemma {:induction false} HostUsedFrom(net: Net, host: IP, used: set<IP>, start: nat, p: nat)
    requires ValidNet(net) && 1 <= start <= 254 && start <= p
    ensures LowestFree(CandidatesFrom(net, None, start, p), used + {host}) ==
        LowestFree(CandidatesFrom(net, Some(host), start, p), used)
    decreases start + 254 - p
  {
    if p < start + 254 {
      HostUsedFrom(net, host, used, start, p + 1);
      var cand := WithLast(net, OctetAt(p));
      var all, some := CandidatesFrom(net, None, start, p + 1), CandidatesFrom(net, Some(host), start, p + 1);
      assert ([cand] + all)[1..] == all && ([cand] + some)[1..] == some;
    }
  }

  /** Marking the host's address as used and leaving it out of the candidates come to the same pick. */
  lemma HostUsedOrExcluded(net: Net, host: IP, used: set<IP>, startOctet: int)
    requires ValidNet(net)
    ensures LowestFree(Candidates(net, None, startOctet), used + {host}) ==
        LowestFree(Candidates(net, Some(host), startOctet), used)
  {
    HostUsedFrom(net, host, used, NormStart(startOctet), NormStart(startOctet));
  }
}
