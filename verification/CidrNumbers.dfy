/** Networks as ranges of 32-bit numbers: what masks, broadcast addresses, candidates and validation come to. */
module CidrNumbers {
  import opened Sequences
  import opened Subnet

  /** The address as a 32-bit number. */
  function Number(ip: IP): nat {
    256 * (256 * (256 * ip.a + ip.b) + ip.c) + ip.d
  }

  /** How many addresses a network has. */
  function Size(prefix: nat): (n: nat)
    requires prefix <= 32
    ensures n > 0
  {
    Pow2Positive(32 - prefix);
    Pow2(32 - prefix)
  }

  lemma {:induction false} NumberIsOneToOne(x: IP, y: IP)
    requires Number(x) == Number(y)
    ensures x == y
  {
  }

  // ------------------------------------------------------------------
  // Clearing and filling the low bits of a number
  // ------------------------------------------------------------------

  // Bits below the cut of `l`, which has `j` bits, do not touch `h`.
  lemma {:induction false} LowBits(h: nat, l: nat, j: nat, k: nat)
    requires k <= j && l < Pow2(j)
    ensures Cleared(Pow2(j) * h + l, k) == Pow2(j) * h + Cleared(l, k)
    ensures Filled(Pow2(j) * h + l, k) == Pow2(j) * h + Filled(l, k)
  {
    if k > 0 {
      HalfOf(h, l, j);
      LowBits(h, l / 2, j - 1, k - 1);
    }
  }

  lemma HalfOf(h: nat, l: nat, j: nat)
    requires j > 0
    ensures Pow2(j) * h == 2 * (Pow2(j - 1) * h)
    ensures (Pow2(j) * h + l) / 2 == Pow2(j - 1) * h + l / 2
  {
  }

  // All of `l` and `k` bits of `h`.
  lemma {:induction false} HighBits(h: nat, l: nat, j: nat, k: nat)
    requires l < Pow2(j)
    ensures Cleared(Pow2(j) * h + l, j + k) == Pow2(j) * Cleared(h, k)
    ensures Filled(Pow2(j) * h + l, j + k) == Pow2(j) * Filled(h, k) + Pow2(j) - 1
  {
    if j > 0 {
      HalfOf(h, l, j);
      HalfOf(Cleared(h, k), 0, j);
      HalfOf(Filled(h, k), 0, j);
      HighBits(h, l / 2, j - 1, k);
    }
  }

  lemma {:induction false} Pow2Positive(n: nat)
    ensures Pow2(n) > 0
  {
    if n > 0 {
      Pow2Positive(n - 1);
    }
  }

  /** Clearing rounds down to a multiple, and filling goes to the number before the next one. */
  lemma {:induction false} Rounded(n: nat, bits: nat) returns (q: nat, r: nat)
    ensures n == Pow2(bits) * q + r && r < Pow2(bits)
    ensures Cleared(n, bits) == Pow2(bits) * q && Filled(n, bits) == Pow2(bits) * q + Pow2(bits) - 1
  {
    if bits == 0 {
      q, r := n, 0;
    } else {
      var half;
      q, half := Rounded(n / 2, bits - 1);
      HalfOf(q, 0, bits);
      r := 2 * half + n % 2;
    }
  }

  lemma {:induction false} Multiples(p: nat, a: nat, b: nat)
    ensures a < b ==> p * a + p <= p * b
  {
    if a < b {
      Multiples(p, a, b - 1);
      assert p * b == p * (b - 1) + p;
    }
  }

  lemma Remainder(n: nat, p: nat, q: nat, r: nat)
    requires n == p * q + r && r < p
    ensures n % p == r
  {
    var d := n / p;
    assert n == p * d + n % p;
    Multiples(p, d, q);
    Multiples(p, q, d);
  }

  // ------------------------------------------------------------------
  // Addresses
  // ------------------------------------------------------------------

  lemma WholeByte(l: byte, bits: nat)
    requires bits == 8
    ensures Cleared(l, bits) == 0 && Filled(l, bits) == 255 && Pow2(bits) == 256
  {
    assert Pow2(8) == 256;
    ClearedAll(l, bits);
    FilledAll(l, bits);
  }

  lemma OneByte(n: nat, h: nat, l: byte, bits: nat)
    requires n == 256 * h + l
    ensures Cleared(n, bits) == if bits <= 8 then 256 * h + Cleared(l, bits) else 256 * Cleared(h, bits - 8)
    ensures Filled(n, bits) == if bits <= 8 then 256 * h + Filled(l, bits) else 256 * Filled(h, bits - 8) + 255
  {
    var eight := 8;
    WholeByte(l, eight);
    if bits <= 8 {
      LowBits(h, l, eight, bits);
    } else {
      HighBits(h, l, eight, bits - 8);
    }
  }

  // What is left of an octet with `bits` host bits.
  lemma NoneOrAll(x: byte, bits: nat)
    ensures bits == 0 ==> Cleared(x, bits) == x == Filled(x, bits)
    ensures bits == 8 ==> Cleared(x, bits) == 0 && Filled(x, bits) == 255
  {
    if bits == 8 {
      WholeByte(x, bits);
    }
  }

  // The numbers made of the octets, cleared or filled.
  function OctetsCleared(ip: IP, a: nat, b: nat, c: nat, d: nat): nat {
    256 * (256 * (256 * Cleared(ip.a, a) + Cleared(ip.b, b)) + Cleared(ip.c, c)) + Cleared(ip.d, d)
  }

  function OctetsFilled(ip: IP, a: nat, b: nat, c: nat, d: nat): nat {
    256 * (256 * (256 * Filled(ip.a, a) + Filled(ip.b, b)) + Filled(ip.c, c)) + Filled(ip.d, d)
  }

  lemma OctetsOf(ip: IP, none: nat, whole: nat, cut: nat)
    requires none == 0 && whole == 8
    ensures OctetsCleared(ip, none, none, none, cut) ==
            256 * (256 * (256 * ip.a + ip.b) + ip.c) + Cleared(ip.d, cut)
    ensures OctetsFilled(ip, none, none, none, cut) == 256 * (256 * (256 * ip.a + ip.b) + ip.c) + Filled(ip.d, cut)
    ensures OctetsCleared(ip, none, none, cut, whole) == 256 * (256 * (256 * ip.a + ip.b) + Cleared(ip.c, cut))
    ensures OctetsFilled(ip, none, none, cut, whole) == 256 * (256 * (256 * ip.a + ip.b) + Filled(ip.c, cut)) + 255
    ensures OctetsCleared(ip, none, cut, whole, whole) == 256 * (256 * (256 * ip.a + Cleared(ip.b, cut)))
    ensures OctetsFilled(ip, none, cut, whole, whole) ==
            256 * (256 * (256 * ip.a + Filled(ip.b, cut)) + 255) + 255
    ensures OctetsCleared(ip, cut, whole, whole, whole) == 256 * (256 * (256 * Cleared(ip.a, cut)))
    ensures OctetsFilled(ip, cut, whole, whole, whole) == 256 * (256 * (256 * Filled(ip.a, cut) + 255) + 255) + 255
  {
    NoneOrAll(ip.a, none);
    NoneOrAll(ip.b, none);
    NoneOrAll(ip.c, none);
    NoneOrAll(ip.b, whole);
    NoneOrAll(ip.c, whole);
    NoneOrAll(ip.d, whole);
  }

  // Octet by octet is the same as in one go, wherever the prefix ends.
  ghost predicate SameAtOnce(ip: IP, prefix: nat, n: nat, bits: nat)
    requires prefix <= 32
  {
    var a, b, c, d := HostBits(prefix, 0), HostBits(prefix, 1), HostBits(prefix, 2), HostBits(prefix, 3);
    OctetsCleared(ip, a, b, c, d) == Cleared(n, bits) && OctetsFilled(ip, a, b, c, d) == Filled(n, bits)
  }

  // `abc`, `ab` and `n` are the numbers of the first three octets, of the first two, and of all.
  ghost predicate Parts(ip: IP, ab: nat, abc: nat, n: nat) {
    ab == 256 * ip.a + ip.b && abc == 256 * ab + ip.c && n == 256 * abc + ip.d
  }

  lemma TwoBytes(ip: IP, ab: nat, abc: nat, n: nat, bits: nat)
    requires Parts(ip, ab, abc, n) && 16 < bits
    ensures Cleared(n, bits) == 256 * (256 * Cleared(ab, bits - 16))
    ensures Filled(n, bits) == 256 * (256 * Filled(ab, bits - 16) + 255) + 255
  {
    OneByte(n, abc, ip.d, bits);
    OneByte(abc, ab, ip.c, bits - 8);
  }

  lemma CutInA(ip: IP, ab: nat, abc: nat, n: nat, bits: nat, none: nat, whole: nat)
    requires Parts(ip, ab, abc, n) && 24 < bits <= 32 && none == 0 && whole == 8
    ensures SameAtOnce(ip, 32 - bits, n, bits)
  {
    OctetsOf(ip, none, whole, bits - 24);
    TwoBytes(ip, ab, abc, n, bits);
    OneByte(ab, ip.a, ip.b, bits - 16);
  }

  lemma CutInB(ip: IP, ab: nat, abc: nat, n: nat, bits: nat, none: nat, whole: nat)
    requires Parts(ip, ab, abc, n) && 16 < bits <= 24 && none == 0 && whole == 8
    ensures SameAtOnce(ip, 32 - bits, n, bits)
  {
    OctetsOf(ip, none, whole, bits - 16);
    TwoBytes(ip, ab, abc, n, bits);
    OneByte(ab, ip.a, ip.b, bits - 16);
  }

  lemma CutInC(ip: IP, ab: nat, abc: nat, n: nat, bits: nat, none: nat, whole: nat)
    requires Parts(ip, ab, abc, n) && 8 < bits <= 16 && none == 0 && whole == 8
    ensures SameAtOnce(ip, 32 - bits, n, bits)
  {
    OctetsOf(ip, none, whole, bits - 8);
    OneByte(n, abc, ip.d, bits);
    OneByte(abc, ab, ip.c, bits - 8);
  }

  lemma CutInD(ip: IP, ab: nat, abc: nat, n: nat, bits: nat, none: nat, whole: nat)
    requires Parts(ip, ab, abc, n) && bits <= 8 && none == 0 && whole == 8
    ensures SameAtOnce(ip, 32 - bits, n, bits)
  {
    OctetsOf(ip, none, whole, bits);
    OneByte(n, abc, ip.d, bits);
  }

  lemma AtOnce(ip: IP, prefix: nat)
    requires prefix <= 32
    ensures SameAtOnce(ip, prefix, Number(ip), 32 - prefix)
  {
    var ab := 256 * ip.a + ip.b;
    var abc := 256 * ab + ip.c;
    var n, bits := Number(ip), 32 - prefix;
    if bits <= 8 {
      CutInD(ip, ab, abc, n, bits, 0, 8);
    } else if bits <= 16 {
      CutInC(ip, ab, abc, n, bits, 0, 8);
    } else if bits <= 24 {
      CutInB(ip, ab, abc, n, bits, 0, 8);
    } else {
      CutInA(ip, ab, abc, n, bits, 0, 8);
    }
  }

  lemma MaskedAtOnce(ip: IP, prefix: nat)
    requires prefix <= 32
    ensures Number(Masked(ip, prefix)) == Cleared(Number(ip), 32 - prefix)
  {
    AtOnce(ip, prefix);
  }

  lemma FilledAtOnce(net: Net)
    requires ValidNet(net)
    ensures Number(Broadcast(net)) == Filled(Number(net.base), 32 - net.prefix)
  {
    AtOnce(net.base, net.prefix);
  }

  lemma RoundedDown(ip: IP, prefix: nat)
    requires prefix <= 32
    ensures Number(Masked(ip, prefix)) == Number(ip) - Number(ip) % Size(prefix)
  {
    var q, r := Rounded(Number(ip), 32 - prefix);
    Remainder(Number(ip), Size(prefix), q, r);
    MaskedAtOnce(ip, prefix);
  }

  lemma InRange(n: nat, base: nat, bits: nat)
    requires Cleared(base, bits) == base
    ensures Cleared(n, bits) == base <==> base <= n < base + Pow2(bits)
    ensures Filled(base, bits) == base + Pow2(bits) - 1
  {
    var q0, r0 := Rounded(base, bits);
    var q, r := Rounded(n, bits);
    Multiples(Pow2(bits), q0, q);
    Multiples(Pow2(bits), q, q0);
  }

  /** A network is the range of its size from its base on, and the broadcast address is the last of it. */
  lemma NetworkIsRange(net: Net, ip: IP)
    requires ValidNet(net)
    ensures Contains(net, ip) <==> Number(net.base) <= Number(ip) < Number(net.base) + Size(net.prefix)
    ensures Number(Broadcast(net)) == Number(net.base) + Size(net.prefix) - 1
  {
    FilledAtOnce(net);
    MaskedAtOnce(net.base, net.prefix);
    MaskedAtOnce(ip, net.prefix);
    InRange(Number(ip), Number(net.base), 32 - net.prefix);
    if Number(Masked(ip, net.prefix)) == Number(net.base) {
      NumberIsOneToOne(Masked(ip, net.prefix), net.base);
    }
  }

  /** The candidates, in numbers: those of the first 256 addresses that end in 1 to 254, without last one and host. */
  lemma CandidatesAreNumbers(net: Net, hostIP: Option<IP>, startOctet: int, ip: IP)
    requires ValidNet(net)
    ensures ip in Candidates(net, hostIP, startOctet) <==>
            && (ip.a, ip.b, ip.c) == (net.base.a, net.base.b, net.base.c) && 1 <= ip.d <= 254 && hostIP != Some(ip)
            && Number(net.base) <= Number(ip) < Number(net.base) + Size(net.prefix) - 1
  {
    CandidatesMean(net, hostIP, startOctet);
    NetworkIsRange(net, ip);
    if Number(ip) == Number(Broadcast(net)) {
      NumberIsOneToOne(ip, Broadcast(net));
    }
  }

  predicate CyclicBefore(start: nat, x: nat, y: nat) {
    if x >= start then x < y || y < start else x < y < start
  }

  /** They come upwards from the start octet, or from 100 when that is too large, and then from 1. */
  lemma CandidatesAreCyclic(net: Net, hostIP: Option<IP>, startOctet: int, i: nat, j: nat)
    requires ValidNet(net) && i < j < |Candidates(net, hostIP, startOctet)|
    ensures var c := Candidates(net, hostIP, startOctet);
            CyclicBefore(if startOctet < 1 then 1 else if startOctet > 254 then 100 else startOctet, c[i].d, c[j].d)
  {
    CandidatesMean(net, hostIP, startOctet);
    var c := Candidates(net, hostIP, startOctet);
    assert c[i] in c && c[j] in c;
  }

  /** The address is neither the first nor the last of its network. */
  predicate Inside(ip: IP, prefix: nat) {
    prefix <= 32 && 0 < Number(ip) % Size(prefix) < Size(prefix) - 1
  }

  lemma InsideMeans(ip: IP, prefix: nat, net: Net)
    requires prefix <= 32 && ValidNet(net) && net == Net(Masked(ip, prefix), prefix)
    ensures Inside(ip, prefix) <==> ip != net.base && ip != Broadcast(net)
  {
    var q, r := Rounded(Number(ip), 32 - prefix);
    Remainder(Number(ip), Size(prefix), q, r);
    MaskedAtOnce(ip, prefix);
    NetworkIsRange(net, ip);
    if Number(ip) == Number(net.base) {
      NumberIsOneToOne(ip, net.base);
    }
    if Number(ip) == Number(Broadcast(net)) {
      NumberIsOneToOne(ip, Broadcast(net));
    }
  }

  /** A configuration validates exactly if it is named and its address is one inside its network, /24 by default. */
  lemma ValidatesIff(cfg: MacvlanConfig)
    ensures Validate(cfg) == Valid <==>
            && cfg.name != "" && cfg.hostNIC != ""
            && match cfg.ip
               case BadText => false
               case Plain(ip) => Inside(ip, 24)
               case Cidr(ip, prefix) => Inside(ip, prefix)
  {
    if cfg.ip.Plain? || (cfg.ip.Cidr? && cfg.ip.prefix <= 32) {
      var ip, prefix := cfg.ip.ip, if cfg.ip.Plain? then 24 else cfg.ip.prefix;
      MaskTwice(ip, prefix);
      InsideMeans(ip, prefix, Net(Masked(ip, prefix), prefix));
    }
  }
}
