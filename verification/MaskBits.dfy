/** The octet arithmetic of networks is what the code computes with bit masks on machine bytes. */
module MaskBits {
  import opened Sequences
  import opened Subnet

  /** All ones but for the low `bits` bits. */
  function Mask(bits: nat): bv8
    requires bits <= 8
  {
    if bits == 0 then 0xFF else Mask(bits - 1) << 1
  }

  /** Byte `i` of net.CIDRMask(prefix, 32). */
  function CIDRMaskByte(prefix: nat, i: nat): bv8
    requires prefix <= 32 && i < 4
  {
    if prefix >= 8 * i + 8 then 0xFF
    else if prefix <= 8 * i then 0
    else !(0xFF >> (prefix - 8 * i))
  }

  /** One step of clearing and filling: the rest of the mask applies to the upper seven bits. */
  lemma MaskStep(x: bv8, upper: bv8)
    ensures x & (upper << 1) == ((x >> 1) & upper) << 1
    ensures x | !(upper << 1) == (((x >> 1) | !upper) << 1) | 1
    ensures (x >> 1) & upper < 0x80
    ensures upper >= 0x80 ==> (x >> 1) | !upper < 0x80
  {
  }

  lemma Halved(x: bv8)
    ensures (x >> 1) as nat == x as nat / 2
  {
  }

  lemma Doubled(y: bv8)
    requires y < 0x80
    ensures (y << 1) as nat == 2 * (y as nat)
    ensures ((y << 1) | 1) as nat == 2 * (y as nat) + 1
  {
  }

  lemma MaskTable()
    ensures Mask(0) == 0xFF && Mask(1) == 0xFE && Mask(2) == 0xFC && Mask(3) == 0xF8 && Mask(4) == 0xF0
    ensures Mask(5) == 0xE0 && Mask(6) == 0xC0 && Mask(7) == 0x80 && Mask(8) == 0
  {
  }

  lemma MaskHasTop(bits: nat)
    requires bits < 8
    ensures Mask(bits) >= 0x80
  {
    MaskTable();
  }

  // The same step on numbers.
  lemma AndStep(x: bv8, upper: bv8)
    ensures (x & (upper << 1)) as nat == 2 * (((x >> 1) & upper) as nat)
  {
    MaskStep(x, upper);
    Doubled((x >> 1) & upper);
  }

  lemma OrStep(x: bv8, upper: bv8)
    requires upper >= 0x80
    ensures (x | !(upper << 1)) as nat == 2 * (((x >> 1) | !upper) as nat) + 1
  {
    MaskStep(x, upper);
    Doubled((x >> 1) | !upper);
  }

  lemma WholeByte(x: bv8)
    ensures x & 0xFF == x && x | !0xFF == x
  {
  }

  /** Clearing the low bits is `x & mask`. */
  lemma {:induction false} ClearedIsAnd(x: bv8, bits: nat)
    requires bits <= 8
    ensures Cleared(x as nat, bits) == (x & Mask(bits)) as nat
  {
    if bits == 0 {
      WholeByte(x);
    } else {
      ClearedIsAnd(x >> 1, bits - 1);
      Halved(x);
      AndStep(x, Mask(bits - 1));
    }
  }

  /** Filling them is `x | ^mask`. */
  lemma {:induction false} FilledIsOr(x: bv8, bits: nat)
    requires bits <= 8
    ensures Filled(x as nat, bits) == (x | !Mask(bits)) as nat
  {
    if bits == 0 {
      WholeByte(x);
    } else {
      FilledIsOr(x >> 1, bits - 1);
      Halved(x);
      MaskHasTop(bits - 1);
      OrStep(x, Mask(bits - 1));
    }
  }

  lemma CIDRMaskIs(prefix: nat, i: nat)
    requires prefix <= 32 && i < 4
    ensures CIDRMaskByte(prefix, i) == Mask(HostBits(prefix, i))
  {
    MaskTable();
    var ones := prefix - 8 * i;
    assert 0 < ones < 8 ==> ones in {1, 2, 3, 4, 5, 6, 7};
  }

  // An octet of a machine address.
  function Octet(x: bv8): byte {
    x as nat
  }

  lemma OctetIsMasked(x: bv8, prefix: nat, i: nat)
    requires prefix <= 32 && i < 4
    ensures Cleared(Octet(x), HostBits(prefix, i)) == Octet(x & CIDRMaskByte(prefix, i))
    ensures HighestIn(Octet(x), prefix, i) == Octet(x | !CIDRMaskByte(prefix, i))
  {
    CIDRMaskIs(prefix, i);
    ClearedIsAnd(x, HostBits(prefix, i));
    FilledIsOr(x, HostBits(prefix, i));
  }

  /** A machine address. */
  datatype Bytes = Bytes(a: bv8, b: bv8, c: bv8, d: bv8) {
    function Address(): IP {
      IP(Octet(a), Octet(b), Octet(c), Octet(d))
    }

    /** `ip[i] & mask[i]` in each octet. */
    function And(prefix: nat): Bytes
      requires prefix <= 32
    {
      Bytes(a & CIDRMaskByte(prefix, 0), b & CIDRMaskByte(prefix, 1), c & CIDRMaskByte(prefix, 2),
            d & CIDRMaskByte(prefix, 3))
    }

    /** `base[i] | ^mask[i]` in each octet. */
    function OrNot(prefix: nat): Bytes
      requires prefix <= 32
    {
      Bytes(a | !CIDRMaskByte(prefix, 0), b | !CIDRMaskByte(prefix, 1), c | !CIDRMaskByte(prefix, 2),
            d | !CIDRMaskByte(prefix, 3))
    }
  }

  /** Masking an address is ANDing it with CIDRMask. */
  lemma MaskedIsAnd(ip: Bytes, prefix: nat)
    requires prefix <= 32
    ensures Masked(ip.Address(), prefix) == ip.And(prefix).Address()
  {
    OctetIsMasked(ip.a, prefix, 0);
    OctetIsMasked(ip.b, prefix, 1);
    OctetIsMasked(ip.c, prefix, 2);
    OctetIsMasked(ip.d, prefix, 3);
  }

  /** The broadcast address of a network is its base ORed with the inverted mask. */
  lemma BroadcastIsOrNot(base: Bytes, prefix: nat)
    requires prefix <= 32 && ValidNet(Net(base.Address(), prefix))
    ensures Broadcast(Net(base.Address(), prefix)) == base.OrNot(prefix).Address()
  {
    OctetIsMasked(base.a, prefix, 0);
    OctetIsMasked(base.b, prefix, 1);
    OctetIsMasked(base.c, prefix, 2);
    OctetIsMasked(base.d, prefix, 3);
  }
}
