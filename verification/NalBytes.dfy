/** NAL units as bytes on the wire: what is written is what is parsed, and what a chunk holds is told by its bytes. */
module NalBytes {
  import opened Sequences
  import opened AnnexB

  // ------------------------------------------------------------------
  // Headers in a chunk
  // ------------------------------------------------------------------

  /** 00 00 01 and this byte. */
  predicate HeaderAt(data: seq<byte>, p: nat, x: bv8) {
    p + 3 < |data| && data[p] == 0 && data[p + 1] == 0 && data[p + 2] == 1 && data[p + 3] == x as nat
  }

  lemma StartHasHeader(data: seq<byte>, encoding: Encoding, k: NalKind, p: nat)
    requires k != OtherNal && HoldsAt(data, encoding, k, p)
    ensures exists q: nat, x :: HeaderAt(data, q, x) && TypeIs(x, encoding, k)
  {
    var q := p + StartCodeLen(data, p) - 3;
    var x := AsBits(data[q + 3]);
    KindIsInBits(x, encoding, k);
    assert HeaderAt(data, q, x);
  }

  lemma HeaderHasStart(data: seq<byte>, encoding: Encoding, k: NalKind, q: nat, x: bv8)
    requires HeaderAt(data, q, x) && TypeIs(x, encoding, k)
    ensures exists p: nat :: HoldsAt(data, encoding, k, p)
  {
    KindIsInBits(x, encoding, k);
    if q > 0 && data[q - 1] == 0 {
      assert HoldsAt(data, encoding, k, q - 1);
    } else {
      assert HoldsAt(data, encoding, k, q);
    }
  }

  /** A chunk holds a unit of a type exactly when 00 00 01 and a header byte of that type stand somewhere in it. */
  lemma HoldsInBytes(data: seq<byte>, encoding: Encoding, k: NalKind)
    requires k != OtherNal
    ensures Holds(data, encoding, k) <==> exists q: nat, x :: HeaderAt(data, q, x) && TypeIs(x, encoding, k)
  {
    HoldsSomewhere(data, encoding, k);
    if p: nat :| HoldsAt(data, encoding, k, p) {
      StartHasHeader(data, encoding, k, p);
    }
    if q: nat, x :| HeaderAt(data, q, x) && TypeIs(x, encoding, k) {
      HeaderHasStart(data, encoding, k, q, x);
    }
  }

  /** A chunk is a keyframe exactly when 00 00 01 and an IDR or parameter-set header stand somewhere in it. */
  lemma SignificantInBytes(data: seq<byte>, encoding: Encoding)
    ensures HoldsSignificant(data, encoding) <==>
            exists q: nat, x :: HeaderAt(data, q, x) && !TypeIs(x, encoding, OtherNal)
  {
    forall k | k != OtherNal
      ensures Holds(data, encoding, k) <==> exists q: nat, x :: HeaderAt(data, q, x) && TypeIs(x, encoding, k)
    {
      HoldsInBytes(data, encoding, k);
    }
    if q: nat, x :| HeaderAt(data, q, x) && !TypeIs(x, encoding, OtherNal) {
      KindIsInBits(x, encoding, OtherNal);
      KindIsInBits(x, encoding, KindOfHeader(x as nat, encoding));
      assert Holds(data, encoding, KindOfHeader(x as nat, encoding));
    }
  }

  // ------------------------------------------------------------------
  // Writing units
  // ------------------------------------------------------------------

  /** A unit to be written behind a 4- or a 3-byte start code. */
  datatype Nal = Nal(long: bool, body: seq<byte>)

  /** Emulation prevention keeps 00 00 01 out of the body, and a unit ends with a byte other than 00. */
  predicate WellFormed(n: Nal) {
    && n.body != [] && n.body[|n.body| - 1] != 0
    && forall i :: 0 <= i < |n.body| - 2 ==> !(n.body[i] == 0 && n.body[i + 1] == 0 && n.body[i + 2] == 1)
  }

  function Written(n: Nal): seq<byte> {
    (if n.long then [0, 0, 0, 1] else [0, 0, 1]) + n.body
  }

  function AllWritten(ns: seq<Nal>): seq<seq<byte>> {
    seq(|ns|, i requires 0 <= i < |ns| => Written(ns[i]))
  }

  lemma WrittenIsOne(n: Nal)
    requires WellFormed(n)
    ensures Units(Written(n)) == [Written(n)]
  {
    var u := Written(n);
    var sc := if n.long then 4 else 3;
    assert forall i :: sc <= i < |u| ==> u[i] == n.body[i - sc];
    forall i: nat | 0 < i < |u|
      ensures !IsUnitStart(u, i)
    {
      if i >= sc {
        assert StartCodeLen(u, i) == 0;
      }
    }
    assert NextStart(u, 0) == 0 && NextStart(u, 1) == |u|;
    assert u[0..|u|] == u && UnitsFrom(u, |u|) == [];
  }

  lemma WrittenCut(n: Nal, rest: seq<byte>)
    requires WellFormed(n) && StartCodeLen(rest, 0) != 0
    ensures Units(Written(n) + rest) == [Written(n)] + Units(rest)
  {
    var u := Written(n);
    assert u[|u| - 1] != 0;
    assert StartCodeLen(u + rest, |u|) == StartCodeLen(rest, 0);
    WrittenIsOne(n);
    UnitsOfCut(u, rest);
  }

  /** Units written one after the other, behind start codes of either length, are parsed as they were written. */
  lemma {:induction false} WrittenIsParsed(ns: seq<Nal>)
    requires forall n :: n in ns ==> WellFormed(n)
    ensures Units(Flatten(AllWritten(ns))) == AllWritten(ns)
  {
    if ns != [] {
      var rest := ns[1..];
      WrittenIsParsed(rest);
      assert AllWritten(ns) == [Written(ns[0])] + AllWritten(rest);
      FlattenCons(Written(ns[0]), AllWritten(rest));
      if rest == [] {
        assert Flatten(AllWritten(rest)) == [] && Written(ns[0]) + [] == Written(ns[0]);
        WrittenIsOne(ns[0]);
      } else {
        assert Flatten(AllWritten(rest)) == Written(rest[0]) + Flatten(AllWritten(rest)[1..]);
        assert StartCodeLen(Flatten(AllWritten(rest)), 0) != 0;
        WrittenCut(ns[0], Flatten(AllWritten(rest)));
      }
    }
  }

  predicate Begins(n: Nal, x: bv8) {
    n.body != [] && n.body[0] == x as nat
  }

  lemma WrittenHeader(n: Nal, x: bv8)
    requires WellFormed(n)
    ensures HeaderIs(Written(n), x) <==> Begins(n, x)
  {
  }

  /** What a written chunk holds are the types of the header bytes written. */
  lemma WrittenHolds(ns: seq<Nal>, encoding: Encoding, k: NalKind)
    requires k != OtherNal && forall n :: n in ns ==> WellFormed(n)
    ensures Holds(Flatten(AllWritten(ns)), encoding, k) <==>
            exists n, x :: n in ns && Begins(n, x) && TypeIs(x, encoding, k)
  {
    WrittenIsParsed(ns);
    var units := AllWritten(ns);
    SomeUnitIsInBits(units, encoding, k);
    if u, x :| u in units && HeaderIs(u, x) && TypeIs(x, encoding, k) {
      var i :| 0 <= i < |ns| && units[i] == u;
      assert ns[i] in ns;
      WrittenHeader(ns[i], x);
    }
    if n, x :| n in ns && Begins(n, x) && TypeIs(x, encoding, k) {
      var i :| 0 <= i < |ns| && ns[i] == n;
      WrittenHeader(n, x);
      assert units[i] in units && HeaderIs(units[i], x);
    }
  }
}
