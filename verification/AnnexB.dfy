/**
 * Annex B byte streams (section B.1 of ITU-T H.264, Annex B of ITU-T H.265): start codes, NAL units and their types.
 */
module AnnexB {
  import opened Sequences

  // ------------------------------------------------------------------
  // Start codes and unit boundaries
  // ------------------------------------------------------------------

  /** 4 or 3 when the 4- or 3-byte start code stands at `i`, otherwise 0. */
  function StartCodeLen(data: seq<byte>, i: nat): nat {
    if i + 3 < |data| && data[i] == 0 && data[i + 1] == 0 && data[i + 2] == 0 && data[i + 3] == 1 then 4
    else if i + 2 < |data| && data[i] == 0 && data[i + 1] == 0 && data[i + 2] == 1 then 3
    else 0
  }

  /** A start code that is not the tail of a 4-byte start code one byte earlier. */
  predicate IsUnitStart(data: seq<byte>, p: nat) {
    StartCodeLen(data, p) != 0 && !(p > 0 && StartCodeLen(data, p - 1) == 4)
  }

  /** The first unit start at or after `i`, or the end of the data. */
  function NextStart(data: seq<byte>, i: nat): (j: nat)
    requires i <= |data|
    ensures i <= j <= |data|
    ensures j < |data| ==> IsUnitStart(data, j)
    ensures forall k :: i <= k < j ==> !IsUnitStart(data, k)
    decreases |data| - i
  {
    if i == |data| || IsUnitStart(data, i) then i else NextStart(data, i + 1)
  }

  /** The units of `data` from the unit start `i` on. */
  function UnitsFrom(data: seq<byte>, i: nat): seq<seq<byte>>
    requires i <= |data|
    decreases |data| - i
  {
    if i == |data| then []
    else
      var j := NextStart(data, i + 1);
      [data[i..j]] + UnitsFrom(data, j)
  }

  /** The NAL units of an Annex B chunk; bytes before the first start code belong to none. */
  function Units(data: seq<byte>): seq<seq<byte>> {
    UnitsFrom(data, NextStart(data, 0))
  }

  // `starts` lists, in order, exactly the unit starts of `data` before `i`.
  ghost predicate StartsBefore(data: seq<byte>, starts: seq<nat>, i: nat) {
    && (forall k :: 0 <= k < |starts| ==> starts[k] < i && starts[k] < |data| && IsUnitStart(data, starts[k]))
    && (forall k, l :: 0 <= k < l < |starts| ==> starts[k] < starts[l])
    && (forall p: nat :: p < i && IsUnitStart(data, p) ==> p in starts)
  }

  lemma StartsBeforeExtend(data: seq<byte>, starts: seq<nat>, i: nat, j: nat)
    requires StartsBefore(data, starts, i) && i < j
    requires i < |data| && IsUnitStart(data, i)
    requires forall p :: i < p < j ==> !IsUnitStart(data, p)
    ensures StartsBefore(data, starts + [i], j)
  {
    assert (starts + [i])[|starts|] == i;
  }

  lemma StartsAreNext(data: seq<byte>, starts: seq<nat>, idx: nat)
    requires StartsBefore(data, starts, |data|)
    requires idx <= |starts|
    ensures NextStart(data, if idx == 0 then 0 else starts[idx - 1] + 1) ==
        (if idx < |starts| then starts[idx] else |data|)
  {
    var from := if idx == 0 then 0 else starts[idx - 1] + 1;
    var j := NextStart(data, from);
    if j < |data| {
      assert j in starts;
      var k :| 0 <= k < |starts| && starts[k] == j;
      assert k >= idx;
    }
  }

  /** The scan: it jumps over each start code it meets. */
  method ScanStarts(data: seq<byte>) returns (starts: seq<nat>)
    ensures StartsBefore(data, starts, |data|)
  {
    starts := [];
    var i := 0;
    while i + 2 < |data|
      invariant 0 <= i <= |data| || |data| < 2
      invariant 0 < i ==> StartCodeLen(data, i - 1) != 4
      invariant StartsBefore(data, starts, i)
      decreases |data| - i
    {
      var sc := StartCodeLen(data, i);
      if sc != 0 {
        StartsBeforeExtend(data, starts, i, i + sc);
        starts := starts + [i];
        i := i + sc;
      } else {
        i := i + 1;
      }
    }
  }

  // What is built so far and the units from `i` on make up the whole list.
  ghost predicate BuiltUpTo(data: seq<byte>, units: seq<seq<byte>>, i: nat) {
    i <= |data| && units + UnitsFrom(data, i) == Units(data)
  }

  lemma BuildNext(data: seq<byte>, units: seq<seq<byte>>, i: nat, j: nat)
    requires BuiltUpTo(data, units, i) && i < |data| && j == NextStart(data, i + 1)
    ensures BuiltUpTo(data, units + [data[i..j]], j)
  {
    assert UnitsFrom(data, i) == [data[i..j]] + UnitsFrom(data, j);
    assert units + ([data[i..j]] + UnitsFrom(data, j)) == (units + [data[i..j]]) + UnitsFrom(data, j);
  }

  /** Units run from each start to the next one, the last to the end of the data. */
  method ParseNALUnits(data: seq<byte>) returns (units: seq<seq<byte>>)
    ensures units == Units(data)
  {
    var starts := ScanStarts(data);
    units := [];
    StartsAreNext(data, starts, 0);
    for idx := 0 to |starts|
      invariant BuiltUpTo(data, units, if idx < |starts| then starts[idx] else |data|)
    {
      var end := |data|;
      if idx + 1 < |starts| {
        end := starts[idx + 1];
      }
      StartsAreNext(data, starts, idx + 1);
      BuildNext(data, units, starts[idx], end);
      units := units + [data[starts[idx]..end]];
    }
  }

  // ------------------------------------------------------------------
  // What parsing keeps
  // ------------------------------------------------------------------

  lemma FirstUnit(data: seq<byte>, i: nat)
    requires i < |data|
    ensures var j := NextStart(data, i + 1); UnitsFrom(data, i) == [data[i..j]] + UnitsFrom(data, j)
  {
  }

  lemma FlattenFront(data: seq<byte>, i: nat, j: nat, rest: seq<seq<byte>>)
    requires i <= j <= |data| && Flatten(rest) == data[j..]
    ensures Flatten([data[i..j]] + rest) == data[i..]
  {
    FlattenCons(data[i..j], rest);
    assert data[i..j] + data[j..] == data[i..];
  }

  lemma {:induction false} UnitsFromReproduce(data: seq<byte>, i: nat)
    requires i <= |data|
    ensures Flatten(UnitsFrom(data, i)) == data[i..]
    decreases |data| - i
  {
    if i < |data| {
      var j := NextStart(data, i + 1);
      UnitsFromReproduce(data, j);
      FirstUnit(data, i);
      FlattenFront(data, i, j, UnitsFrom(data, j));
    }
  }

  /** The units concatenate to the input from its first start code on, so to the input just if it begins with one. */
  lemma UnitsReproduce(data: seq<byte>)
    ensures Flatten(Units(data)) == data[NextStart(data, 0)..]
    ensures Flatten(Units(data)) == data <==> data == [] || StartCodeLen(data, 0) != 0
  {
    UnitsFromReproduce(data, NextStart(data, 0));
  }

  /** A byte before the start code is lost. */
  lemma LeadingByteIsLost()
    ensures Flatten(Units([9, 0, 0, 1, 0x65])) == [0, 0, 1, 0x65]
  {
    var data := [9, 0, 0, 1, 0x65];
    UnitsReproduce(data);
    assert StartCodeLen(data, 0) == 0 && StartCodeLen(data, 1) == 3;
    assert IsUnitStart(data, 1) && !IsUnitStart(data, 0);
    assert NextStart(data, 0) == 1;
  }

  /** The unit that starts at `i` holds its whole start code and is its own only unit. */
  lemma UnitIsWhole(data: seq<byte>, i: nat)
    requires i < |data| && IsUnitStart(data, i)
    ensures var u := data[i..NextStart(data, i + 1)];
            && StartCodeLen(u, 0) == StartCodeLen(data, i)
            && (forall p :: 0 < p < |u| ==> StartCodeLen(u, p) == 0 || (p == 1 && StartCodeLen(u, 0) == 4))
            && Units(u) == [u]
  {
    var j := NextStart(data, i + 1);
    var u := data[i..j];
    var sc := StartCodeLen(data, i);
    assert j >= i + sc;
    forall p | 0 < p < |u|
      ensures !IsUnitStart(u, p)
      ensures StartCodeLen(u, p) == 0 || (p == 1 && StartCodeLen(u, 0) == 4)
    {
      assert !IsUnitStart(data, i + p);
      if StartCodeLen(u, p) != 0 {
        assert StartCodeLen(data, i + p) == StartCodeLen(u, p);
        assert StartCodeLen(data, i + p - 1) == 4;
        if p > 1 {
          assert StartCodeLen(data, i + p - 2) != 4;
          assert IsUnitStart(data, i + p - 1);
        }
      }
    }
    assert NextStart(u, 0) == 0;
    assert NextStart(u, 1) == |u|;
    assert u[0..|u|] == u;
    assert UnitsFrom(u, |u|) == [];
  }

  lemma {:induction false} UnitsFromAreWhole(data: seq<byte>, i: nat)
    requires i <= |data| && (i < |data| ==> IsUnitStart(data, i))
    ensures forall u :: u in UnitsFrom(data, i) ==> StartCodeLen(u, 0) != 0 && Units(u) == [u]
    decreases |data| - i
  {
    if i < |data| {
      UnitIsWhole(data, i);
      UnitsFromAreWhole(data, NextStart(data, i + 1));
    }
  }

  /** Every parsed unit begins with a start code and parses to itself alone: it holds no further unit. */
  lemma UnitsAreWhole(data: seq<byte>)
    ensures forall u :: u in Units(data) ==> StartCodeLen(u, 0) != 0 && Units(u) == [u]
  {
    UnitsFromAreWhole(data, NextStart(data, 0));
  }

  // ------------------------------------------------------------------
  // Parsing distributes over a cut at a unit start
  // ------------------------------------------------------------------

  lemma StartsOfCut(a: seq<byte>, b: seq<byte>, p: nat)
    requires |b| > 0 && IsUnitStart(a + b, |a|)
    ensures p < |a| ==> (IsUnitStart(a + b, p) <==> IsUnitStart(a, p))
    ensures p >= |a| ==> (IsUnitStart(a + b, p) <==> IsUnitStart(b, p - |a|))
  {
    var d := a + b;
    assert d[|a|] == 0 && d[|a| + 1] == 0;
    if p < |a| {
      assert StartCodeLen(d, p) == StartCodeLen(a, p);
      if p > 0 {
        assert StartCodeLen(d, p - 1) == StartCodeLen(a, p - 1);
      }
    } else {
      var q := p - |a|;
      assert StartCodeLen(d, p) == StartCodeLen(b, q);
      if q > 0 {
        assert StartCodeLen(d, p - 1) == StartCodeLen(b, q - 1);
      }
    }
  }

  lemma SliceShift(d: seq<byte>, b: seq<byte>, n: nat, i: nat, j: nat)
    requires |d| == n + |b| && d[n..] == b && i <= j <= |b|
    ensures d[n + i..n + j] == b[i..j]
  {
    assert forall k :: 0 <= k < |b| ==> d[n + k] == d[n..][k];
  }

  // From position `k` of `b` on the next start is the one of `d`, `n` bytes further.
  ghost predicate ShiftsAt(d: seq<byte>, b: seq<byte>, n: nat, k: nat) {
    k <= |b| && |d| == n + |b| && NextStart(d, n + k) == n + NextStart(b, k)
  }

  lemma {:induction false} UnitsFromShiftBy(d: seq<byte>, b: seq<byte>, n: nat, i: nat)
    requires |d| == n + |b| && d[n..] == b && i <= |b|
    requires forall k :: 0 <= k <= |b| ==> ShiftsAt(d, b, n, k)
    ensures UnitsFrom(d, n + i) == UnitsFrom(b, i)
    decreases |b| - i
  {
    if i < |b| {
      assert ShiftsAt(d, b, n, i + 1);
      var j := NextStart(b, i + 1);
      UnitsFromShiftBy(d, b, n, j);
      SliceShift(d, b, n, i, j);
      SameUnits(d, b, n + i, i, n + j, j);
    }
  }

  lemma UnitsFromShift(a: seq<byte>, b: seq<byte>, i: nat)
    requires |b| > 0 && IsUnitStart(a + b, |a|) && i <= |b|
    ensures UnitsFrom(a + b, |a| + i) == UnitsFrom(b, i)
  {
    forall k | 0 <= k <= |b|
      ensures ShiftsAt(a + b, b, |a|, k)
    {
      NextStartShift(a, b, k);
    }
    UnitsFromShiftBy(a + b, b, |a|, i);
  }

  lemma SameUnits(d: seq<byte>, b: seq<byte>, i: nat, i': nat, j: nat, j': nat)
    requires i < |d| && i' < |b| && j == NextStart(d, i + 1) && j' == NextStart(b, i' + 1)
    requires d[i..j] == b[i'..j'] && UnitsFrom(d, j) == UnitsFrom(b, j')
    ensures UnitsFrom(d, i) == UnitsFrom(b, i')
  {
  }

  lemma NextStartShift(a: seq<byte>, b: seq<byte>, i: nat)
    requires |b| > 0 && IsUnitStart(a + b, |a|) && i <= |b|
    ensures NextStart(a + b, |a| + i) == |a| + NextStart(b, i)
  {
    var j := NextStart(b, i);
    var k := NextStart(a + b, |a| + i);
    if k < |a| + j {
      StartsOfCut(a, b, k);
    } else if |a| + j < k {
      StartsOfCut(a, b, |a| + j);
    }
  }

  lemma NextStartBeforeCut(a: seq<byte>, b: seq<byte>, i: nat)
    requires |b| > 0 && IsUnitStart(a + b, |a|) && i <= |a|
    ensures NextStart(a + b, i) == NextStart(a, i)
  {
    var j := NextStart(a, i);
    var k := NextStart(a + b, i);
    if k < j {
      StartsOfCut(a, b, k);
    } else if j < k {
      StartsOfCut(a, b, j);
    }
  }

  lemma {:induction false} UnitsFromCut(a: seq<byte>, b: seq<byte>, i: nat)
    requires |b| > 0 && IsUnitStart(a + b, |a|) && i <= |a|
    ensures UnitsFrom(a + b, i) == UnitsFrom(a, i) + UnitsFrom(b, 0)
    decreases |a| - i
  {
    if i == |a| {
      UnitsFromShift(a, b, 0);
    } else {
      var j := NextStart(a, i + 1);
      NextStartBeforeCut(a, b, i + 1);
      UnitsFromCut(a, b, j);
      assert (a + b)[i..j] == a[i..j];
      UnitsFromJoin(a + b, a, i, j, UnitsFrom(b, 0));
    }
  }

  lemma UnitsFromJoin(d: seq<byte>, a: seq<byte>, i: nat, j: nat, rest: seq<seq<byte>>)
    requires i < |a| <= |d| && i < j <= |a| && j == NextStart(a, i + 1) == NextStart(d, i + 1)
    requires d[i..j] == a[i..j] && UnitsFrom(d, j) == UnitsFrom(a, j) + rest
    ensures UnitsFrom(d, i) == UnitsFrom(a, i) + rest
  {
    assert [a[i..j]] + (UnitsFrom(a, j) + rest) == ([a[i..j]] + UnitsFrom(a, j)) + rest;
  }

  /** Cutting a stream at any unit start cuts its list of units. */
  lemma UnitsOfCut(a: seq<byte>, b: seq<byte>)
    requires |b| > 0 && IsUnitStart(a + b, |a|)
    ensures Units(a + b) == Units(a) + Units(b)
  {
    NextStartBeforeCut(a, b, 0);
    StartsOfCut(a, b, |a|);
    UnitsFromCut(a, b, NextStart(a, 0));
  }

  // ------------------------------------------------------------------
  // NAL unit types
  // ------------------------------------------------------------------

  /** What a camera can be opened with: the bitstream encodings and the still-image ones. */
  datatype Encoding = H264 | H265 | Hevc | Jpeg | Png | Bmp | Tiff

  /** The unit types the camera code tells apart. */
  datatype NalKind = Vps | Sps | Pps | Idr | OtherNal

  /** Section 7.4.1 of ITU-T H.264: the type is the low 5 bits of the header byte. */
  function H264NALType(hdr: byte): nat {
    hdr % 32
  }

  /** Section 7.4.2.2 of ITU-T H.265: the type is bits 1 to 6 of the first header byte. */
  function H265NALType(hdr: byte): nat {
    hdr / 2 % 64
  }

  function KindOfHeader(hdr: byte, encoding: Encoding): NalKind {
    if encoding == H264 then
      var t := H264NALType(hdr);
      if t == 5 then Idr else if t == 7 then Sps else if t == 8 then Pps else OtherNal
    else
      var t := H265NALType(hdr);
      if t == 19 || t == 20 then Idr
      else if t == 32 then Vps
      else if t == 33 then Sps
      else if t == 34 then Pps
      else OtherNal
  }

  // ------------------------------------------------------------------
  // Header bytes in bits
  // ------------------------------------------------------------------

  /** The unit begins with a start code, and this byte follows. */
  predicate HeaderIs(u: seq<byte>, x: bv8) {
    || (|u| > 4 && u[0] == 0 && u[1] == 0 && u[2] == 0 && u[3] == 1 && u[4] == x as nat)
    || (|u| > 3 && u[0] == 0 && u[1] == 0 && u[2] == 1 && u[3] == x as nat)
  }

  /** The unit types of Table 7-1 of ITU-T H.264 and Table 7-1 of ITU-T H.265, which has two IDR types. */
  predicate TypeIs(x: bv8, encoding: Encoding, k: NalKind) {
    if encoding == H264 then
      var t := x & 0x1F;
      match k
      case Idr => t == 5
      case Sps => t == 7
      case Pps => t == 8
      case Vps => false
      case OtherNal => t != 5 && t != 7 && t != 8
    else
      var t := (x >> 1) & 0x3F;
      match k
      case Idr => t == 19 || t == 20
      case Vps => t == 32
      case Sps => t == 33
      case Pps => t == 34
      case OtherNal => t != 19 && t != 20 && t != 32 && t != 33 && t != 34
  }

  lemma LowBits(x: bv8)
    ensures H264NALType(x as nat) == (x & 0x1F) as nat
  {
  }

  lemma Halved(x: bv8)
    ensures (x >> 1) as nat == x as nat / 2
  {
  }

  lemma LowSix(x: bv8)
    ensures x as nat % 64 == (x & 0x3F) as nat
  {
  }

  lemma Next(x: bv8)
    requires x < 0xFF
    ensures (x + 1) as nat == x as nat + 1
  {
  }

  lemma {:induction false} AsBits(h: byte) returns (x: bv8)
    ensures x as nat == h
  {
    x := 0;
    if h > 0 {
      x := AsBits(h - 1);
      Next(x);
      x := x + 1;
    }
  }

  lemma SameBits(x: bv8, y: bv8)
    requires x as nat == y as nat
    ensures x == y
  {
  }

  /** The kind of a header byte is what its bits say. */
  lemma KindIsInBits(x: bv8, encoding: Encoding, k: NalKind)
    ensures KindOfHeader(x as nat, encoding) == k <==> TypeIs(x, encoding, k)
  {
    LowBits(x);
    Halved(x);
    LowSix(x >> 1);
  }

  lemma UnitKindIsInBits(u: seq<byte>, encoding: Encoding, k: NalKind)
    requires k != OtherNal
    ensures UnitKind(u, encoding) == k <==> exists x :: HeaderIs(u, x) && TypeIs(x, encoding, k)
  {
    match NalHeaderByte(u)
    case None =>
    case Some(hdr) =>
      var x := AsBits(hdr);
      assert HeaderIs(u, x);
      forall y | HeaderIs(u, y)
        ensures y == x
      {
        SameBits(x, y);
      }
      KindIsInBits(x, encoding, k);
  }

  /** Some unit of the list has a header of that type. */
  ghost predicate SomeHeader(units: seq<seq<byte>>, encoding: Encoding, k: NalKind) {
    exists u, x :: u in units && HeaderIs(u, x) && TypeIs(x, encoding, k)
  }

  lemma SomeUnitIsInBits(units: seq<seq<byte>>, encoding: Encoding, k: NalKind)
    requires k != OtherNal
    ensures SomeUnit(units, encoding, k) <==> SomeHeader(units, encoding, k)
  {
    forall u | u in units
      ensures UnitKind(u, encoding) == k <==> exists x :: HeaderIs(u, x) && TypeIs(x, encoding, k)
    {
      UnitKindIsInBits(u, encoding, k);
    }
  }

  /** The byte after the unit's start code, if the unit has one. */
  function NalHeaderByte(unit: seq<byte>): Option<byte> {
    var sc := StartCodeLen(unit, 0);
    if sc == 0 || |unit| <= sc then None else Some(unit[sc])
  }

  function UnitKind(unit: seq<byte>, encoding: Encoding): NalKind {
    match NalHeaderByte(unit)
    case None => OtherNal
    case Some(hdr) => KindOfHeader(hdr, encoding)
  }

  /** Some unit of the list is of kind `k`. */
  predicate SomeUnit(units: seq<seq<byte>>, encoding: Encoding, k: NalKind) {
    exists u :: u in units && UnitKind(u, encoding) == k
  }

  /** The chunk holds a unit of kind `k`. */
  predicate Holds(data: seq<byte>, encoding: Encoding, k: NalKind) {
    SomeUnit(Units(data), encoding, k)
  }

  // The kind of the unit that starts at `p`, read off the data itself.
  function KindAt(data: seq<byte>, p: nat, encoding: Encoding): NalKind {
    var h := p + StartCodeLen(data, p);
    if h == p || h >= |data| then OtherNal else KindOfHeader(data[h], encoding)
  }

  ghost predicate HoldsAt(data: seq<byte>, encoding: Encoding, k: NalKind, p: nat) {
    IsUnitStart(data, p) && KindAt(data, p, encoding) == k
  }

  lemma KindOfUnitAt(data: seq<byte>, i: nat, encoding: Encoding)
    requires i < |data| && IsUnitStart(data, i)
    ensures UnitKind(data[i..NextStart(data, i + 1)], encoding) == KindAt(data, i, encoding)
  {
    UnitIsWhole(data, i);
  }

  lemma {:induction false} SomeUnitFrom(data: seq<byte>, i: nat, encoding: Encoding, k: NalKind)
    requires i <= |data| && (i < |data| ==> IsUnitStart(data, i))
    ensures SomeUnit(UnitsFrom(data, i), encoding, k) <==> exists p: nat :: i <= p && HoldsAt(data, encoding, k, p)
    decreases |data| - i
  {
    if i < |data| {
      var j := NextStart(data, i + 1);
      KindOfUnitAt(data, i, encoding);
      SomeUnitFrom(data, j, encoding, k);
      assert UnitsFrom(data, i) == [data[i..j]] + UnitsFrom(data, j);
      if SomeUnit(UnitsFrom(data, i), encoding, k) {
        if UnitKind(data[i..j], encoding) == k {
          assert HoldsAt(data, encoding, k, i);
        } else {
          assert SomeUnit(UnitsFrom(data, j), encoding, k);
        }
      }
      if p: nat :| i <= p && HoldsAt(data, encoding, k, p) {
        if p == i {
          assert data[i..j] in UnitsFrom(data, i);
        } else {
          assert j <= p;
          var u :| u in UnitsFrom(data, j) && UnitKind(u, encoding) == k;
          assert u in UnitsFrom(data, i);
        }
      }
    }
  }

  /** A chunk holds a unit of a kind exactly when a unit start with that header stands somewhere in it. */
  lemma HoldsSomewhere(data: seq<byte>, encoding: Encoding, k: NalKind)
    ensures Holds(data, encoding, k) <==> exists p: nat :: HoldsAt(data, encoding, k, p)
  {
    SomeUnitFrom(data, NextStart(data, 0), encoding, k);
    if p: nat :| HoldsAt(data, encoding, k, p) {
      assert NextStart(data, 0) <= p;
    }
  }

  lemma HoldsAtLeft(x: seq<byte>, y: seq<byte>, encoding: Encoding, k: NalKind, p: nat)
    requires k != OtherNal && HoldsAt(x, encoding, k, p)
    ensures HoldsAt(x + y, encoding, k, p)
  {
    assert StartCodeLen(x + y, p) == StartCodeLen(x, p);
    if p > 0 {
      assert StartCodeLen(x + y, p - 1) == StartCodeLen(x, p - 1);
    }
  }

  // A 3-byte start code at the front of `y` grows by a zero byte at the end of `x`.
  lemma HoldsAtRight(x: seq<byte>, y: seq<byte>, encoding: Encoding, k: NalKind, p: nat)
    requires k != OtherNal && HoldsAt(y, encoding, k, p)
    ensures HoldsAt(x + y, encoding, k, |x| + p) || (|x| > 0 && HoldsAt(x + y, encoding, k, |x| - 1))
  {
    var d := x + y;
    assert forall i :: 0 <= i < |y| ==> d[|x| + i] == y[i];
    assert StartCodeLen(d, |x| + p) == StartCodeLen(y, p);
    if p > 0 {
      assert StartCodeLen(d, |x| + p - 1) == StartCodeLen(y, p - 1);
    } else if |x| > 0 && StartCodeLen(d, |x| - 1) == 4 {
      assert d[|x| + 1] == 0;
      assert |x| > 1 ==> StartCodeLen(d, |x| - 2) != 4;
    }
  }

  /** Prepending or appending bytes never hides a unit of a significant kind. */
  lemma HoldsConcat(x: seq<byte>, y: seq<byte>, encoding: Encoding, k: NalKind)
    requires k != OtherNal
    requires Holds(x, encoding, k) || Holds(y, encoding, k)
    ensures Holds(x + y, encoding, k)
  {
    HoldsSomewhere(x, encoding, k);
    HoldsSomewhere(y, encoding, k);
    HoldsSomewhere(x + y, encoding, k);
    if p: nat :| HoldsAt(x, encoding, k, p) {
      HoldsAtLeft(x, y, encoding, k, p);
    } else {
      var p: nat :| HoldsAt(y, encoding, k, p);
      HoldsAtRight(x, y, encoding, k, p);
    }
  }

  /** Joining two chunks creates no unit of a significant kind when the second begins with a start code. */
  lemma HoldsOnlyParts(x: seq<byte>, y: seq<byte>, encoding: Encoding, k: NalKind)
    requires k != OtherNal && StartCodeLen(y, 0) != 0
    requires Holds(x + y, encoding, k)
    ensures Holds(x, encoding, k) || Holds(y, encoding, k)
  {
    HoldsSomewhere(x, encoding, k);
    HoldsSomewhere(y, encoding, k);
    HoldsSomewhere(x + y, encoding, k);
    var p: nat :| HoldsAt(x + y, encoding, k, p);
    if p >= |x| {
      var q := p - |x|;
      assert StartCodeLen(x + y, p) == StartCodeLen(y, q);
      if q > 0 {
        assert StartCodeLen(x + y, p - 1) == StartCodeLen(y, q - 1);
      }
      assert HoldsAt(y, encoding, k, q);
    } else if p + StartCodeLen(x + y, p) < |x| {
      assert StartCodeLen(x + y, p) == StartCodeLen(x, p);
      if p > 0 {
        assert StartCodeLen(x + y, p - 1) == StartCodeLen(x, p - 1);
      }
      assert HoldsAt(x, encoding, k, p);
    } else {
      assert (x + y)[p + StartCodeLen(x + y, p)] != 0;
      assert p == |x| - 1 && StartCodeLen(x + y, p) == 4 && StartCodeLen(y, 0) == 3;
      assert HoldsAt(y, encoding, k, 0);
    }
  }

  /** A unit of a list taken from a chunk keeps its kind when it is parsed on its own. */
  lemma UnitHoldsItself(u: seq<byte>, encoding: Encoding)
    requires Units(u) == [u]
    ensures Holds(u, encoding, UnitKind(u, encoding))
    ensures forall k :: Holds(u, encoding, k) ==> k == UnitKind(u, encoding)
  {
    assert u in Units(u);
  }

  /** The chunk holds an IDR or a parameter set. */
  predicate HoldsSignificant(data: seq<byte>, encoding: Encoding) {
    exists k :: k != OtherNal && Holds(data, encoding, k)
  }

  lemma SignificantIsInBits(data: seq<byte>, encoding: Encoding)
    ensures HoldsSignificant(data, encoding) <==>
            exists u, x :: u in Units(data) && HeaderIs(u, x) && !TypeIs(x, encoding, OtherNal)
  {
    forall k | k != OtherNal
      ensures Holds(data, encoding, k) <==> SomeHeader(Units(data), encoding, k)
    {
      SomeUnitIsInBits(Units(data), encoding, k);
    }
    if u, x :| u in Units(data) && HeaderIs(u, x) && !TypeIs(x, encoding, OtherNal) {
      KindIsInBits(x, encoding, OtherNal);
      KindIsInBits(x, encoding, KindOfHeader(x as nat, encoding));
      assert SomeHeader(Units(data), encoding, KindOfHeader(x as nat, encoding));
    }
  }

  method IsKeyframeNAL(data: seq<byte>, encoding: Encoding) returns (key: bool)
    ensures key <==> HoldsSignificant(data, encoding)
    ensures key <==> exists u, x :: u in Units(data) && HeaderIs(u, x) && !TypeIs(x, encoding, OtherNal)
  {
    SignificantIsInBits(data, encoding);
    var units := ParseNALUnits(data);
    for i := 0 to |units|
      invariant forall j :: 0 <= j < i ==> UnitKind(units[j], encoding) == OtherNal
    {
      var kind := UnitKind(units[i], encoding);
      if kind != OtherNal {
        assert Holds(data, encoding, kind);
        return true;
      }
    }
    return false;
  }
}
