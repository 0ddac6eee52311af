/** The size of a TIFF image at the front of a buffer, found by walking its IFD chain (section 2 of TIFF 6.0). */
module TiffSize {
  import opened Sequences

  const TYPE_SIZES: seq<nat> := [0, 1, 1, 2, 4, 8, 1, 1, 2, 4, 8, 4, 8]
  const MAX_IFDS: nat := 64
  const HEADER: nat := 8

  // ------------------------------------------------------------------
  // Reading fields
  // ------------------------------------------------------------------

  function U16(data: seq<byte>, le: bool, i: nat): nat
    requires i + 2 <= |data|
  {
    var a: int, b: int := data[i], data[i + 1];
    if le then a + 256 * b else 256 * a + b
  }

  function U32(data: seq<byte>, le: bool, i: nat): nat
    requires i + 4 <= |data|
  {
    if le then U16(data, le, i) + 65536 * U16(data, le, i + 2) else 65536 * U16(data, le, i) + U16(data, le, i + 2)
  }

  /** Where the out-of-line block of the entry at `e` ends; 0 for an inline value or an unknown type. */
  function BlockEnd(data: seq<byte>, le: bool, e: nat): nat
    requires e + 12 <= |data|
  {
    var typ := U16(data, le, e + 2);
    if typ < 1 || typ >= |TYPE_SIZES| then 0
    else
      var dataLen := U32(data, le, e + 4) * TYPE_SIZES[typ];
      if dataLen <= 4 then 0 else U32(data, le, e + 8) + dataLen
  }

  function Entry(off: nat, i: nat): nat {
    off + 2 + 12 * i
  }

  /** The directory at `off` lies inside the data. */
  predicate IfdInside(data: seq<byte>, le: bool, off: nat) {
    off + 2 <= |data| && Entry(off, U16(data, le, off)) + 4 <= |data|
  }

  function IfdEnd(data: seq<byte>, le: bool, off: nat): nat
    requires IfdInside(data, le, off)
  {
    Entry(off, U16(data, le, off)) + 4
  }

  function NextIfd(data: seq<byte>, le: bool, off: nat): nat
    requires IfdInside(data, le, off)
  {
    U32(data, le, Entry(off, U16(data, le, off)))
  }

  function Max(a: nat, b: nat): nat {
    if a < b then b else a
  }

  // ------------------------------------------------------------------
  // The walk
  // ------------------------------------------------------------------

  /** The furthest end among `maxEnd` and the blocks of the entries from `i` on; None when a block leaves the data. */
  function EntriesEnd(data: seq<byte>, le: bool, off: nat, i: nat, maxEnd: nat): Option<nat>
    requires IfdInside(data, le, off) && i <= U16(data, le, off)
    decreases U16(data, le, off) - i
  {
    if i == U16(data, le, off) then Some(maxEnd)
    else
      var end := BlockEnd(data, le, Entry(off, i));
      if end > |data| then None else EntriesEnd(data, le, off, i + 1, Max(maxEnd, end))
  }

  function Walk(data: seq<byte>, le: bool, off: nat, visited: set<nat>, maxEnd: nat): Option<nat>
    decreases MAX_IFDS - |visited|
  {
    if off == 0 then Some(maxEnd)
    else if !IfdInside(data, le, off) || off in visited || |visited| >= MAX_IFDS then None
    else
      match EntriesEnd(data, le, off, 0, Max(maxEnd, IfdEnd(data, le, off)))
      case None => None
      case Some(m) => Walk(data, le, NextIfd(data, le, off), visited + {off}, m)
  }

  /** The size of the image at the front of `data`, or None when the data is too short or the chain malformed. */
  function TiffSize(data: seq<byte>, le: bool): Option<nat> {
    if |data| < HEADER then None else Walk(data, le, U32(data, le, 4), {}, HEADER)
  }

  /** The inner loop: the furthest end among `floor` and the blocks of the directory's entries. */
  method BlocksEnd(data: seq<byte>, le: bool, ifdOff: nat, floor: nat) returns (maxEnd: nat, ok: bool)
    requires IfdInside(data, le, ifdOff)
    ensures EntriesEnd(data, le, ifdOff, 0, floor) == if ok then Some(maxEnd) else None
  {
    maxEnd := floor;
    var n := U16(data, le, ifdOff);
    for i := 0 to n
      invariant EntriesEnd(data, le, ifdOff, i, maxEnd) == EntriesEnd(data, le, ifdOff, 0, floor)
    {
      var entryOff := ifdOff + 2 + i * 12;
      var typ := U16(data, le, entryOff + 2);
      var count := U32(data, le, entryOff + 4);
      if typ < 1 || typ >= |TYPE_SIZES| {
        continue;
      }
      var dataLen := count * TYPE_SIZES[typ];
      if dataLen <= 4 {
        continue;
      }
      var end := U32(data, le, entryOff + 8) + dataLen;
      if end > |data| {
        return 0, false;
      }
      if end > maxEnd {
        maxEnd := end;
      }
    }
    return maxEnd, true;
  }

  /** The outer loop: directory after directory until the next offset is 0. */
  method TiffFileSize(data: seq<byte>, le: bool) returns (size: nat, ok: bool)
    ensures TiffSize(data, le) == if ok then Some(size) else None
  {
    if |data| < HEADER {
      return 0, false;
    }
    var maxEnd: nat := HEADER;
    var ifdOff: nat := U32(data, le, 4);
    var visited: set<nat> := {};
    while ifdOff != 0
      invariant |visited| <= MAX_IFDS
      invariant Walk(data, le, ifdOff, visited, maxEnd) == TiffSize(data, le)
      decreases MAX_IFDS - |visited|
    {
      if ifdOff + 2 > |data| || ifdOff in visited || |visited| >= MAX_IFDS {
        return 0, false;
      }
      visited := visited + {ifdOff};
      var n := U16(data, le, ifdOff);
      var ifdEnd := ifdOff + 2 + n * 12 + 4;
      if ifdEnd > |data| {
        return 0, false;
      }
      if ifdEnd > maxEnd {
        maxEnd := ifdEnd;
      }
      var inside;
      maxEnd, inside := BlocksEnd(data, le, ifdOff, maxEnd);
      if !inside {
        return 0, false;
      }
      ifdOff := U32(data, le, ifdOff + 2 + n * 12);
    }
    return maxEnd, true;
  }

  // ------------------------------------------------------------------
  // What the walk computes
  // ------------------------------------------------------------------

  /** The directory at `off` and all its blocks lie in the first `limit` bytes. */
  ghost predicate IfdWithin(data: seq<byte>, le: bool, off: nat, limit: nat) {
    && IfdInside(data, le, off) && IfdEnd(data, le, off) <= limit
    && forall i :: 0 <= i < U16(data, le, off) ==> BlockEnd(data, le, Entry(off, i)) <= limit
  }

  /** The directory at `off` or one of its blocks ends at `end`. */
  ghost predicate IfdReaches(data: seq<byte>, le: bool, off: nat, end: nat) {
    && IfdInside(data, le, off)
    && (IfdEnd(data, le, off) == end
        || exists i :: 0 <= i < U16(data, le, off) && BlockEnd(data, le, Entry(off, i)) == end)
  }

  /** `chain` follows the next-directory links from `off` to the terminating zero. */
  ghost predicate IsChain(data: seq<byte>, le: bool, off: nat, chain: seq<nat>)
    decreases |chain|
  {
    if chain == [] then off == 0
    else
      && off != 0 && chain[0] == off && IfdInside(data, le, off)
      && IsChain(data, le, NextIfd(data, le, off), chain[1..])
  }

  ghost predicate Distinct(chain: seq<nat>) {
    forall i, j :: 0 <= i < j < |chain| ==> chain[i] != chain[j]
  }

  /** `size` is the least size at least `floor` that covers every directory of the chain and every block. */
  ghost predicate IsExtent(data: seq<byte>, le: bool, chain: seq<nat>, floor: nat, size: nat) {
    && floor <= size
    && (forall k :: 0 <= k < |chain| ==> IfdWithin(data, le, chain[k], size))
    && (size == floor || exists k :: 0 <= k < |chain| && IfdReaches(data, le, chain[k], size))
  }

  lemma {:induction false} EntriesEndMeans(data: seq<byte>, le: bool, off: nat, i: nat, maxEnd: nat)
    requires IfdInside(data, le, off) && i <= U16(data, le, off)
    ensures var r := EntriesEnd(data, le, off, i, maxEnd);
            && (r.Some? <==> forall j :: i <= j < U16(data, le, off) ==> BlockEnd(data, le, Entry(off, j)) <= |data|)
            && (r.Some? ==>
                  && maxEnd <= r.value
                  && (forall j :: i <= j < U16(data, le, off) ==> BlockEnd(data, le, Entry(off, j)) <= r.value)
                  && (r.value == maxEnd
                      || exists j :: i <= j < U16(data, le, off) && BlockEnd(data, le, Entry(off, j)) == r.value))
    decreases U16(data, le, off) - i
  {
    if i < U16(data, le, off) {
      var end := BlockEnd(data, le, Entry(off, i));
      if end <= |data| {
        EntriesEndMeans(data, le, off, i + 1, Max(maxEnd, end));
      }
    }
  }

  // One directory step of the walk.
  lemma IfdStepMeans(data: seq<byte>, le: bool, off: nat, maxEnd: nat)
    requires IfdInside(data, le, off)
    ensures var r := EntriesEnd(data, le, off, 0, Max(maxEnd, IfdEnd(data, le, off)));
            && (r.Some? <==> IfdWithin(data, le, off, |data|))
            && (r.Some? ==>
                  && maxEnd <= r.value && IfdWithin(data, le, off, r.value)
                  && (r.value == maxEnd || IfdReaches(data, le, off, r.value)))
  {
    EntriesEndMeans(data, le, off, 0, Max(maxEnd, IfdEnd(data, le, off)));
  }

  ghost predicate Apart(chain: seq<nat>, visited: set<nat>) {
    forall k :: 0 <= k < |chain| ==> chain[k] !in visited
  }

  lemma ChainCons(off: nat, rest: seq<nat>, visited: set<nat>)
    requires Distinct(rest) && Apart(rest, visited + {off}) && off !in visited
    ensures Distinct([off] + rest) && Apart([off] + rest, visited)
  {
    var chain := [off] + rest;
    forall k | 0 < k < |chain|
      ensures chain[k] == rest[k - 1] && rest[k - 1] !in visited + {off}
    {
    }
  }

  lemma {:induction false} WalkSound(data: seq<byte>, le: bool, off: nat, visited: set<nat>, maxEnd: nat)
      returns (chain: seq<nat>)
    requires Walk(data, le, off, visited, maxEnd).Some? && |visited| <= MAX_IFDS
    ensures IsChain(data, le, off, chain) && Distinct(chain) && Apart(chain, visited) && |visited| + |chain| <= MAX_IFDS
    ensures IsExtent(data, le, chain, maxEnd, Walk(data, le, off, visited, maxEnd).value)
    ensures maxEnd <= |data| ==> Walk(data, le, off, visited, maxEnd).value <= |data|
    decreases MAX_IFDS - |visited|
  {
    if off == 0 {
      return [];
    }
    IfdStepMeans(data, le, off, maxEnd);
    var m := EntriesEnd(data, le, off, 0, Max(maxEnd, IfdEnd(data, le, off))).value;
    var rest := WalkSound(data, le, NextIfd(data, le, off), visited + {off}, m);
    chain := [off] + rest;
    assert chain[1..] == rest;
    var size := Walk(data, le, off, visited, maxEnd).value;
    ChainCons(off, rest, visited);
    forall k | 0 <= k < |chain|
      ensures IfdWithin(data, le, chain[k], size)
    {
      if k > 0 {
        assert chain[k] == rest[k - 1];
      }
    }
    if size != m {
      var k :| 0 <= k < |rest| && IfdReaches(data, le, rest[k], size);
      assert chain[k + 1] == rest[k];
    } else if size != maxEnd {
      assert IfdReaches(data, le, chain[0], size);
    }
  }

  lemma {:induction false} WalkComplete(data: seq<byte>, le: bool, off: nat, visited: set<nat>, maxEnd: nat,
                                        chain: seq<nat>)
    requires IsChain(data, le, off, chain) && Distinct(chain) && Apart(chain, visited)
        && |visited| + |chain| <= MAX_IFDS
    requires forall k :: 0 <= k < |chain| ==> IfdWithin(data, le, chain[k], |data|)
    ensures Walk(data, le, off, visited, maxEnd).Some?
    decreases MAX_IFDS - |visited|
  {
    if off != 0 {
      IfdStepMeans(data, le, off, maxEnd);
      assert IfdWithin(data, le, chain[0], |data|);
      assert chain[0] !in visited;
      var m := EntriesEnd(data, le, off, 0, Max(maxEnd, IfdEnd(data, le, off))).value;
      forall k | 0 <= k < |chain[1..]|
        ensures chain[1..][k] !in visited + {off}
      {
        assert chain[1..][k] == chain[k + 1];
      }
      WalkComplete(data, le, NextIfd(data, le, off), visited + {off}, m, chain[1..]);
    }
  }

  /** The chain of directories is determined by the data. */
  lemma {:induction false} ChainIsUnique(data: seq<byte>, le: bool, off: nat, a: seq<nat>, b: seq<nat>)
    requires IsChain(data, le, off, a) && IsChain(data, le, off, b)
    ensures a == b
    decreases |a|
  {
    if a != [] {
      ChainIsUnique(data, le, NextIfd(data, le, off), a[1..], b[1..]);
      assert a == [off] + a[1..] && b == [off] + b[1..];
    }
  }

  /**
   * A proper image of size `size`: its chain has at most 64 distinct directories, and everything in it ends by `size`.
   */
  ghost predicate IsTiff(data: seq<byte>, le: bool, chain: seq<nat>, size: nat) {
    && HEADER <= |data|
    && IsChain(data, le, U32(data, le, 4), chain) && Distinct(chain) && |chain| <= MAX_IFDS
    && IsExtent(data, le, chain, HEADER, size) && size <= |data|
  }

  /**
   * The walk answers `size` exactly when the data holds a proper image of that size; cyclic and overlong chains get no
   * answer.
   */
  lemma TiffSizeMeans(data: seq<byte>, le: bool, size: nat)
    ensures TiffSize(data, le) == Some(size) <==> exists chain :: IsTiff(data, le, chain, size)
  {
    if TiffSize(data, le) == Some(size) {
      var chain := WalkSound(data, le, U32(data, le, 4), {}, HEADER);
      assert IsTiff(data, le, chain, size);
    }
    if chain :| IsTiff(data, le, chain, size) {
      forall k | 0 <= k < |chain|
        ensures IfdWithin(data, le, chain[k], |data|)
      {
        assert IfdWithin(data, le, chain[k], size);
      }
      WalkComplete(data, le, U32(data, le, 4), {}, HEADER, chain);
      var chain' := WalkSound(data, le, U32(data, le, 4), {}, HEADER);
      ChainIsUnique(data, le, U32(data, le, 4), chain, chain');
      ExtentIsUnique(data, le, chain, HEADER, size, TiffSize(data, le).value);
    }
  }

  lemma ExtentIsUnique(data: seq<byte>, le: bool, chain: seq<nat>, floor: nat, a: nat, b: nat)
    requires IsExtent(data, le, chain, floor, a) && IsExtent(data, le, chain, floor, b)
    ensures a == b
  {
    forall k, x, y | 0 <= k < |chain| && IfdReaches(data, le, chain[k], x) && IfdWithin(data, le, chain[k], y)
      ensures x <= y
    {
    }
  }

  // ------------------------------------------------------------------
  // Self-delimitation
  // ------------------------------------------------------------------

  ghost predicate AgreeOn(d: seq<byte>, e: seq<byte>, limit: nat) {
    limit <= |d| && limit <= |e| && forall i :: 0 <= i < limit ==> d[i] == e[i]
  }

  lemma IfdAgrees(d: seq<byte>, e: seq<byte>, le: bool, off: nat, limit: nat)
    requires AgreeOn(d, e, limit) && IfdWithin(d, le, off, limit)
    ensures IfdWithin(e, le, off, limit) && U16(e, le, off) == U16(d, le, off)
    ensures NextIfd(e, le, off) == NextIfd(d, le, off) && IfdEnd(e, le, off) == IfdEnd(d, le, off)
    ensures forall i :: 0 <= i < U16(d, le, off) ==> BlockEnd(e, le, Entry(off, i)) == BlockEnd(d, le, Entry(off, i))
  {
    var n := U16(d, le, off);
    assert U16(e, le, off) == n;
    forall i | 0 <= i < n
      ensures BlockEnd(e, le, Entry(off, i)) == BlockEnd(d, le, Entry(off, i))
    {
      BlockAgrees(d, e, le, Entry(off, i), limit);
    }
  }

  lemma BlockAgrees(d: seq<byte>, e: seq<byte>, le: bool, entry: nat, limit: nat)
    requires AgreeOn(d, e, limit) && entry + 12 <= limit
    ensures BlockEnd(e, le, entry) == BlockEnd(d, le, entry)
  {
    assert U16(e, le, entry + 2) == U16(d, le, entry + 2);
    assert U32(e, le, entry + 4) == U32(d, le, entry + 4);
    assert U32(e, le, entry + 8) == U32(d, le, entry + 8);
  }

  lemma {:induction false} ChainAgrees(d: seq<byte>, e: seq<byte>, le: bool, off: nat, chain: seq<nat>, limit: nat)
    requires AgreeOn(d, e, limit) && IsChain(d, le, off, chain)
    requires forall k :: 0 <= k < |chain| ==> IfdWithin(d, le, chain[k], limit)
    ensures IsChain(e, le, off, chain)
    decreases |chain|
  {
    if chain != [] {
      assert IfdWithin(d, le, chain[0], limit);
      IfdAgrees(d, e, le, off, limit);
      forall k | 0 <= k < |chain[1..]|
        ensures IfdWithin(d, le, chain[1..][k], limit)
      {
        assert chain[1..][k] == chain[k + 1];
      }
      ChainAgrees(d, e, le, NextIfd(d, le, off), chain[1..], limit);
    }
  }

  /** The answer covers the header and never exceeds the data. */
  lemma SizeInside(d: seq<byte>, le: bool)
    requires TiffSize(d, le).Some?
    ensures HEADER <= TiffSize(d, le).value <= |d|
  {
    var chain := WalkSound(d, le, U32(d, le, 4), {}, HEADER);
  }

  /**
   * The answer depends on the first `size` bytes alone: any data that agrees there, and is long enough, gives the same
   * answer.
   */
  lemma SelfDelimiting(d: seq<byte>, e: seq<byte>, le: bool)
    requires TiffSize(d, le).Some? && AgreeOn(d, e, TiffSize(d, le).value)
    ensures TiffSize(e, le) == TiffSize(d, le)
  {
    var size := TiffSize(d, le).value;
    SizeInside(d, le);
    TiffSizeMeans(d, le, size);
    var chain :| IsTiff(d, le, chain, size);
    assert U32(e, le, 4) == U32(d, le, 4);
    ChainAgrees(d, e, le, U32(d, le, 4), chain, size);
    forall k | 0 <= k < |chain|
      ensures IfdWithin(e, le, chain[k], size)
      ensures IfdReaches(d, le, chain[k], size) ==> IfdReaches(e, le, chain[k], size)
    {
      IfdAgrees(d, e, le, chain[k], size);
    }
    assert IsTiff(e, le, chain, size);
    TiffSizeMeans(e, le, size);
  }
}
