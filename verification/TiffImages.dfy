/** Fields and whole TIFF images written out byte by byte, in both byte orders (section 2 of TIFF 6.0). */
module TiffImages {
  import opened Sequences
  import opened TiffSize

  // ------------------------------------------------------------------
  // Byte order
  // ------------------------------------------------------------------

  /** A SHORT: least significant byte first in little-endian files, last in big-endian ones. */
  function Short(n: nat, le: bool): seq<byte>
    requires n < 0x1_0000
  {
    if le then [n % 256, n / 256] else [n / 256, n % 256]
  }

  function Long(n: nat, le: bool): seq<byte>
    requires n < 0x1_0000_0000
  {
    var b0, b1, b2, b3 := n % 256, n / 256 % 256, n / 65536 % 256, n / 16777216;
    if le then [b0, b1, b2, b3] else [b3, b2, b1, b0]
  }

  lemma ShortAt(n: nat, le: bool, d: seq<byte>, i: nat)
    requires n < 0x1_0000 && i + 2 <= |d| && d[i..i + 2] == Short(n, le)
    ensures U16(d, le, i) == n
  {
    assert d[i] == d[i..i + 2][0] && d[i + 1] == d[i..i + 2][1];
  }

  lemma Quarters(n: nat)
    requires n < 0x1_0000_0000
    ensures n % 256 + 256 * (n / 256 % 256) + 65536 * (n / 65536 % 256 + 256 * (n / 16777216)) == n
  {
  }

  lemma LongAt(n: nat, le: bool, d: seq<byte>, i: nat)
    requires n < 0x1_0000_0000 && i + 4 <= |d| && d[i..i + 4] == Long(n, le)
    ensures U32(d, le, i) == n
  {
    var four := d[i..i + 4];
    assert d[i] == four[0] && d[i + 1] == four[1] && d[i + 2] == four[2] && d[i + 3] == four[3];
    Quarters(n);
  }

  /** Every value is read as it is written, in either order. */
  lemma FieldsAreRead(n: nat, le: bool, before: seq<byte>, after: seq<byte>)
    requires n < 0x1_0000_0000
    ensures n < 0x1_0000 ==> U16(before + Short(n, le) + after, le, |before|) == n
    ensures U32(before + Long(n, le) + after, le, |before|) == n
  {
    if n < 0x1_0000 {
      ShortAt(n, le, before + Short(n, le) + after, |before|);
    }
    LongAt(n, le, before + Long(n, le) + after, |before|);
  }

  // ------------------------------------------------------------------
  // One directory with one entry
  // ------------------------------------------------------------------

  datatype FieldType =
    | BYTE | ASCII | SHORT | LONG | RATIONAL | SBYTE | UNDEFINED | SSHORT | SLONG | SRATIONAL | FLOAT | DOUBLE

  /** The number that stands for the type in an entry. */
  function Code(t: FieldType): nat {
    match t
    case BYTE => 1 case ASCII => 2 case SHORT => 3 case LONG => 4 case RATIONAL => 5 case SBYTE => 6
    case UNDEFINED => 7 case SSHORT => 8 case SLONG => 9 case SRATIONAL => 10 case FLOAT => 11 case DOUBLE => 12
  }

  /** The bytes of one value. */
  function Width(t: FieldType): nat {
    match t
    case BYTE | ASCII | SBYTE | UNDEFINED => 1
    case SHORT | SSHORT => 2
    case LONG | SLONG | FLOAT => 4
    case RATIONAL | SRATIONAL => 8 // two LONGs
    case DOUBLE => 8
  }

  /** A field's values lie outside its entry when they need more than the entry's four bytes. */
  function OutOfLine(t: FieldType, count: nat): nat {
    if count * Width(t) <= 4 then 0 else count * Width(t)
  }

  function Magic(le: bool): seq<byte> {
    if le then [0x49, 0x49, 0x2A, 0x00] else [0x4D, 0x4D, 0x00, 0x2A]
  }

  function Header(le: bool): seq<byte> {
    Magic(le) + Long(8, le)
  }

  function OneEntry(tag: nat, code: nat, count: nat, value: nat, le: bool): seq<byte>
    requires tag < 0x1_0000 && code < 0x1_0000 && count < 0x1_0000_0000 && value < 0x1_0000_0000
  {
    Short(tag, le) + Short(code, le) + Long(count, le) + Long(value, le)
  }

  /** Header, a directory with one entry, and what follows the directory. */
  function Image(tag: nat, code: nat, count: nat, value: nat, rest: seq<byte>, le: bool): seq<byte>
    requires tag < 0x1_0000 && code < 0x1_0000 && count < 0x1_0000_0000 && value < 0x1_0000_0000
  {
    Header(le) + Short(1, le) + OneEntry(tag, code, count, value, le) + Long(0, le) + rest
  }

  // Where the parts of an image lie.
  lemma Layout(magic: seq<byte>, first: seq<byte>, n: seq<byte>, tag: seq<byte>, code: seq<byte>, count: seq<byte>,
               value: seq<byte>, next: seq<byte>, rest: seq<byte>)
    requires |magic| == |first| == |count| == |value| == |next| == 4 && |n| == |tag| == |code| == 2
    ensures var d := magic + first + n + (tag + code + count + value) + next + rest;
            && |d| == 26 + |rest| && d[4..8] == first && d[8..10] == n && d[12..14] == code && d[14..18] == count
            && d[18..22] == value && d[22..26] == next
  {
  }

  lemma ImageFields(tag: nat, code: nat, count: nat, value: nat, rest: seq<byte>, le: bool)
    requires tag < 0x1_0000 && code < 0x1_0000 && count < 0x1_0000_0000 && value < 0x1_0000_0000
    ensures var d := Image(tag, code, count, value, rest, le);
            && |d| == 26 + |rest| && U32(d, le, 4) == 8 && U16(d, le, 8) == 1 && U16(d, le, 12) == code
            && U32(d, le, 14) == count && U32(d, le, 18) == value && U32(d, le, 22) == 0
  {
    var d := Image(tag, code, count, value, rest, le);
    Layout(Magic(le), Long(8, le), Short(1, le), Short(tag, le), Short(code, le), Long(count, le), Long(value, le),
           Long(0, le), rest);
    LongAt(8, le, d, 4);
    ShortAt(1, le, d, 8);
    ShortAt(code, le, d, 12);
    LongAt(count, le, d, 14);
    LongAt(value, le, d, 18);
    LongAt(0, le, d, 22);
  }

  lemma OneIfdIsWalked(d: seq<byte>, le: bool, block: nat)
    requires |d| >= 26 && U32(d, le, 4) == 8 && U16(d, le, 8) == 1 && U32(d, le, 22) == 0
    requires BlockEnd(d, le, 10) == block
    ensures TiffSize.TiffSize(d, le) == if block <= |d| then Some(Max(26, block)) else None
  {
    assert IfdInside(d, le, 8) && IfdEnd(d, le, 8) == 26 && Entry(8, 0) == 10 && NextIfd(d, le, 8) == 0;
    var m := if block <= |d| then Some(Max(26, block)) else None;
    assert EntriesEnd(d, le, 8, 1, Max(26, block)) == Some(Max(26, block));
    assert EntriesEnd(d, le, 8, 0, Max(HEADER, 26)) == m;
    if m.Some? {
      assert Walk(d, le, 0, {8}, m.value) == m;
      assert {} + {8} == {8};
    }
    assert Walk(d, le, 8, {}, HEADER) == m;
  }

  /**
   * An image of one field, in either byte order: its size is the end of the field's values when these need more than
   * four bytes, and the end of the directory otherwise. Values that leave the data give no size.
   */
  lemma OneFieldIsSized(tag: nat, t: FieldType, count: nat, value: nat, rest: seq<byte>, le: bool)
    requires tag < 0x1_0000 && count < 0x1_0000_0000 && value < 0x1_0000_0000
    ensures var block := OutOfLine(t, count); var end := if block == 0 then 0 else value + block;
            TiffSize.TiffSize(Image(tag, Code(t), count, value, rest, le), le) ==
            if end <= 26 + |rest| then Some(Max(26, end)) else None
  {
    ImageFields(tag, Code(t), count, value, rest, le);
    WidthIs(t);
    OneIfdIsWalked(Image(tag, Code(t), count, value, rest, le), le,
                   if OutOfLine(t, count) == 0 then 0 else value + OutOfLine(t, count));
  }

  lemma WidthIs(t: FieldType)
    ensures 1 <= Code(t) < |TYPE_SIZES| && TYPE_SIZES[Code(t)] == Width(t)
  {
  }

  /** A field of any other type takes no room outside its entry. */
  lemma UnknownTypeIsSkipped(tag: nat, code: nat, count: nat, value: nat, rest: seq<byte>, le: bool)
    requires tag < 0x1_0000 && code < 0x1_0000 && count < 0x1_0000_0000 && value < 0x1_0000_0000
    requires forall t :: Code(t) != code
    ensures TiffSize.TiffSize(Image(tag, code, count, value, rest, le), le) == Some(26)
  {
    ImageFields(tag, code, count, value, rest, le);
    EveryCode();
    OneIfdIsWalked(Image(tag, code, count, value, rest, le), le, 0);
  }

  lemma EveryCode()
    ensures Code(BYTE) == 1 && Code(ASCII) == 2 && Code(SHORT) == 3 && Code(LONG) == 4 && Code(RATIONAL) == 5
    ensures Code(SBYTE) == 6 && Code(UNDEFINED) == 7 && Code(SSHORT) == 8 && Code(SLONG) == 9
    ensures Code(SRATIONAL) == 10 && Code(FLOAT) == 11 && Code(DOUBLE) == 12
  {
  }

  lemma LittleParts()
    ensures Long(8, true) == [8, 0, 0, 0] && Short(1, true) == [1, 0] && Short(258, true) == [2, 1]
    ensures Short(3, true) == [3, 0] && Long(3, true) == [3, 0, 0, 0] && Long(26, true) == [26, 0, 0, 0]
    ensures Long(0, true) == [0, 0, 0, 0]
  {
  }

  lemma BigParts()
    ensures Long(8, false) == [0, 0, 0, 8] && Short(1, false) == [0, 1] && Short(258, false) == [1, 2]
    ensures Short(3, false) == [0, 3] && Long(3, false) == [0, 0, 0, 3] && Long(26, false) == [0, 0, 0, 26]
    ensures Long(0, false) == [0, 0, 0, 0]
  {
  }

  /** BitsPerSample as three SHORTs behind the directory: 32 bytes in either order. */
  lemma BitsPerSampleExamples()
    ensures TiffSize.TiffSize([0x49, 0x49, 0x2A, 0x00] + [8, 0, 0, 0] + [1, 0]
                              + ([2, 1] + [3, 0] + [3, 0, 0, 0] + [26, 0, 0, 0])
                              + [0, 0, 0, 0] + [8, 0, 8, 0, 8, 0], true) == Some(32)
    ensures TiffSize.TiffSize([0x4D, 0x4D, 0x00, 0x2A] + [0, 0, 0, 8] + [0, 1]
                              + ([1, 2] + [0, 3] + [0, 0, 0, 3] + [0, 0, 0, 26])
                              + [0, 0, 0, 0] + [0, 8, 0, 8, 0, 8], false) == Some(32)
  {
    LittleParts();
    BigParts();
    OneFieldIsSized(258, SHORT, 3, 26, [8, 0, 8, 0, 8, 0], true);
    OneFieldIsSized(258, SHORT, 3, 26, [0, 8, 0, 8, 0, 8], false);
  }

  /** A header without a directory is an image of its own eight bytes. */
  lemma HeaderAlone(rest: seq<byte>, le: bool)
    ensures TiffSize.TiffSize(Magic(le) + Long(0, le) + rest, le) == Some(8)
  {
    FieldsAreRead(0, le, Magic(le), rest);
  }

  // ------------------------------------------------------------------
  // A chain of empty directories
  // ------------------------------------------------------------------

  /** Where directory `i` of an unbroken chain of empty ones begins. */
  function IfdAt(i: nat): nat {
    8 + 6 * i
  }

  function NextAfter(i: nat, k: nat): nat {
    if i + 1 == k then 0 else IfdAt(i + 1)
  }

  /** The directories from number `i` of `k` on, each of no entries and six bytes. */
  function EmptyIfds(i: nat, k: nat, le: bool): (d: seq<byte>)
    requires i <= k < 1000
    ensures |d| == 6 * (k - i)
    decreases k - i
  {
    if i == k then [] else Short(0, le) + Long(NextAfter(i, k), le) + EmptyIfds(i + 1, k, le)
  }

  ghost predicate IsEmptyIfd(d: seq<byte>, le: bool, i: nat, k: nat) {
    IfdAt(i) + 6 <= |d| && U16(d, le, IfdAt(i)) == 0 && U32(d, le, IfdAt(i) + 2) == NextAfter(i, k)
  }

  lemma EmptyIfdFirst(before: seq<byte>, i: nat, k: nat, rest: seq<byte>, le: bool)
    requires |before| == IfdAt(i) && i < k < 1000
    ensures IsEmptyIfd(before + (Short(0, le) + Long(NextAfter(i, k), le) + rest), le, i, k)
  {
    var d := before + (Short(0, le) + Long(NextAfter(i, k), le) + rest);
    assert d[|before|..|before| + 2] == Short(0, le);
    assert d[|before| + 2..|before| + 6] == Long(NextAfter(i, k), le);
    ShortAt(0, le, d, |before|);
    LongAt(NextAfter(i, k), le, d, |before| + 2);
  }

  lemma {:induction false} EmptyIfdAt(i: nat, j: nat, k: nat, le: bool, before: seq<byte>)
    requires i <= j < k < 1000 && |before| == IfdAt(i)
    ensures IsEmptyIfd(before + EmptyIfds(i, k, le), le, j, k)
    decreases k - i
  {
    var ifd, rest := Short(0, le) + Long(NextAfter(i, k), le), EmptyIfds(i + 1, k, le);
    if i < j {
      assert before + (ifd + rest) == (before + ifd) + rest;
      EmptyIfdAt(i + 1, j, k, le, before + ifd);
    } else {
      EmptyIfdFirst(before, i, k, rest, le);
    }
  }

  ghost predicate IsEmptyChain(d: seq<byte>, le: bool, k: nat) {
    forall j: nat :: j < k ==> IsEmptyIfd(d, le, j, k)
  }

  function ChainFrom(i: nat, k: nat): (chain: seq<nat>)
    requires i <= k
    ensures |chain| == k - i && forall j :: 0 <= j < k - i ==> chain[j] == IfdAt(i + j)
    decreases k - i
  {
    if i == k then [] else [IfdAt(i)] + ChainFrom(i + 1, k)
  }

  lemma EmptyIfdIs(d: seq<byte>, le: bool, i: nat, k: nat)
    requires IsEmptyIfd(d, le, i, k)
    ensures IfdInside(d, le, IfdAt(i)) && IfdEnd(d, le, IfdAt(i)) == IfdAt(i + 1)
    ensures NextIfd(d, le, IfdAt(i)) == NextAfter(i, k) && U16(d, le, IfdAt(i)) == 0
  {
  }

  lemma {:induction false} EmptyChainLinks(d: seq<byte>, le: bool, i: nat, k: nat)
    requires IsEmptyChain(d, le, k) && i <= k
    ensures IsChain(d, le, if i == k then 0 else IfdAt(i), ChainFrom(i, k))
    decreases k - i
  {
    if i < k {
      EmptyIfdIs(d, le, i, k);
      EmptyChainLinks(d, le, i + 1, k);
      assert ChainFrom(i, k)[1..] == ChainFrom(i + 1, k);
    }
  }

  lemma EmptyChainExtent(d: seq<byte>, le: bool, k: nat)
    requires IsEmptyChain(d, le, k) && 0 < k
    ensures IsExtent(d, le, ChainFrom(0, k), 8, IfdAt(k)) && Distinct(ChainFrom(0, k))
  {
    var chain := ChainFrom(0, k);
    forall j | 0 <= j < k
      ensures IfdWithin(d, le, chain[j], IfdAt(k)) && (j == k - 1 ==> IfdReaches(d, le, chain[j], IfdAt(k)))
    {
      assert IsEmptyIfd(d, le, j, k);
      EmptyIfdIs(d, le, j, k);
    }
    assert IfdReaches(d, le, chain[k - 1], IfdAt(k));
  }

  lemma EmptyChainSized(d: seq<byte>, le: bool, k: nat)
    requires |d| == IfdAt(k) && U32(d, le, 4) == IfdAt(0) && IsEmptyChain(d, le, k) && 0 < k
    ensures TiffSize.TiffSize(d, le) == if k <= 64 then Some(IfdAt(k)) else None
  {
    var chain := ChainFrom(0, k);
    EmptyChainLinks(d, le, 0, k);
    EmptyChainExtent(d, le, k);
    TiffSizeMeans(d, le, IfdAt(k));
    if k <= 64 {
      assert IsTiff(d, le, chain, IfdAt(k));
    } else if TiffSize.TiffSize(d, le).Some? {
      var size := TiffSize.TiffSize(d, le).value;
      TiffSizeMeans(d, le, size);
      var other :| IsTiff(d, le, other, size);
      ChainIsUnique(d, le, IfdAt(0), chain, other);
    }
  }

  lemma HeaderIsRead(rest: seq<byte>, le: bool)
    ensures U32(Header(le) + rest, le, 4) == 8
  {
    assert (Header(le) + rest)[4..8] == Long(8, le);
    LongAt(8, le, Header(le) + rest, 4);
  }

  lemma EmptyIfdsChain(k: nat, le: bool, d: seq<byte>)
    requires k < 1000 && d == Header(le) + EmptyIfds(0, k, le)
    ensures |d| == IfdAt(k) && U32(d, le, 4) == IfdAt(0) && IsEmptyChain(d, le, k)
  {
    HeaderIsRead(EmptyIfds(0, k, le), le);
    forall j: nat | j < k
      ensures IsEmptyIfd(d, le, j, k)
    {
      EmptyIfdAt(0, j, k, le, Header(le));
    }
  }

  /** A chain of empty directories has a size exactly up to 64 of them. */
  lemma EmptyChainIsSized(k: nat, le: bool, d: seq<byte>)
    requires 0 < k < 1000 && d == Header(le) + EmptyIfds(0, k, le)
    ensures TiffSize.TiffSize(d, le) == if k <= 64 then Some(8 + 6 * k) else None
  {
    EmptyIfdsChain(k, le, d);
    EmptyChainSized(d, le, k);
  }
}
