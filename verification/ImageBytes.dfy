/** The images written out byte by byte, and what the splitters do with bytes that belong to none. */
module ImageBytes {
  import opened Sequences
  import opened ImageSplit
  import TiffSize
  import TiffImages

  // ------------------------------------------------------------------
  // Markers
  // ------------------------------------------------------------------

  predicate Pair(x: seq<byte>, i: nat, a: byte, b: byte) {
    i + 2 <= |x| && x[i] == a && x[i + 1] == b
  }

  lemma OccursPair(x: seq<byte>, i: nat, a: byte, b: byte)
    ensures OccursAt([a, b], x, i) <==> Pair(x, i, a, b)
  {
    if i + 2 <= |x| {
      assert x[i..i + 2] == [x[i], x[i + 1]];
    }
  }

  /** FF D8, then no FF D9 before the one at the end. */
  lemma JPEGBytes(x: seq<byte>)
    ensures IsJPEG(x) <==>
            && |x| >= 4 && Pair(x, 0, 0xFF, 0xD8) && Pair(x, |x| - 2, 0xFF, 0xD9)
            && forall i: nat :: 2 <= i < |x| - 2 ==> !Pair(x, i, 0xFF, 0xD9)
  {
    OccursPair(x, 0, 0xFF, 0xD8);
    forall i: nat
      ensures OccursAt(EOI, x, i) <==> Pair(x, i, 0xFF, 0xD9)
    {
      OccursPair(x, i, 0xFF, 0xD9);
    }
  }

  predicate IENDAt(x: seq<byte>, i: nat) {
    && i + 12 <= |x| && x[i] == 0 && x[i + 1] == 0 && x[i + 2] == 0 && x[i + 3] == 0
    && x[i + 4] as char == 'I' && x[i + 5] as char == 'E' && x[i + 6] as char == 'N' && x[i + 7] as char == 'D'
    && x[i + 8] == 0xAE && x[i + 9] == 0x42 && x[i + 10] == 0x60 && x[i + 11] == 0x82
  }

  predicate PNGSignature(x: seq<byte>) {
    && 8 <= |x| && x[0] == 0x89 && x[1] as char == 'P' && x[2] as char == 'N' && x[3] as char == 'G'
    && x[4] as char == '\r' && x[5] as char == '\n' && x[6] == 0x1A && x[7] as char == '\n'
  }

  lemma OccursIEND(x: seq<byte>, i: nat)
    ensures OccursAt(IEND, x, i) <==> IENDAt(x, i)
  {
    if i + 12 <= |x| {
      var s := x[i..i + 12];
      assert s[0] == x[i] && s[1] == x[i + 1] && s[2] == x[i + 2] && s[3] == x[i + 3] && s[4] == x[i + 4];
      assert s[5] == x[i + 5] && s[6] == x[i + 6] && s[7] == x[i + 7] && s[8] == x[i + 8];
      assert s[9] == x[i + 9] && s[10] == x[i + 10] && s[11] == x[i + 11];
    }
  }

  lemma OccursPNG(x: seq<byte>)
    ensures OccursAt(PNG_SIG, x, 0) <==> PNGSignature(x)
  {
    if 8 <= |x| {
      var s := x[0..8];
      assert s[0] == x[0] && s[1] == x[1] && s[2] == x[2] && s[3] == x[3];
      assert s[4] == x[4] && s[5] == x[5] && s[6] == x[6] && s[7] == x[7];
    }
  }

  /** The signature, then no whole IEND chunk before the one at the end. */
  lemma PNGBytes(x: seq<byte>)
    ensures IsPNG(x) <==>
            && |x| >= 20 && PNGSignature(x) && IENDAt(x, |x| - 12)
            && forall i: nat :: 8 <= i < |x| - 12 ==> !IENDAt(x, i)
  {
    OccursPNG(x);
    forall i: nat
      ensures OccursAt(IEND, x, i) <==> IENDAt(x, i)
    {
      OccursIEND(x, i);
    }
  }

  /** "BM", the length of the file as a little-endian LONG, and the rest. */
  lemma BMPBytes(rest: seq<byte>)
    requires 8 <= |rest| && 6 + |rest| < 0x1_0000_0000
    ensures IsBMP([0x42, 0x4D] + TiffImages.Long(6 + |rest|, true) + rest)
  {
    var x := [0x42, 0x4D] + TiffImages.Long(6 + |rest|, true) + rest;
    OccursPair(x, 0, 0x42, 0x4D);
    TiffImages.FieldsAreRead(6 + |rest|, true, [0x42, 0x4D], rest);
  }

  /** The byte order of a TIFF file is told by its first four bytes. */
  lemma TIFFBytes(x: seq<byte>, le: bool)
    ensures IsTIFF(x, le) <==>
            TiffSize.TiffSize(x, le) == Some(|x|) && |x| >= 4
            && (if le then x[0] as char == 'I' && x[1] as char == 'I' && x[2] == 42 && x[3] == 0
                else x[0] as char == 'M' && x[1] as char == 'M' && x[2] == 0 && x[3] == 42)
  {
    if |x| >= 4 {
      var s := x[0..4];
      assert s[0] == x[0] && s[1] == x[1] && s[2] == x[2] && s[3] == x[3];
    }
  }

  // ------------------------------------------------------------------
  // Bytes that belong to no image
  // ------------------------------------------------------------------

  function Signature(fmt: Format, le: bool): seq<byte> {
    match fmt
    case JPEG => SOI
    case PNG => PNG_SIG
    case BMP => BM
    case TIFF => if le then LE_SIG else BE_SIG
  }

  /** The first signature is the one behind `junk`; a big-endian one counts only where there is no little-endian one. */
  ghost predicate StartsBehind(fmt: Format, junk: seq<byte>, d: seq<byte>, le: bool) {
    && OccursAt(Signature(fmt, le), d, 0)
    && (forall i: nat :: i < |junk| ==> !OccursAt(Signature(fmt, le), junk + d, i))
    && Clean(fmt, junk + d, le)
  }

  lemma FoundBehind(pat: seq<byte>, junk: seq<byte>, d: seq<byte>)
    requires OccursAt(pat, d, 0) && forall i: nat :: i < |junk| ==> !OccursAt(pat, junk + d, i)
    ensures Index(junk + d, pat) == |junk| && Index(d, pat) == 0
  {
    assert (junk + d)[|junk|..|junk| + |pat|] == d[0..|pat|];
    IndexIs(junk + d, pat, |junk|);
    IndexIs(d, pat, 0);
  }

  lemma DropJunk(junk: seq<byte>, d: seq<byte>, k: nat)
    requires k <= |d|
    ensures (junk + d)[|junk| + k..] == d[k..] && (junk + d)[|junk|..|junk| + k] == d[..k]
  {
  }

  lemma JunkBeforeJPEG(junk: seq<byte>, d: seq<byte>, eof: bool)
    requires StartsBehind(JPEG, junk, d, true)
    ensures SplitJPEG(junk + d, eof) == SplitResult(|junk| + SplitJPEG(d, eof).advance, SplitJPEG(d, eof).token)
  {
    FoundBehind(SOI, junk, d);
    DropJunk(junk, d, 2);
    DropJunk(junk, d, 0);
    var eoi := Index(d[2..], EOI);
    if eoi >= 0 {
      DropJunk(junk, d, eoi + 4);
    }
  }

  lemma JunkBeforePNG(junk: seq<byte>, d: seq<byte>, eof: bool)
    requires StartsBehind(PNG, junk, d, true)
    ensures SplitPNG(junk + d, eof) == SplitResult(|junk| + SplitPNG(d, eof).advance, SplitPNG(d, eof).token)
  {
    FoundBehind(PNG_SIG, junk, d);
    DropJunk(junk, d, 8);
    DropJunk(junk, d, 0);
    var rel := Index(d[8..], IEND);
    if rel >= 0 {
      DropJunk(junk, d, 8 + rel + 12);
    }
  }

  lemma JunkBeforeBMP(junk: seq<byte>, d: seq<byte>, eof: bool)
    requires StartsBehind(BMP, junk, d, true)
    ensures SplitBMP(junk + d, eof) == SplitResult(|junk| + SplitBMP(d, eof).advance, SplitBMP(d, eof).token)
  {
    FoundBehind(BM, junk, d);
    if 6 <= |d| {
      assert TiffSize.U32(junk + d, true, |junk| + 2) == TiffSize.U32(d, true, 2);
      var size := TiffSize.U32(d, true, 2);
      if size <= |d| {
        DropJunk(junk, d, size);
      }
    }
  }

  lemma TiffBehind(junk: seq<byte>, d: seq<byte>, le: bool)
    requires StartsBehind(TIFF, junk, d, le)
    ensures TiffStart(junk + d) == (|junk|, le) && TiffStart(d) == (0, le)
  {
    FoundBehind(Signature(TIFF, le), junk, d);
    CleanPart(TIFF, junk + d, d, |junk|, le);
    if !le {
      assert Index(d, LE_SIG) == -1 && Index(junk + d, LE_SIG) == -1;
    }
  }

  lemma TIFFWaitsAt(data: seq<byte>, start: nat, le: bool, rest: seq<byte>, eof: bool)
    requires TiffStart(data) == (start, le) && start <= |data| && rest == data[start..]
    requires |rest| < 8 || TiffSize.TiffSize(rest, le).None?
    ensures SplitTIFF(data, eof) == Wait(data, start, eof)
  {
  }

  // `a` and `b` are the splits of the data with and without `front`.
  predicate Shifted(a: SplitResult, front: seq<byte>, b: SplitResult) {
    a == SplitResult(|front| + b.advance, b.token)
  }

  lemma WaitShifts(front: seq<byte>, d: seq<byte>, eof: bool)
    ensures Shifted(Wait(front + d, |front|, eof), front, Wait(d, 0, eof))
  {
  }

  lemma TIFFWaitsBehind(junk: seq<byte>, d: seq<byte>, le: bool, rest: seq<byte>, eof: bool)
    requires TiffStart(junk + d) == (|junk|, le) && TiffStart(d) == (0, le)
    requires rest == d && rest == d[0..] && rest == (junk + d)[|junk|..]
    requires |rest| < 8 || TiffSize.TiffSize(rest, le).None?
    ensures Shifted(SplitTIFF(junk + d, eof), junk, SplitTIFF(d, eof))
  {
    TIFFWaitsAt(junk + d, |junk|, le, rest, eof);
    TIFFWaitsAt(d, 0, le, rest, eof);
    WaitShifts(junk, d, eof);
  }

  lemma TIFFTokenIs(data: seq<byte>, start: nat, le: bool, rest: seq<byte>, size: nat, token: seq<byte>, eof: bool)
    requires TiffStart(data) == (start, le) && start <= |data| && rest == data[start..]
    requires TiffSize.TiffSize(rest, le) == Some(size) && size <= |rest| && token == rest[..size]
    ensures SplitTIFF(data, eof) == SplitResult(start + size, Some(token))
  {
    TIFFTokenAt(data, start, le, size, eof);
    assert data[start..start + size] == token;
  }

  lemma TIFFTokenBehind(junk: seq<byte>, d: seq<byte>, le: bool, rest: seq<byte>, size: nat, eof: bool)
    requires TiffStart(junk + d) == (|junk|, le) && TiffStart(d) == (0, le)
    requires rest == d && rest == d[0..] && rest == (junk + d)[|junk|..]
    requires TiffSize.TiffSize(rest, le) == Some(size) && size <= |rest|
    ensures Shifted(SplitTIFF(junk + d, eof), junk, SplitTIFF(d, eof))
  {
    TIFFTokenIs(junk + d, |junk|, le, rest, size, rest[..size], eof);
    TIFFTokenIs(d, 0, le, rest, size, rest[..size], eof);
  }

  lemma JunkBeforeTIFF(junk: seq<byte>, d: seq<byte>, le: bool, eof: bool)
    requires StartsBehind(TIFF, junk, d, le)
    ensures Shifted(SplitTIFF(junk + d, eof), junk, SplitTIFF(d, eof))
  {
    TiffBehind(junk, d, le);
    DropJunk(junk, d, 0);
    assert d == d[0..];
    if |d| < 8 || TiffSize.TiffSize(d, le).None? {
      TIFFWaitsBehind(junk, d, le, d, eof);
    } else {
      TiffSize.SizeInside(d, le);
      TIFFTokenBehind(junk, d, le, d, TiffSize.TiffSize(d, le).value, eof);
    }
  }

  /** Bytes before the first signature are dropped, and change nothing else about what the splitter does. */
  lemma JunkIsDropped(fmt: Format, junk: seq<byte>, d: seq<byte>, le: bool, eof: bool)
    requires StartsBehind(fmt, junk, d, le)
    ensures Split(fmt, junk + d, eof) == SplitResult(|junk| + Split(fmt, d, eof).advance, Split(fmt, d, eof).token)
  {
    match fmt
    case JPEG => JunkBeforeJPEG(junk, d, eof);
    case PNG => JunkBeforePNG(junk, d, eof);
    case BMP => JunkBeforeBMP(junk, d, eof);
    case TIFF => JunkBeforeTIFF(junk, d, le, eof);
  }

  /** Without a signature the splitter waits, and at the end of the stream drops everything. */
  lemma NoSignatureNoToken(fmt: Format, data: seq<byte>, eof: bool)
    requires HasNone(Signature(fmt, true), data) && HasNone(Signature(fmt, false), data)
    ensures Split(fmt, data, eof) == SplitResult(if eof then |data| else 0, None)
  {
    assert Index(data, Signature(fmt, true)) == -1 && Index(data, Signature(fmt, false)) == -1;
  }

  /** A complete image behind any bytes without its signature is the next token. */
  lemma ImageBehindJunk(fmt: Format, junk: seq<byte>, x: seq<byte>, y: seq<byte>, le: bool, eof: bool)
    requires IsImage(fmt, x, le) && StartsBehind(fmt, junk, x + y, le)
    ensures Split(fmt, junk + (x + y), eof) == SplitResult(|junk| + |x|, Some(x))
  {
    CleanPart(fmt, junk + (x + y), x + y, |junk|, le);
    JunkIsDropped(fmt, junk, x + y, le, eof);
    ImageIsToken(fmt, x, y, le, eof);
  }

  /** "BM" with a length of less than the file header's 14 bytes is no image; the splitter goes on behind it. */
  lemma StrayBMIsSkipped(n: nat, rest: seq<byte>, eof: bool)
    requires n < 0x1_0000_0000
    ensures var d := [0x42, 0x4D] + TiffImages.Long(n, true) + rest;
            n < 14 ==> SplitBMP(d, eof) == SplitResult(2, None)
    ensures var d := [0x42, 0x4D] + TiffImages.Long(n, true) + rest;
            n > |d| && n >= 14 ==> SplitBMP(d, eof) == SplitResult(if eof then |d| else 0, None)
  {
    var d := [0x42, 0x4D] + TiffImages.Long(n, true) + rest;
    OccursPair(d, 0, 0x42, 0x4D);
    IndexIs(d, BM, 0);
    TiffImages.FieldsAreRead(n, true, [0x42, 0x4D], rest);
  }
}
