/**
 * Splitting a stream of still images into frames: the format splitters, the scanner around them and the image reader.
 */
module ImageSplit {
  import opened Sequences
  import TiffSize
  import BitstreamReader

  type ReadResult = BitstreamReader.ReadResult

  datatype Format = JPEG | PNG | BMP | TIFF

  /** How far to advance, and the token found, if any. */
  datatype SplitResult = SplitResult(advance: nat, token: Option<seq<byte>>)

  const SOI: seq<byte> := [0xFF, 0xD8]
  const EOI: seq<byte> := [0xFF, 0xD9]
  const PNG_SIG: seq<byte> := [0x89, 0x50, 0x4E, 0x47, 0x0D, 0x0A, 0x1A, 0x0A]
  const IEND: seq<byte> := [0x00, 0x00, 0x00, 0x00, 0x49, 0x45, 0x4E, 0x44, 0xAE, 0x42, 0x60, 0x82]
  const BM: seq<byte> := [0x42, 0x4D]
  const LE_SIG: seq<byte> := [0x49, 0x49, 0x2A, 0x00]
  const BE_SIG: seq<byte> := [0x4D, 0x4D, 0x00, 0x2A]

  // ------------------------------------------------------------------
  // The splitters
  // ------------------------------------------------------------------

  /** No token yet: everything is dropped at the end of the stream, otherwise only the bytes before `start`. */
  function Wait(data: seq<byte>, start: nat, atEOF: bool): SplitResult {
    SplitResult(if atEOF then |data| else start, None)
  }

  function SplitJPEG(data: seq<byte>, atEOF: bool): SplitResult {
    var soi := Index(data, SOI);
    if soi < 0 then Wait(data, 0, atEOF)
    else
      var eoi := Index(data[soi + 2..], EOI);
      if eoi < 0 then
        if atEOF then SplitResult(|data|, Some(data[soi..])) else SplitResult(soi, None)
      else
        var end := eoi + soi + 4;
        SplitResult(end, Some(data[soi..end]))
  }

  function SplitPNG(data: seq<byte>, atEOF: bool): SplitResult {
    var start := Index(data, PNG_SIG);
    if start < 0 then Wait(data, 0, atEOF)
    else
      var rel := Index(data[start + 8..], IEND);
      if rel < 0 then
        if atEOF then SplitResult(|data|, Some(data[start..])) else SplitResult(start, None)
      else
        var end := start + 8 + rel + 12;
        SplitResult(end, Some(data[start..end]))
  }

  function SplitBMP(data: seq<byte>, atEOF: bool): SplitResult {
    var start := Index(data, BM);
    if start < 0 then Wait(data, 0, atEOF)
    else if start + 6 > |data| then Wait(data, start, atEOF)
    else
      var size := TiffSize.U32(data, true, start + 2);
      if size < 14 then SplitResult(start + 2, None)
      else
        var end := start + size;
        if end > |data| then Wait(data, start, atEOF) else SplitResult(end, Some(data[start..end]))
  }

  /** The little-endian signature is looked for first, over the whole buffer. */
  function TiffStart(data: seq<byte>): (int, bool) {
    var le := Index(data, LE_SIG);
    if le >= 0 then (le, true) else (Index(data, BE_SIG), false)
  }

  function SplitTIFF(data: seq<byte>, atEOF: bool): SplitResult {
    var (start, le) := TiffStart(data);
    if start < 0 then Wait(data, 0, atEOF)
    else if start + 8 > |data| then Wait(data, start, atEOF)
    else
      match TiffSize.TiffSize(data[start..], le)
      case None => Wait(data, start, atEOF)
      case Some(size) =>
        var end := start + size;
        if end > |data| then Wait(data, start, atEOF) else SplitResult(end, Some(data[start..end]))
  }

  function Split(fmt: Format, data: seq<byte>, atEOF: bool): SplitResult {
    match fmt
    case JPEG => SplitJPEG(data, atEOF)
    case PNG => SplitPNG(data, atEOF)
    case BMP => SplitBMP(data, atEOF)
    case TIFF => SplitTIFF(data, atEOF)
  }

  /** The scanner never advances past its buffer, and always past a token. */
  lemma SplitAdvances(fmt: Format, data: seq<byte>, atEOF: bool)
    ensures Split(fmt, data, atEOF).advance <= |data|
    ensures Split(fmt, data, atEOF).token.Some? ==> Split(fmt, data, atEOF).advance > 0
  {
    if fmt == TIFF {
      var (start, le) := TiffStart(data);
      if 0 <= start <= |data| && TiffSize.TiffSize(data[start..], le).Some? {
        TiffSize.SizeInside(data[start..], le);
      }
    }
  }

  // ------------------------------------------------------------------
  // The scanner and the reader
  // ------------------------------------------------------------------

  /** The bytes that reach the scanner: those that come with the final error are kept. */
  function ScanInput(src: seq<ReadResult>): seq<byte> {
    if src == [] then []
    else if src[0].Failed? then src[0].bytes
    else src[0].bytes + ScanInput(src[1..])
  }

  /** The tokens of the scan from buffer `buf` on. */
  function Tokens(fmt: Format, buf: seq<byte>, src: seq<ReadResult>, eof: bool): seq<seq<byte>>
    decreases |src|, !eof, |buf|, 1
  {
    if buf != [] || eof then
      var r := Split(fmt, buf, eof);
      SplitAdvances(fmt, buf, eof);
      var rest := buf[r.advance..];
      if r.token.Some? then [r.token.value] + Tokens(fmt, rest, src, eof)
      else if eof then []
      else TokensAfterRead(fmt, rest, src)
    else TokensAfterRead(fmt, buf, src)
  }

  function TokensAfterRead(fmt: Format, buf: seq<byte>, src: seq<ReadResult>): seq<seq<byte>>
    decreases |src|, true, |buf|, 0
  {
    if src == [] then Tokens(fmt, buf, [], true)
    else if src[0].Failed? then Tokens(fmt, buf + src[0].bytes, [], true)
    else Tokens(fmt, buf + src[0].bytes, src[1..], false)
  }

  /** The frames the reader makes of tokens: short ones are skipped, the others numbered from 1. */
  function LongEnough(tokens: seq<seq<byte>>): seq<seq<byte>> {
    if tokens == [] then []
    else (if |tokens[0]| < 4 then [] else [tokens[0]]) + LongEnough(tokens[1..])
  }

  lemma {:induction false} LongEnoughConcat(a: seq<seq<byte>>, b: seq<seq<byte>>)
    ensures LongEnough(a + b) == LongEnough(a) + LongEnough(b)
  {
    if a == [] {
      assert a + b == b;
    } else {
      assert (a + b)[1..] == a[1..] + b;
      LongEnoughConcat(a[1..], b);
    }
  }

  /** Scanner.Scan: the next token, reading on as far as needed; at the end of the stream there is none. */
  method Scan(fmt: Format, buf0: seq<byte>, src0: seq<ReadResult>, eof0: bool)
    returns (found: bool, token: seq<byte>, buf: seq<byte>, src: seq<ReadResult>, eof: bool)
    ensures Tokens(fmt, buf0, src0, eof0) == if found then [token] + Tokens(fmt, buf, src, eof) else []
    ensures found ==> |src| < |src0| || (src == src0 && ((eof && !eof0) || (eof == eof0 && |buf| < |buf0|)))
  {
    buf, src, eof := buf0, src0, eof0;
    token := [];
    while true
      invariant Tokens(fmt, buf, src, eof) == Tokens(fmt, buf0, src0, eof0)
      invariant |src| < |src0| || (src == src0 && ((eof && !eof0) || (eof == eof0 && |buf| <= |buf0|)))
      decreases |src|, !eof
    {
      ghost var before := buf;
      if buf != [] || eof {
        var r := Split(fmt, buf, eof);
        SplitAdvances(fmt, buf, eof);
        buf := buf[r.advance..];
        if r.token.Some? {
          return true, r.token.value, buf, src, eof;
        }
      }
      if eof {
        return false, [], buf, src, eof;
      }
      assert Tokens(fmt, before, src, false) == TokensAfterRead(fmt, buf, src);
      if src == [] {
        eof := true;
      } else {
        buf := buf + src[0].bytes;
        eof := src[0].Failed?;
        src := if eof then [] else src[1..];
      }
    }
  }

  /** The frames carry the given bytes and are numbered from 1. */
  ghost predicate Numbered(frames: seq<BitstreamReader.Chunk>, datas: seq<seq<byte>>) {
    |frames| == |datas| && forall i :: 0 <= i < |frames| ==> frames[i] == BitstreamReader.Chunk(datas[i], i + 1)
  }

  lemma NextToken(done: seq<seq<byte>>, data: seq<byte>, left: seq<seq<byte>>)
    ensures done + LongEnough([data] + left) == (if |data| < 4 then done else done + [data]) + LongEnough(left)
  {
    assert ([data] + left)[1..] == left;
  }

  /** The reader's loop: scan, skip short tokens, number the rest. */
  method ReadLoop(fmt: Format, input: seq<ReadResult>) returns (frames: seq<BitstreamReader.Chunk>)
    ensures Numbered(frames, LongEnough(Tokens(fmt, [], input, false)))
  {
    frames := [];
    ghost var done: seq<seq<byte>>, left := [], Tokens(fmt, [], input, false);
    ghost var expected := LongEnough(left);
    var buf: seq<byte>, src, eof := [], input, false;
    var counter: nat := 0;
    var more, data := true, [];
    while more
      invariant done + LongEnough(left) == expected
      invariant left == if more then Tokens(fmt, buf, src, eof) else []
      invariant counter == |frames| && Numbered(frames, done)
      decreases more, |src|, !eof, |buf|
    {
      more, data, buf, src, eof := Scan(fmt, buf, src, eof);
      if more {
        left := Tokens(fmt, buf, src, eof);
        NextToken(done, data, left);
        if |data| >= 4 {
          counter := counter + 1;
          frames := frames + [BitstreamReader.Chunk(data, counter)];
          done := done + [data];
        }
      }
    }
    assert done + [] == done;
  }

  // ------------------------------------------------------------------
  // Well-formed images delimit themselves
  // ------------------------------------------------------------------

  /** A JPEG image per section B.1.1.3 of ITU-T T.81: the first EOI marker after SOI is its end. */
  ghost predicate IsJPEG(x: seq<byte>) {
    && |x| >= 4 && OccursAt(SOI, x, 0) && OccursAt(EOI, x, |x| - 2)
    && forall i :: 2 <= i < |x| - 2 ==> !OccursAt(EOI, x, i)
  }

  ghost predicate IsPNG(x: seq<byte>) {
    && |x| >= 20 && OccursAt(PNG_SIG, x, 0) && OccursAt(IEND, x, |x| - 12)
    && forall i :: 8 <= i < |x| - 12 ==> !OccursAt(IEND, x, i)
  }

  ghost predicate IsBMP(x: seq<byte>) {
    |x| >= 14 && OccursAt(BM, x, 0) && TiffSize.U32(x, true, 2) == |x|
  }

  ghost predicate IsTIFF(x: seq<byte>, le: bool) {
    OccursAt(if le then LE_SIG else BE_SIG, x, 0) && TiffSize.TiffSize(x, le) == Some(|x|)
  }

  ghost predicate HasNone(pat: seq<byte>, data: seq<byte>) {
    forall i :: !OccursAt(pat, data, i)
  }

  /** `x` is one image of the format; big-endian TIFF is told apart only where no little-endian signature is around. */
  ghost predicate IsImage(fmt: Format, x: seq<byte>, le: bool) {
    match fmt
    case JPEG => IsJPEG(x)
    case PNG => IsPNG(x)
    case BMP => IsBMP(x)
    case TIFF => IsTIFF(x, le)
  }

  /** What the format asks of the bytes around its images: nothing, except for big-endian TIFF. */
  ghost predicate Clean(fmt: Format, data: seq<byte>, le: bool) {
    fmt == TIFF && !le ==> HasNone(LE_SIG, data)
  }

  // The end marker of an image is still the first one when more bytes follow.
  lemma FirstEnd(pat: seq<byte>, x: seq<byte>, y: seq<byte>, from: nat, end: nat)
    requires from <= end && end + |pat| == |x|
    requires OccursAt(pat, x, end) && forall i :: from <= i < end ==> !OccursAt(pat, x, i)
    ensures Index((x + y)[from..], pat) == end - from
  {
    var tail := (x + y)[from..];
    forall i: nat | i <= end - from
      ensures OccursAt(pat, tail, i) <==> OccursAt(pat, x, from + i)
    {
      assert tail[i..i + |pat|] == x[from + i..from + i + |pat|];
    }
    IndexIs(tail, pat, end - from);
  }

  // A signature at the front of an image is found at once, as soon as enough of it has arrived.
  lemma FirstSignature(pat: seq<byte>, x: seq<byte>, y: seq<byte>)
    requires OccursAt(pat, x, 0)
    ensures Index(x + y, pat) == 0
  {
    OccursExtend(pat, x, y, 0);
    IndexIs(x + y, pat, 0);
  }

  lemma JPEGIsToken(x: seq<byte>, y: seq<byte>, eof: bool)
    requires IsJPEG(x)
    ensures SplitJPEG(x + y, eof) == SplitResult(|x|, Some(x))
  {
    FirstSignature(SOI, x, y);
    FirstEnd(EOI, x, y, 2, |x| - 2);
    assert (x + y)[0..|x|] == x;
  }

  lemma PNGIsToken(x: seq<byte>, y: seq<byte>, eof: bool)
    requires IsPNG(x)
    ensures SplitPNG(x + y, eof) == SplitResult(|x|, Some(x))
  {
    FirstSignature(PNG_SIG, x, y);
    FirstEnd(IEND, x, y, 8, |x| - 12);
    assert (x + y)[0..|x|] == x;
  }

  lemma BMPIsToken(x: seq<byte>, y: seq<byte>, eof: bool)
    requires IsBMP(x)
    ensures SplitBMP(x + y, eof) == SplitResult(|x|, Some(x))
  {
    FirstSignature(BM, x, y);
    assert (x + y)[0..|x|] == x;
  }

  lemma TIFFIsToken(x: seq<byte>, y: seq<byte>, le: bool, eof: bool)
    requires IsTIFF(x, le) && (!le ==> HasNone(LE_SIG, x + y))
    ensures SplitTIFF(x + y, eof) == SplitResult(|x|, Some(x))
  {
    FirstSignature(if le then LE_SIG else BE_SIG, x, y);
    TiffSize.SizeInside(x, le);
    TiffSize.SelfDelimiting(x, x + y, le);
    assert (x + y)[0..] == x + y;
    assert (x + y)[0..|x|] == x;
    assert le || Index(x + y, LE_SIG) == -1;
  }

  /** A complete image at the front of the buffer is the next token, whatever follows. */
  lemma ImageIsToken(fmt: Format, x: seq<byte>, y: seq<byte>, le: bool, eof: bool)
    requires IsImage(fmt, x, le) && Clean(fmt, x + y, le)
    ensures Split(fmt, x + y, eof) == SplitResult(|x|, Some(x))
  {
    match fmt
    case JPEG => JPEGIsToken(x, y, eof);
    case PNG => PNGIsToken(x, y, eof);
    case BMP => BMPIsToken(x, y, eof);
    case TIFF => TIFFIsToken(x, y, le, eof);
  }

  lemma NoEndYet(pat: seq<byte>, x: seq<byte>, p: seq<byte>, from: nat)
    requires p <= x && |p| < |x| && from <= |p|
    requires forall i :: from <= i < |x| - |pat| ==> !OccursAt(pat, x, i)
    ensures Index(p[from..], pat) == -1
  {
    assert p == x[..|p|] && p[from..] == x[from..|p|];
    forall i: nat
      ensures !OccursAt(pat, p[from..], i)
    {
      OccursInPart(pat, x, from, |p|, i);
    }
  }

  lemma NoSignatureYet(pat: seq<byte>, x: seq<byte>, p: seq<byte>)
    requires p <= x && OccursAt(pat, x, 0)
    ensures Index(p, pat) == if |p| < |pat| then -1 else 0
  {
    if |pat| <= |p| {
      assert p[0..|pat|] == x[0..|pat|];
      IndexIs(p, pat, 0);
    }
  }

  /** On part of an image the splitter waits for more and drops nothing. */
  lemma PartWaits(fmt: Format, x: seq<byte>, p: seq<byte>, le: bool)
    requires IsImage(fmt, x, le) && p <= x && |p| < |x| && Clean(fmt, p, le)
    ensures Split(fmt, p, false) == SplitResult(0, None)
  {
    match fmt
    case JPEG =>
      NoSignatureYet(SOI, x, p);
      if |p| >= 2 {
        NoEndYet(EOI, x, p, 2);
      }
    case PNG =>
      NoSignatureYet(PNG_SIG, x, p);
      if |p| >= 8 {
        NoEndYet(IEND, x, p, 8);
      }
    case BMP =>
      NoSignatureYet(BM, x, p);
    case TIFF =>
      PartOfTIFFWaits(x, p, le, false);
  }

  /**
   * What an image cut off by the end of the stream leaves behind: JPEG and PNG pass it on once its signature is there.
   */
  function LastToken(fmt: Format, tail: seq<byte>): seq<seq<byte>> {
    if (fmt == JPEG && |tail| >= 2) || (fmt == PNG && |tail| >= 8) then [tail] else []
  }

  /** At the end of the stream part of an image is consumed, as a token or not at all. */
  lemma PartAtEOF(fmt: Format, x: seq<byte>, p: seq<byte>, le: bool)
    requires IsImage(fmt, x, le) && p <= x && |p| < |x| && Clean(fmt, p, le)
    ensures Split(fmt, p, true) == SplitResult(|p|, if LastToken(fmt, p) == [] then None else Some(p))
  {
    match fmt
    case JPEG =>
      NoSignatureYet(SOI, x, p);
      if |p| >= 2 {
        NoEndYet(EOI, x, p, 2);
      }
    case PNG =>
      NoSignatureYet(PNG_SIG, x, p);
      if |p| >= 8 {
        NoEndYet(IEND, x, p, 8);
      }
    case BMP =>
      NoSignatureYet(BM, x, p);
    case TIFF =>
      PartOfTIFFWaits(x, p, le, true);
  }

  lemma PartOfTIFFWaits(x: seq<byte>, p: seq<byte>, le: bool, eof: bool)
    requires IsTIFF(x, le) && p <= x && |p| < |x| && (!le ==> HasNone(LE_SIG, p))
    ensures SplitTIFF(p, eof) == Wait(p, 0, eof)
  {
    NoSignatureYet(if le then LE_SIG else BE_SIG, x, p);
    if |p| < 4 {
      assert Index(p, LE_SIG) == -1 && Index(p, BE_SIG) == -1;
    } else {
      assert p[0..] == p;
      if TiffSize.TiffSize(p, le).Some? {
        TiffSize.SizeInside(p, le);
        TiffSize.SelfDelimiting(p, x, le);
      }
    }
  }

  // ------------------------------------------------------------------
  // Round trip
  // ------------------------------------------------------------------

  lemma CleanPart(fmt: Format, data: seq<byte>, part: seq<byte>, k: nat, le: bool)
    requires Clean(fmt, data, le) && k + |part| <= |data| && data[k..k + |part|] == part
    ensures Clean(fmt, part, le)
  {
    forall i | fmt == TIFF && !le && OccursAt(LE_SIG, part, i)
      ensures false
    {
      OccursInPart(LE_SIG, data, k, k + |part|, i);
    }
  }

  /** Nothing, or an image without its end. */
  ghost predicate IsPart(fmt: Format, tail: seq<byte>, whole: seq<byte>, le: bool) {
    tail == [] || (IsImage(fmt, whole, le) && tail <= whole && |tail| < |whole|)
  }

  /** A stream of whole images, the last one perhaps cut off, of which `buf` and `later` are still to be scanned. */
  ghost predicate IsStream(fmt: Format, frames: seq<seq<byte>>, tail: seq<byte>, whole: seq<byte>, le: bool,
                           buf: seq<byte>, later: seq<byte>) {
    && (forall x :: x in frames ==> IsImage(fmt, x, le)) && IsPart(fmt, tail, whole, le)
    && Clean(fmt, Flatten(frames) + tail, le)
    && Flatten(frames) + tail == buf + later
  }

  /**
   * Images concatenated and fed in arbitrary pieces come out as exactly those images, from any point of the scan on.
   */
  lemma {:induction false} RoundTripFrom(fmt: Format, frames: seq<seq<byte>>, tail: seq<byte>, whole: seq<byte>,
                                         le: bool, buf: seq<byte>, src: seq<ReadResult>, eof: bool)
    requires IsStream(fmt, frames, tail, whole, le, buf, if eof then [] else ScanInput(src))
    requires eof ==> src == []
    ensures Tokens(fmt, buf, src, eof) == frames + LastToken(fmt, tail)
    decreases |src|, !eof, |buf|
  {
    var later := if eof then [] else ScanInput(src);
    if frames != [] && |buf| >= |frames[0]| {
      FirstImage(fmt, frames, tail, whole, le, buf, later, eof);
      RoundTripFrom(fmt, frames[1..], tail, whole, le, buf[|frames[0]|..], src, eof);
      TokensTaken(fmt, buf, src, eof, frames[0]);
      HeadOff(frames, LastToken(fmt, tail));
    } else if eof {
      NoneAtEnd(fmt, frames, tail, whole, le, buf);
      TokensAtEnd(fmt, tail);
    } else {
      FirstWaits(fmt, frames, tail, whole, le, buf, later);
      ReadsOn(fmt, frames, tail, whole, le, buf, src);
      TokensWait(fmt, buf, src);
    }
  }

  lemma HeadOff(frames: seq<seq<byte>>, last: seq<seq<byte>>)
    requires frames != []
    ensures frames + last == [frames[0]] + (frames[1..] + last)
  {
  }

  lemma TokensTaken(fmt: Format, buf: seq<byte>, src: seq<ReadResult>, eof: bool, x: seq<byte>)
    requires buf != [] && |x| <= |buf| && Split(fmt, buf, eof) == SplitResult(|x|, Some(x))
    ensures Tokens(fmt, buf, src, eof) == [x] + Tokens(fmt, buf[|x|..], src, eof)
  {
  }

  lemma TokensWait(fmt: Format, buf: seq<byte>, src: seq<ReadResult>)
    requires buf != [] ==> Split(fmt, buf, false) == SplitResult(0, None)
    ensures Tokens(fmt, buf, src, false) == TokensAfterRead(fmt, buf, src)
  {
    assert buf[0..] == buf;
  }

  lemma TokensAtEnd(fmt: Format, tail: seq<byte>)
    requires Split(fmt, tail, true) == SplitResult(|tail|, if LastToken(fmt, tail) == [] then None else Some(tail))
    ensures Tokens(fmt, tail, [], true) == LastToken(fmt, tail)
  {
    if LastToken(fmt, tail) != [] {
      TokensTaken(fmt, tail, [], true, tail);
      SplitEmpty(fmt);
      assert tail[|tail|..] == [];
      assert Tokens(fmt, [], [], true) == [];
    }
  }

  // At the end of the stream only the last part is left.
  lemma NoneAtEnd(fmt: Format, frames: seq<seq<byte>>, tail: seq<byte>, whole: seq<byte>, le: bool, buf: seq<byte>)
    requires IsStream(fmt, frames, tail, whole, le, buf, [])
    requires frames == [] || |buf| < |frames[0]|
    ensures frames == [] && buf == tail
    ensures Split(fmt, tail, true) == SplitResult(|tail|, if LastToken(fmt, tail) == [] then None else Some(tail))
  {
    assert Flatten(frames) + tail == buf;
    assert [] + tail == tail;
    if tail == [] {
      SplitEmpty(fmt);
    } else {
      PartAtEOF(fmt, whole, tail, le);
    }
  }

  // A buffer that holds the whole first image.
  lemma FirstImage(fmt: Format, frames: seq<seq<byte>>, tail: seq<byte>, whole: seq<byte>, le: bool,
                   buf: seq<byte>, later: seq<byte>, eof: bool)
    requires IsStream(fmt, frames, tail, whole, le, buf, later) && frames != [] && |buf| >= |frames[0]|
    ensures Split(fmt, buf, eof) == SplitResult(|frames[0]|, Some(frames[0])) && 0 < |frames[0]|
    ensures IsStream(fmt, frames[1..], tail, whole, le, buf[|frames[0]|..], later)
  {
    var x, rest := frames[0], Flatten(frames[1..]) + tail;
    var all, y := Flatten(frames) + tail, buf[|x|..];
    assert all == x + rest;
    assert buf == all[..|buf|];
    assert buf[..|x|] == all[..|x|] == x;
    assert buf == x + y;
    CleanPart(fmt, all, buf, 0, le);
    ImageIsToken(fmt, x, y, le, eof);
    CleanPart(fmt, all, rest, |x|, le);
    assert rest == all[|x|..] == y + later;
    ImageNotEmpty(fmt, x, le);
  }

  // A buffer that holds only part of the first image, or of the last.
  lemma FirstWaits(fmt: Format, frames: seq<seq<byte>>, tail: seq<byte>, whole: seq<byte>, le: bool, buf: seq<byte>,
                   later: seq<byte>)
    requires IsStream(fmt, frames, tail, whole, le, buf, later)
    requires frames == [] || |buf| < |frames[0]|
    ensures buf != [] ==> Split(fmt, buf, false) == SplitResult(0, None)
  {
    var all := Flatten(frames) + tail;
    assert buf == all[..|buf|];
    CleanPart(fmt, all, buf, 0, le);
    if frames != [] {
      assert all == frames[0] + (Flatten(frames[1..]) + tail);
      assert buf == frames[0][..|buf|];
      PartWaits(fmt, frames[0], buf, le);
    } else if buf != [] {
      assert all == tail;
      assert buf == whole[..|buf|];
      PartWaits(fmt, whole, buf, le);
    }
  }

  lemma {:induction false} ReadsOn(fmt: Format, frames: seq<seq<byte>>, tail: seq<byte>, whole: seq<byte>, le: bool,
                                   buf: seq<byte>, src: seq<ReadResult>)
    requires IsStream(fmt, frames, tail, whole, le, buf, ScanInput(src))
    ensures TokensAfterRead(fmt, buf, src) == frames + LastToken(fmt, tail)
    decreases |src|, true, |buf|, 0
  {
    if src == [] {
      assert buf + [] == buf;
      RoundTripFrom(fmt, frames, tail, whole, le, buf, [], true);
    } else if src[0].Failed? {
      assert buf + src[0].bytes + [] == buf + src[0].bytes;
      RoundTripFrom(fmt, frames, tail, whole, le, buf + src[0].bytes, [], true);
    } else {
      assert buf + src[0].bytes + ScanInput(src[1..]) == buf + (src[0].bytes + ScanInput(src[1..]));
      RoundTripFrom(fmt, frames, tail, whole, le, buf + src[0].bytes, src[1..], false);
    }
  }

  lemma SplitEmpty(fmt: Format)
    ensures Split(fmt, [], true) == SplitResult(0, None)
  {
  }

  lemma ImageNotEmpty(fmt: Format, x: seq<byte>, le: bool)
    requires IsImage(fmt, x, le)
    ensures |x| >= 4
  {
    if fmt == TIFF {
      TiffSize.SizeInside(x, le);
    }
  }

  lemma {:induction false} NoneSkipped(fmt: Format, frames: seq<seq<byte>>, le: bool)
    requires forall x :: x in frames ==> IsImage(fmt, x, le)
    ensures LongEnough(frames) == frames
  {
    if frames != [] {
      ImageNotEmpty(fmt, frames[0], le);
      NoneSkipped(fmt, frames[1..], le);
    }
  }

  /**
   * Splitter round trip: the reader hands on exactly the images it was fed, whatever the reads. Of a last image
   * that the stream cuts off it hands on what there is of a JPEG from four bytes on and of a PNG from eight, and
   * nothing of a BMP or TIFF.
   */
  lemma RoundTripWithTail(fmt: Format, frames: seq<seq<byte>>, tail: seq<byte>, whole: seq<byte>, le: bool,
                          src: seq<ReadResult>)
    requires forall x :: x in frames ==> IsImage(fmt, x, le)
    requires IsPart(fmt, tail, whole, le)
    requires ScanInput(src) == Flatten(frames) + tail && Clean(fmt, Flatten(frames) + tail, le)
    ensures LongEnough(Tokens(fmt, [], src, false)) ==
            frames + if (fmt == JPEG && |tail| >= 4) || (fmt == PNG && |tail| >= 8) then [tail] else []
  {
    assert [] + ScanInput(src) == Flatten(frames) + tail;
    RoundTripFrom(fmt, frames, tail, whole, le, [], src, false);
    NoneSkipped(fmt, frames, le);
    LongEnoughConcat(frames, LastToken(fmt, tail));
  }

  /** The case of whole images only. */
  lemma RoundTrip(fmt: Format, frames: seq<seq<byte>>, le: bool, src: seq<ReadResult>)
    requires forall x :: x in frames ==> IsImage(fmt, x, le)
    requires ScanInput(src) == Flatten(frames) && Clean(fmt, Flatten(frames), le)
    ensures LongEnough(Tokens(fmt, [], src, false)) == frames
  {
    assert Flatten(frames) + [] == Flatten(frames) && frames + [] == frames;
    RoundTripWithTail(fmt, frames, [], [], le, src);
  }

  // ------------------------------------------------------------------
  // A token once found stays
  // ------------------------------------------------------------------

  lemma IndexStays(data: seq<byte>, more: seq<byte>, pat: seq<byte>)
    requires Index(data, pat) >= 0
    ensures Index(data + more, pat) == Index(data, pat)
  {
    var i := Index(data, pat);
    forall k | 0 <= k <= i
      ensures OccursAt(pat, data + more, k) <==> OccursAt(pat, data, k)
    {
      OccursExtend(pat, data, more, k);
    }
    IndexIs(data + more, pat, i);
  }

  /** The bytes that follow leave the choice of byte order as it was. */
  ghost predicate SameOrder(data: seq<byte>, more: seq<byte>) {
    Index(data, LE_SIG) >= 0 || Index(data + more, LE_SIG) < 0
  }

  lemma JPEGTokenStays(data: seq<byte>, more: seq<byte>, eof: bool)
    requires SplitJPEG(data, false).token.Some?
    ensures SplitJPEG(data + more, eof) == SplitJPEG(data, false)
  {
    IndexStays(data, more, SOI);
    var soi := Index(data, SOI);
    assert (data + more)[soi + 2..] == data[soi + 2..] + more;
    IndexStays(data[soi + 2..], more, EOI);
    var end := SplitJPEG(data, false).advance;
    assert (data + more)[soi..end] == data[soi..end];
  }

  lemma PNGTokenStays(data: seq<byte>, more: seq<byte>, eof: bool)
    requires SplitPNG(data, false).token.Some?
    ensures SplitPNG(data + more, eof) == SplitPNG(data, false)
  {
    IndexStays(data, more, PNG_SIG);
    var start := Index(data, PNG_SIG);
    assert (data + more)[start + 8..] == data[start + 8..] + more;
    IndexStays(data[start + 8..], more, IEND);
    var end := SplitPNG(data, false).advance;
    assert (data + more)[start..end] == data[start..end];
  }

  lemma BMPTokenStays(data: seq<byte>, more: seq<byte>, eof: bool)
    requires SplitBMP(data, false).token.Some?
    ensures SplitBMP(data + more, eof) == SplitBMP(data, false)
  {
    IndexStays(data, more, BM);
    var start, end := Index(data, BM), SplitBMP(data, false).advance;
    assert (data + more)[start..end] == data[start..end];
  }

  lemma TiffStartStays(data: seq<byte>, more: seq<byte>)
    requires TiffStart(data).0 >= 0 && SameOrder(data, more)
    ensures TiffStart(data + more) == TiffStart(data)
  {
    IndexStays(data, more, if TiffStart(data).1 then LE_SIG else BE_SIG);
  }

  lemma SizeStays(data: seq<byte>, more: seq<byte>, start: nat, le: bool)
    requires start <= |data| && TiffSize.TiffSize(data[start..], le).Some?
    ensures TiffSize.TiffSize((data + more)[start..], le) == TiffSize.TiffSize(data[start..], le)
    ensures start + TiffSize.TiffSize(data[start..], le).value <= |data|
  {
    var d := data[start..];
    assert (data + more)[start..] == d + more;
    TiffSize.SizeInside(d, le);
    TiffSize.SelfDelimiting(d, d + more, le);
  }

  /** A token is found exactly when the whole sized image is in the buffer. */
  lemma TIFFTokenAt(data: seq<byte>, start: nat, le: bool, size: nat, eof: bool)
    requires TiffStart(data) == (start, le) && start + size <= |data|
    requires TiffSize.TiffSize(data[start..], le) == Some(size)
    ensures SplitTIFF(data, eof) == SplitResult(start + size, Some(data[start..start + size]))
  {
    TiffSize.SizeInside(data[start..], le);
  }

  lemma TIFFTokenStays(data: seq<byte>, more: seq<byte>, eof: bool)
    requires SplitTIFF(data, false).token.Some? && SameOrder(data, more)
    ensures SplitTIFF(data + more, eof) == SplitTIFF(data, false)
  {
    var (start, le) := TiffStart(data);
    var size := TiffSize.TiffSize(data[start..], le).value;
    TiffStartStays(data, more);
    SizeStays(data, more, start, le);
    TIFFTokenAt(data, start, le, size, false);
    TIFFTokenAt(data + more, start, le, size, eof);
    assert (data + more)[start..start + size] == data[start..start + size];
  }

  // The new start lies where no signature fitted before, so a token found there ends beyond the old buffer.
  lemma TIFFTokenChanges(data: seq<byte>, more: seq<byte>, eof: bool)
    requires SplitTIFF(data, false).token.Some? && !SameOrder(data, more)
    ensures SplitTIFF(data + more, eof) != SplitTIFF(data, false)
  {
    var start := Index(data + more, LE_SIG);
    if start + 4 <= |data| {
      OccursExtend(LE_SIG, data, more, start);
    }
    SplitAdvances(TIFF, data, false);
    var d := (data + more)[start..];
    if TiffSize.TiffSize(d, true).Some? {
      TiffSize.SizeInside(d, true);
    }
  }

  /**
   * A token found on a buffer is unchanged by appending bytes, for every format and every buffer but one case: a
   * big-endian TIFF token changes exactly when the longer buffer holds a little-endian signature.
   */
  lemma TokenIsStable(fmt: Format, data: seq<byte>, more: seq<byte>, eof: bool)
    requires Split(fmt, data, false).token.Some?
    ensures Split(fmt, data + more, eof) == Split(fmt, data, false) <==> (fmt == TIFF ==> SameOrder(data, more))
  {
    match fmt
    case JPEG => JPEGTokenStays(data, more, eof);
    case PNG => PNGTokenStays(data, more, eof);
    case BMP => BMPTokenStays(data, more, eof);
    case TIFF =>
      if SameOrder(data, more) {
        TIFFTokenStays(data, more, eof);
      } else {
        TIFFTokenChanges(data, more, eof);
      }
  }
}
