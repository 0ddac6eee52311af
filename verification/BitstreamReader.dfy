/** The reader that cuts an H.264/H.265 byte stream, arriving in arbitrary reads, into chunks. */
module BitstreamReader {
  import opened Sequences
  import opened AnnexB

  const START_CODE: seq<byte> := [0, 0, 0, 1]

  /** What a Read call hands over: bytes, or bytes together with an error. */
  datatype ReadResult = Data(bytes: seq<byte>) | Failed(bytes: seq<byte>)

  datatype Chunk = Chunk(data: seq<byte>, sequence: nat)

  /** The pieces the loop consumes: bytes that come with an error are dropped and end the loop. */
  function Received(src: seq<ReadResult>): seq<seq<byte>> {
    if src == [] || src[0].Failed? then [] else [src[0].bytes] + Received(src[1..])
  }

  /** The bytes of all chunks, in order. */
  function Bytes(frames: seq<Chunk>): seq<byte> {
    if frames == [] then [] else Bytes(frames[..|frames| - 1]) + frames[|frames| - 1].data
  }

  /** The stream offsets at which the chunks end. */
  function Boundaries(frames: seq<Chunk>): set<nat> {
    if frames == [] then {} else Boundaries(frames[..|frames| - 1]) + {|Bytes(frames)|}
  }

  /** A 4-byte start code stands at stream offset `p`, all of it inside one piece. */
  ghost predicate CutAt(pieces: seq<seq<byte>>, p: nat) {
    if pieces == [] then false
    else
      var n := |pieces| - 1;
      var before := |Flatten(pieces[..n])|;
      if p < before then CutAt(pieces[..n], p) else StartCodeLen(pieces[n], p - before) == 4
  }

  // Every chunk is non-empty, carries an offset inside itself and past its predecessor's, and after the first begins
  // with a start code.
  ghost predicate WellCut(frames: seq<Chunk>) {
    if frames == [] then true
    else
      var n := |frames| - 1;
      var c := frames[n];
      && WellCut(frames[..n])
      && c.data != []
      && |Bytes(frames[..n])| <= c.sequence <= |Bytes(frames)|
      && (n > 0 ==> START_CODE <= c.data && frames[n - 1].sequence < c.sequence)
  }

  /** Chunks and leftover account for every byte of `stream`. */
  ghost predicate Framed(stream: seq<byte>, frames: seq<Chunk>, rest: seq<byte>) {
    && Bytes(frames) + rest == stream
    && WellCut(frames)
    && (frames != [] ==> START_CODE <= rest)
  }

  lemma {:induction false} WellCutPrefix(frames: seq<Chunk>, k: nat)
    requires WellCut(frames) && k <= |frames|
    ensures WellCut(frames[..k])
  {
    if k < |frames| {
      WellCutPrefix(frames[..|frames| - 1], k);
      assert frames[..|frames| - 1][..k] == frames[..k];
    } else {
      assert frames[..k] == frames;
    }
  }

  /**
   * A chunk is non-empty, its offset lies between its own start and end, and after the first it begins with a start
   * code.
   */
  lemma ChunkInStream(frames: seq<Chunk>, k: nat)
    requires WellCut(frames) && k < |frames|
    ensures frames[k].data != [] && (k > 0 ==> START_CODE <= frames[k].data)
    ensures |Bytes(frames[..k])| <= frames[k].sequence <= |Bytes(frames[..k])| + |frames[k].data|
    ensures k > 0 ==> frames[k - 1].sequence < frames[k].sequence
  {
    WellCutPrefix(frames, k + 1);
    assert frames[..k + 1][..k] == frames[..k];
  }

  /** The offsets of the chunks are strictly increasing. */
  lemma {:induction false} SequencesIncrease(frames: seq<Chunk>, k: nat, l: nat)
    requires WellCut(frames) && k < l < |frames|
    ensures frames[k].sequence < frames[l].sequence
    decreases l
  {
    ChunkInStream(frames, l);
    if k < l - 1 {
      SequencesIncrease(frames, k, l - 1);
    }
  }

  // ------------------------------------------------------------------
  // Steps of the loop
  // ------------------------------------------------------------------

  // `cuts` are the cuts of the finished pieces and the start codes in the first `offset` bytes of `data`.
  ghost predicate CutUpTo(cuts: set<nat>, pieces: seq<seq<byte>>, before: nat, data: seq<byte>, offset: nat) {
    forall p: nat :: p > 0 ==>
      (p in cuts <==>
        if p < before then CutAt(pieces, p) else p - before + 4 <= offset && StartCodeLen(data, p - before) == 4)
  }

  // Emitting the bytes up to a start code keeps the framing.
  lemma EmitKeepsFramed(done: seq<byte>, frames: seq<Chunk>, rest: seq<byte>, more: seq<byte>)
    requires Framed(done, frames, rest) && rest + more != []
    ensures Framed(done + more + START_CODE, frames + [Chunk(rest + more, |done|)], START_CODE)
    ensures Boundaries(frames + [Chunk(rest + more, |done|)]) == Boundaries(frames) + {|done| + |more|}
  {
    var all := frames + [Chunk(rest + more, |done|)];
    assert all[..|all| - 1] == frames;
    assert Bytes(frames) + (rest + more) + START_CODE == done + more + START_CODE;
    if frames != [] {
      assert |Bytes(frames)| < |done|;
    }
  }

  lemma RestKeepsFramed(done: seq<byte>, frames: seq<Chunk>, rest: seq<byte>, more: seq<byte>)
    requires Framed(done, frames, rest)
    ensures Framed(done + more, frames, rest + more)
  {
    assert Bytes(frames) + (rest + more) == done + more;
  }

  // Between the end of one start code and the next start code there is none.
  lemma CutNext(cuts: set<nat>, pieces: seq<seq<byte>>, before: nat, data: seq<byte>, offset: nat, next: nat)
    requires offset <= next && StartCodeLen(data, next) == 4
    requires forall k: nat :: offset <= k < next ==> StartCodeLen(data, k) != 4
    requires 0 < offset <= |data| ==> data[offset - 1] == 1
    requires CutUpTo(cuts, pieces, before, data, offset)
    ensures CutUpTo(cuts + {before + next}, pieces, before, data, next + 4)
  {
    forall p: nat | p > 0 && p in cuts + {before + next}
      ensures if p < before then CutAt(pieces, p) else p - before + 4 <= next + 4 && StartCodeLen(data, p - before) == 4
    {
    }
  }

  // A start code begins at its first zero byte, never inside the previous start code.
  lemma CutLast(cuts: set<nat>, pieces: seq<seq<byte>>, before: nat, data: seq<byte>, offset: nat)
    requires offset <= |data|
    requires forall k: nat :: offset <= k ==> StartCodeLen(data, k) != 4
    requires offset > 0 ==> data[offset - 1] == 1
    requires CutUpTo(cuts, pieces, before, data, offset)
    ensures CutUpTo(cuts, pieces, before, data, |data|)
  {
  }

  // bytes.Index on the rest of the read, in terms of start codes.
  lemma FoundAt(data: seq<byte>, offset: nat, idx: int)
    requires offset <= |data| && idx == Index(data[offset..], START_CODE)
    ensures idx < 0 ==> forall k: nat :: offset <= k ==> StartCodeLen(data, k) != 4
    ensures idx >= 0 ==> StartCodeLen(data, offset + idx) == 4 && data[offset + idx..offset + idx + 4] == START_CODE
    ensures idx >= 0 ==> forall k: nat :: offset <= k < offset + idx ==> StartCodeLen(data, k) != 4
  {
    var tail := data[offset..];
    forall k: nat | offset <= k
      ensures StartCodeLen(data, k) == 4 <==> OccursAt(START_CODE, tail, k - offset)
    {
      if k + 4 <= |data| {
        var here := tail[k - offset..k - offset + 4];
        assert here == data[k..k + 4];
        assert here == START_CODE <==> here[0] == 0 && here[1] == 0 && here[2] == 0 && here[3] == 1;
      }
    }
  }

  // The search from `offset` comes to the next cut, or finds that there is none.
  lemma NextCut(cuts: set<nat>, pieces: seq<seq<byte>>, before: nat, data: seq<byte>, offset: nat, idx: int)
    requires offset <= |data| && idx == Index(data[offset..], START_CODE)
    requires offset > 0 ==> data[offset - 1] == 1
    requires CutUpTo(cuts, pieces, before, data, offset)
    ensures idx < 0 ==> CutUpTo(cuts, pieces, before, data, |data|)
    ensures idx >= 0 ==> offset + idx + 4 <= |data| && data[offset + idx..offset + idx + 4] == START_CODE
    ensures idx >= 0 ==> CutUpTo(cuts + {before + offset + idx}, pieces, before, data, offset + idx + 4)
  {
    FoundAt(data, offset, idx);
    if idx < 0 {
      CutLast(cuts, pieces, before, data, offset);
    } else {
      CutNext(cuts, pieces, before, data, offset, offset + idx);
    }
  }

  // ------------------------------------------------------------------
  // The loop
  // ------------------------------------------------------------------

  /** Where the loop stands after the first `offset` bytes of a read. */
  ghost predicate Consumed(stream: seq<byte>, pieces: seq<seq<byte>>, data: seq<byte>, offset: nat, frames: seq<Chunk>,
                           nalBuf: seq<byte>) {
    && offset <= |data|
    && Framed(stream + data[..offset], frames, nalBuf)
    && CutUpTo(Boundaries(frames), pieces, |stream|, data, offset)
    && (offset > 0 ==> nalBuf != [] && data[offset - 1] == 1)
  }

  /** One read: every start code found in `data` ends a chunk; the bytes after the last one wait in `nalBuf`. */
  method ConsumeRead(data: seq<byte>, frames0: seq<Chunk>, nalBuf0: seq<byte>, bytePos0: nat,
                     ghost stream: seq<byte>, ghost pieces: seq<seq<byte>>)
    returns (frames: seq<Chunk>, nalBuf: seq<byte>, bytePos: nat)
    requires Framed(stream, frames0, nalBuf0) && bytePos0 == |stream|
    requires CutUpTo(Boundaries(frames0), pieces, |stream|, data, 0)
    ensures Framed(stream + data, frames, nalBuf) && bytePos == |stream + data|
    ensures CutUpTo(Boundaries(frames), pieces, |stream|, data, |data|)
  {
    frames, nalBuf, bytePos := frames0, nalBuf0, bytePos0;
    var offset := 0;
    assert stream + data[..0] == stream;
    while offset < |data|
      invariant Consumed(stream, pieces, data, offset, frames, nalBuf) && bytePos == |stream| + offset
      decreases |data| - offset
    {
      var idx := Index(data[offset..], START_CODE);
      if idx < 0 {
        ReadEnds(stream, pieces, data, offset, frames, nalBuf);
        nalBuf := nalBuf + data[offset..];
        bytePos := bytePos + |data| - offset;
        return;
      }
      frames := EmitChunk(frames, nalBuf, data, offset, idx, bytePos, stream, pieces);
      offset := offset + idx + 4;
      bytePos := bytePos + idx + 4;
      nalBuf := START_CODE;
    }
    assert data[..|data|] == data;
  }

  // Without another start code the rest of the read waits.
  lemma ReadEnds(stream: seq<byte>, pieces: seq<seq<byte>>, data: seq<byte>, offset: nat, frames: seq<Chunk>,
                 nalBuf: seq<byte>)
    requires Consumed(stream, pieces, data, offset, frames, nalBuf) && Index(data[offset..], START_CODE) < 0
    ensures Framed(stream + data, frames, nalBuf + data[offset..])
    ensures CutUpTo(Boundaries(frames), pieces, |stream|, data, |data|)
  {
    NextCut(Boundaries(frames), pieces, |stream|, data, offset, Index(data[offset..], START_CODE));
    RestKeepsFramed(stream + data[..offset], frames, nalBuf, data[offset..]);
    assert stream + data[..offset] + data[offset..] == stream + data;
  }

  // The chunk that ends at a start code.
  lemma EmitConsumed(frames0: seq<Chunk>, nalBuf: seq<byte>, data: seq<byte>, offset: nat, idx: nat,
                     stream: seq<byte>, pieces: seq<seq<byte>>, more: seq<byte>)
    requires Consumed(stream, pieces, data, offset, frames0, nalBuf) && Index(data[offset..], START_CODE) == idx
    requires offset + idx <= |data| && more == data[offset..offset + idx] && nalBuf + more != []
    ensures offset + idx + 4 <= |data|
    ensures Consumed(stream, pieces, data, offset + idx + 4, frames0 + [Chunk(nalBuf + more, |stream| + offset)],
                     START_CODE)
  {
    var done := stream + data[..offset];
    NextCut(Boundaries(frames0), pieces, |stream|, data, offset, idx);
    assert done + more + START_CODE == stream + data[..offset + idx + 4];
    EmitKeepsFramed(done, frames0, nalBuf, more);
  }

  // A start code at the very front of the stream.
  lemma NothingConsumed(frames: seq<Chunk>, data: seq<byte>, stream: seq<byte>, pieces: seq<seq<byte>>)
    requires Consumed(stream, pieces, data, 0, frames, []) && Index(data, START_CODE) == 0
    ensures 4 <= |data| && Consumed(stream, pieces, data, 4, frames, START_CODE)
  {
    assert data[0..] == data;
    NextCut(Boundaries(frames), pieces, |stream|, data, 0, 0);
    assert stream + data[..0] == stream && frames == [] && stream == [];
    assert stream + data[..4] == START_CODE;
  }

  /** The bytes collected before a start code become a chunk stamped with the offset, unless there are none. */
  method EmitChunk(frames0: seq<Chunk>, nalBuf: seq<byte>, data: seq<byte>, offset: nat, idx: nat, bytePos: nat,
                   ghost stream: seq<byte>, ghost pieces: seq<seq<byte>>)
    returns (frames: seq<Chunk>)
    requires Consumed(stream, pieces, data, offset, frames0, nalBuf) && bytePos == |stream| + offset
    requires Index(data[offset..], START_CODE) == idx
    ensures offset + idx + 4 <= |data| && Consumed(stream, pieces, data, offset + idx + 4, frames, START_CODE)
    ensures var chunk := nalBuf + data[offset..offset + idx];
            frames == if chunk == [] then frames0 else frames0 + [Chunk(chunk, |stream| + offset)]
  {
    if |nalBuf| > 0 || offset < idx {
      var chunk := nalBuf + data[offset..offset + idx];
      EmitConsumed(frames0, nalBuf, data, offset, idx, stream, pieces, data[offset..offset + idx]);
      frames := frames0 + [Chunk(chunk, bytePos)];
    } else {
      frames := frames0;
      assert data[0..] == data && nalBuf + data[0..0] == [];
      NothingConsumed(frames, data, stream, pieces);
    }
  }

  /**
   * The read loop. Its chunks and leftover account for the stream; it cuts exactly at the start codes that lie inside
   * one piece.
   */
  method ReadLoop(src: seq<ReadResult>) returns (frames: seq<Chunk>, nalBuf: seq<byte>)
    ensures Framed(Flatten(Received(src)), frames, nalBuf)
    ensures forall p: nat :: p > 0 ==> (p in Boundaries(frames) <==> CutAt(Received(src), p))
  {
    frames, nalBuf := [], [];
    var bytePos := 0;
    var next := 0;
    ghost var pieces: seq<seq<byte>> := [];
    while next < |src|
      invariant 0 <= next <= |src|
      invariant Framed(Flatten(pieces), frames, nalBuf) && bytePos == |Flatten(pieces)|
      invariant forall p: nat :: p > 0 ==> (p in Boundaries(frames) <==> CutAt(pieces, p))
      invariant Received(src) == pieces + Received(src[next..])
    {
      if src[next].Failed? {
        assert Received(src[next..]) == [] && pieces + [] == pieces;
        return;
      }
      var data := src[next].bytes;
      CutsInsideStream(pieces);
      frames, nalBuf, bytePos := ConsumeRead(data, frames, nalBuf, bytePos, Flatten(pieces), pieces);
      ghost var grown := pieces + [data];
      FlattenSnoc(pieces, data);
      CutAtSnoc(pieces, data);
      ReceivedNext(src, next);
      assert pieces + ([data] + Received(src[next + 1..])) == grown + Received(src[next + 1..]);
      pieces := grown;
      next := next + 1;
    }
    assert src[next..] == [] && pieces + [] == pieces;
  }

  lemma ReceivedNext(src: seq<ReadResult>, next: nat)
    requires next < |src| && src[next].Data?
    ensures Received(src[next..]) == [src[next].bytes] + Received(src[next + 1..])
  {
    assert src[next..][1..] == src[next + 1..];
  }

  lemma CutAtSnoc(pieces: seq<seq<byte>>, data: seq<byte>)
    ensures forall p: nat :: CutAt(pieces + [data], p) <==>
              if p < |Flatten(pieces)| then CutAt(pieces, p) else StartCodeLen(data, p - |Flatten(pieces)|) == 4
  {
    var grown := pieces + [data];
    assert grown[..|grown| - 1] == pieces;
  }

  lemma {:induction false} CutsInsideStream(pieces: seq<seq<byte>>)
    ensures forall p: nat :: CutAt(pieces, p) ==> p + 4 <= |Flatten(pieces)|
  {
    if pieces != [] {
      var n := |pieces| - 1;
      CutsInsideStream(pieces[..n]);
      assert pieces == pieces[..n] + [pieces[n]];
      FlattenSnoc(pieces[..n], pieces[n]);
    }
  }

  // ------------------------------------------------------------------
  // Segmentation independence
  // ------------------------------------------------------------------

  /** The units of all chunks, in order. */
  function UnitsOfChunks(frames: seq<Chunk>): seq<seq<byte>> {
    if frames == [] then [] else UnitsOfChunks(frames[..|frames| - 1]) + Units(frames[|frames| - 1].data)
  }

  lemma {:induction false} UnitsOfFramed(frames: seq<Chunk>, rest: seq<byte>)
    requires WellCut(frames)
    requires frames != [] ==> START_CODE <= rest
    ensures UnitsOfChunks(frames) + Units(rest) == Units(Bytes(frames) + rest)
  {
    if frames != [] {
      var n := |frames| - 1;
      var front, last := frames[..n], frames[n];
      UnitsOfFramed(front, last.data);
      var whole := Bytes(front) + last.data;
      StartCodeStarts(whole, rest);
      UnitsOfCut(whole, rest);
    } else {
      assert Bytes(frames) + rest == rest;
    }
  }

  lemma StartCodeStarts(a: seq<byte>, b: seq<byte>)
    requires START_CODE <= b
    ensures IsUnitStart(a + b, |a|)
  {
    var d := a + b;
    assert d[|a|] == b[0] && d[|a| + 1] == b[1] && d[|a| + 2] == b[2] && d[|a| + 3] == b[3];
  }

  /**
   * Parsing the chunks and the leftover one by one gives the units of the whole stream, however it was cut into reads.
   */
  lemma SegmentationIndependence(stream: seq<byte>, frames: seq<Chunk>, rest: seq<byte>)
    requires Framed(stream, frames, rest)
    ensures UnitsOfChunks(frames) + Units(rest) == Units(stream)
  {
    UnitsOfFramed(frames, rest);
  }

  /** Two ways of cutting the same bytes into reads give the same units in the same order. */
  lemma TwoSegmentationsAgree(stream: seq<byte>, frames1: seq<Chunk>, rest1: seq<byte>, frames2: seq<Chunk>,
                              rest2: seq<byte>)
    requires Framed(stream, frames1, rest1) && Framed(stream, frames2, rest2)
    ensures UnitsOfChunks(frames1) + Units(rest1) == UnitsOfChunks(frames2) + Units(rest2)
  {
    SegmentationIndependence(stream, frames1, rest1);
    SegmentationIndependence(stream, frames2, rest2);
  }
}
