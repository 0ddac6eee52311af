/** The forwarding loop of one subscriber: which of the frames it receives are sent on, and how they are flagged. */
module Delivery {
  import opened Sequences
  import opened AnnexB
  import opened NalBytes
  import opened ParamSets

  const QUEUE_CAP: nat := 8

  datatype Frame = Frame(data: seq<byte>, encoding: Encoding, sequence: nat)

  predicate IsBitstream(encoding: Encoding) {
    encoding == H264 || encoding == H265 || encoding == Hevc
  }

  // ------------------------------------------------------------------
  // The forwarding loop of one subscriber
  // ------------------------------------------------------------------

  datatype Watcher = Watcher(seenKeyframe: bool, lastSeq: nat)

  datatype Message = Message(frame: Frame, keyframe: bool)

  predicate HasIDR(f: Frame) {
    Holds(f.data, f.encoding, Idr)
  }

  /** What the loop does with a received frame: drop it (None) or send it and go on. */
  function Forward(w: Watcher, f: Frame): Option<Watcher> {
    var frameMode := !IsBitstream(f.encoding);
    if !w.seenKeyframe && !frameMode && !HasIDR(f) then None
    else if frameMode && f.sequence > 0 && f.sequence <= w.lastSeq then None
    else Some(Watcher(w.seenKeyframe || !frameMode, if f.sequence > w.lastSeq then f.sequence else w.lastSeq))
  }

  /** The keyframe flag of a sent frame. */
  predicate KeyframeFlag(f: Frame) {
    !IsBitstream(f.encoding) || (|f.data| >= 5 && HoldsSignificant(f.data, f.encoding))
  }

  /** The loop's state after the frames received so far. */
  function WatcherAfter(enc: Encoding, received: seq<Frame>): Watcher {
    if received == [] then Watcher(!IsBitstream(enc), 0)
    else
      var n := |received| - 1;
      var w := WatcherAfter(enc, received[..n]);
      match Forward(w, received[n])
      case None => w
      case Some(w') => w'
  }

  /** The frames sent out of those received so far. */
  function SentOf(enc: Encoding, received: seq<Frame>): seq<Frame> {
    if received == [] then []
    else
      var n := |received| - 1;
      SentOf(enc, received[..n])
          + (if Forward(WatcherAfter(enc, received[..n]), received[n]).Some? then [received[n]] else [])
  }

  /** One received frame: send it or not, with which flag, and the state to go on with. */
  method ForwardOne(seenKeyframe: bool, lastSeq: nat, f: Frame)
    returns (seen: bool, last: nat, send: bool, keyframe: bool)
    ensures match Forward(Watcher(seenKeyframe, lastSeq), f)
            case None => !send && seen == seenKeyframe && last == lastSeq
            case Some(w) => send && w == Watcher(seen, last) && (keyframe <==> KeyframeFlag(f))
  {
    seen, last, send, keyframe := seenKeyframe, lastSeq, false, false;
    var frameMode := !IsBitstream(f.encoding);
    if !seenKeyframe && !frameMode {
      var units := ParseNALUnits(f.data);
      var idr := FrameContainsIDR(units, f.encoding);
      if !idr {
        return;
      }
      seen := true;
    }
    if frameMode && f.sequence > 0 && f.sequence <= lastSeq {
      return;
    }
    if f.sequence > lastSeq {
      last := f.sequence;
    }
    send, keyframe := true, frameMode;
    if !frameMode && |f.data| >= 5 {
      keyframe := IsKeyframeNAL(f.data, f.encoding);
    }
  }

  /** A sent frame with an IDR is flagged exactly when it has at least five bytes; a shorter one is not looked at. */
  lemma IDRIsFlaggedIff(f: Frame)
    requires IsBitstream(f.encoding) && HasIDR(f)
    ensures KeyframeFlag(f) <==> |f.data| >= 5
  {
    assert Idr != OtherNal;
  }

  /** A sent message is flagged in frame mode always, and else exactly if its bytes show an IDR or a parameter set. */
  lemma FlagIsInBytes(f: Frame)
    ensures KeyframeFlag(f) <==>
            || f.encoding in {Jpeg, Png, Bmp, Tiff}
            || (|f.data| >= 5 && exists q: nat, x :: HeaderAt(f.data, q, x) && !TypeIs(x, f.encoding, OtherNal))
  {
    SignificantInBytes(f.data, f.encoding);
  }

  /** The loop over everything a subscriber receives. */
  method WatchLoop(enc: Encoding, received: seq<Frame>) returns (sent: seq<Frame>, keyframes: seq<bool>)
    ensures sent == SentOf(enc, received)
    ensures |keyframes| == |sent| && forall i :: 0 <= i < |sent| ==> (keyframes[i] <==> KeyframeFlag(sent[i]))
  {
    sent, keyframes := [], [];
    var lastSeq := 0;
    var seenKeyframe := !IsBitstream(enc);
    for i := 0 to |received|
      invariant Watcher(seenKeyframe, lastSeq) == WatcherAfter(enc, received[..i])
      invariant sent == SentOf(enc, received[..i])
      invariant |keyframes| == |sent| && forall i :: 0 <= i < |sent| ==> (keyframes[i] <==> KeyframeFlag(sent[i]))
    {
      assert received[..i + 1][..i] == received[..i];
      var send, keyframe;
      seenKeyframe, lastSeq, send, keyframe := ForwardOne(seenKeyframe, lastSeq, received[i]);
      if send {
        sent := sent + [received[i]];
        keyframes := keyframes + [keyframe];
      }
    }
    assert received[..|received|] == received;
  }

  /** The first frame at or after `i` that holds an IDR. */
  function FirstIDR(frames: seq<Frame>, i: nat): (k: nat)
    requires i <= |frames|
    ensures i <= k <= |frames|
    ensures k < |frames| ==> HasIDR(frames[k])
    ensures forall j :: i <= j < k ==> !HasIDR(frames[j])
    decreases |frames| - i
  {
    if i == |frames| || HasIDR(frames[i]) then i else FirstIDR(frames, i + 1)
  }

  lemma FirstIDRSnoc(front: seq<Frame>, f: Frame)
    ensures FirstIDR(front + [f], 0) ==
            (if FirstIDR(front, 0) < |front| then FirstIDR(front, 0) else if HasIDR(f) then |front| else |front| + 1)
  {
    var all := front + [f];
    var k, j := FirstIDR(all, 0), FirstIDR(front, 0);
    assert all[|front|] == f;
    assert forall i :: 0 <= i < |front| ==> all[i] == front[i];
  }

  /** One more received frame. */
  lemma SentSnoc(enc: Encoding, front: seq<Frame>, f: Frame)
    ensures var next := Forward(WatcherAfter(enc, front), f);
            && SentOf(enc, front + [f]) == SentOf(enc, front) + (if next.Some? then [f] else [])
            && WatcherAfter(enc, front + [f]) == if next.Some? then next.value else WatcherAfter(enc, front)
  {
    assert (front + [f])[..|front|] == front;
  }

  lemma ForwardBitstream(w: Watcher, f: Frame)
    requires IsBitstream(f.encoding)
    ensures Forward(w, f).Some? <==> w.seenKeyframe || HasIDR(f)
    ensures Forward(w, f).Some? ==> Forward(w, f).value.seenKeyframe
  {
  }

  /** A bitstream subscriber is sent exactly the frames from the first IDR on. */
  lemma {:induction false} BitstreamFromFirstIDR(enc: Encoding, received: seq<Frame>)
    requires IsBitstream(enc) && forall f :: f in received ==> f.encoding == enc
    ensures SentOf(enc, received) == received[FirstIDR(received, 0)..]
    ensures WatcherAfter(enc, received).seenKeyframe <==> FirstIDR(received, 0) < |received|
  {
    if received != [] {
      var n := |received| - 1;
      var front, f := received[..n], received[n];
      assert f in received && front + [f] == received;
      BitstreamFromFirstIDR(enc, front);
      FirstIDRSnoc(front, f);
      SentSnoc(enc, front, f);
      ForwardBitstream(WatcherAfter(enc, front), f);
      DropSnoc(front, f, FirstIDR(front, 0));
    }
  }

  lemma DropSnoc(front: seq<Frame>, f: Frame, j: nat)
    requires j <= |front|
    ensures (front + [f])[j..] == front[j..] + [f]
  {
  }

  lemma ForwardFrame(w: Watcher, f: Frame)
    requires !IsBitstream(f.encoding) && w.seenKeyframe && (f.sequence > w.lastSeq || f.sequence == 0 == w.lastSeq)
    ensures Forward(w, f) == Some(Watcher(true, f.sequence))
  {
  }

  /** A frame-mode subscriber is sent every frame as long as sequence numbers increase. */
  lemma {:induction false} FrameModeSendsAll(enc: Encoding, received: seq<Frame>)
    requires !IsBitstream(enc) && forall f :: f in received ==> f.encoding == enc
    requires forall i, j :: 0 <= i < j < |received| ==> received[i].sequence < received[j].sequence
    ensures SentOf(enc, received) == received
    ensures received != [] ==> WatcherAfter(enc, received) == Watcher(true, received[|received| - 1].sequence)
  {
    if received != [] {
      var n := |received| - 1;
      var front, f := received[..n], received[n];
      assert f in received && front + [f] == received;
      FrameModeSendsAll(enc, front);
      SentSnoc(enc, front, f);
      ForwardFrame(WatcherAfter(enc, front), f);
    }
  }

  predicate NewerThanAll(f: Frame, frames: seq<Frame>) {
    forall g :: g in frames ==> g.sequence < f.sequence
  }

  // The highest sequence number received so far.
  ghost predicate IsHighest(last: nat, frames: seq<Frame>) {
    (forall g :: g in frames ==> g.sequence <= last) && (last == 0 || exists g :: g in frames && g.sequence == last)
  }

  lemma ForwardDuplicate(w: Watcher, front: seq<Frame>, f: Frame)
    requires !IsBitstream(f.encoding) && w.seenKeyframe && IsHighest(w.lastSeq, front)
    ensures Forward(w, f).Some? <==> f.sequence == 0 || NewerThanAll(f, front)
    ensures var next := if Forward(w, f).Some? then Forward(w, f).value else w;
            next.seenKeyframe && IsHighest(next.lastSeq, front + [f])
  {
    assert f in front + [f] && forall g :: g in front ==> g in front + [f];
    assert forall g :: g in front + [f] ==> g in front || g == f;
  }

  lemma {:induction false} WatcherIsHighest(enc: Encoding, received: seq<Frame>)
    requires !IsBitstream(enc) && forall f :: f in received ==> f.encoding == enc
    ensures WatcherAfter(enc, received).seenKeyframe && IsHighest(WatcherAfter(enc, received).lastSeq, received)
  {
    if received != [] {
      var n := |received| - 1;
      var front, f := received[..n], received[n];
      assert f in received && front + [f] == received;
      WatcherIsHighest(enc, front);
      SentSnoc(enc, front, f);
      ForwardDuplicate(WatcherAfter(enc, front), front, f);
    }
  }

  /** In frame mode a frame is sent exactly if it is newer than all received before it, or carries no number. */
  lemma DuplicatesAreSkipped(enc: Encoding, front: seq<Frame>, f: Frame)
    requires !IsBitstream(enc) && forall g :: g in front + [f] ==> g.encoding == enc
    ensures SentOf(enc, front + [f]) ==
            SentOf(enc, front) + if f.sequence == 0 || NewerThanAll(f, front) then [f] else []
  {
    assert f in front + [f] && forall g :: g in front ==> g in front + [f];
    WatcherIsHighest(enc, front);
    SentSnoc(enc, front, f);
    ForwardDuplicate(WatcherAfter(enc, front), front, f);
  }

  // ------------------------------------------------------------------
  // Frames of several sessions
  // ------------------------------------------------------------------

  predicate FirstBitstreamAt(frames: seq<Frame>, i: nat) {
    i < |frames| && IsBitstream(frames[i].encoding) && forall j :: 0 <= j < i ==> !IsBitstream(frames[j].encoding)
  }

  /** The first bitstream frame, if there is one, holds an IDR. */
  predicate OpensWithIDR(frames: seq<Frame>) {
    forall i :: 0 <= i < |frames| && FirstBitstreamAt(frames, i) ==> HasIDR(frames[i])
  }

  predicate SomeBitstream(frames: seq<Frame>) {
    exists f :: f in frames && IsBitstream(f.encoding)
  }

  lemma OpensSnoc(front: seq<Frame>, f: Frame)
    requires OpensWithIDR(front) && (IsBitstream(f.encoding) && !SomeBitstream(front) ==> HasIDR(f))
    ensures OpensWithIDR(front + [f])
    ensures SomeBitstream(front + [f]) <==> SomeBitstream(front) || IsBitstream(f.encoding)
  {
    var all := front + [f];
    assert forall j :: 0 <= j < |front| ==> all[j] == front[j];
    forall i | 0 <= i < |all| && FirstBitstreamAt(all, i)
      ensures HasIDR(all[i])
    {
      if i < |front| {
        assert FirstBitstreamAt(front, i);
      }
    }
    if SomeBitstream(front) {
      var g :| g in front && IsBitstream(g.encoding);
      assert g in all;
    }
    assert f in all;
  }

  ghost predicate Opened(w: Watcher, sent: seq<Frame>) {
    OpensWithIDR(sent) && (w.seenKeyframe <==> SomeBitstream(sent))
  }

  lemma OpenedStep(w: Watcher, sent: seq<Frame>, f: Frame)
    requires Opened(w, sent)
    ensures Forward(w, f).Some? ==> Opened(Forward(w, f).value, sent + [f])
  {
    if Forward(w, f).Some? {
      if IsBitstream(f.encoding) {
        ForwardBitstream(w, f);
      } else {
        assert Forward(w, f).value.seenKeyframe == w.seenKeyframe;
      }
      OpensSnoc(sent, f);
    }
  }

  lemma OpenedNext(enc: Encoding, front: seq<Frame>, f: Frame)
    requires Opened(WatcherAfter(enc, front), SentOf(enc, front))
    ensures Opened(WatcherAfter(enc, front + [f]), SentOf(enc, front + [f]))
  {
    var w, sent := WatcherAfter(enc, front), SentOf(enc, front);
    SentSnoc(enc, front, f);
    OpenedStep(w, sent, f);
    if Forward(w, f).None? {
      assert SentOf(enc, front + [f]) == sent;
    }
  }

  lemma {:induction false} BitstreamOpens(enc: Encoding, received: seq<Frame>)
    requires IsBitstream(enc)
    ensures Opened(WatcherAfter(enc, received), SentOf(enc, received))
  {
    if received == [] {
      assert SentOf(enc, []) == [] && Opened(Watcher(false, 0), []);
    } else {
      var n := |received| - 1;
      assert received[..n] + [received[n]] == received;
      BitstreamOpens(enc, received[..n]);
      OpenedNext(enc, received[..n], received[n]);
    }
  }

  /**
   * Whatever a subscriber receives, of whichever sessions and encodings, the first bitstream frame it is sent holds an
   * IDR: that is so if and only if it found the camera open with a bitstream encoding.
   */
  lemma OpensWithIDRIff(enc: Encoding)
    ensures IsBitstream(enc) <==> forall received :: OpensWithIDR(SentOf(enc, received))
  {
    if IsBitstream(enc) {
      forall received
        ensures OpensWithIDR(SentOf(enc, received))
      {
        BitstreamOpens(enc, received);
      }
    } else {
      var f := Frame([], H264, 0);
      SentSnoc(enc, [], f);
      assert [] + [f] == [f] && SentOf(enc, [f]) == [f];
      assert FirstBitstreamAt([f], 0) && Units(f.data) == [];
    }
  }

  /** Once a keyframe was sent, bitstream frames of a later session are sent from the first on, IDR or not. */
  lemma {:induction false} LaterSessionUnfiltered(enc: Encoding, first: seq<Frame>, later: seq<Frame>)
    requires IsBitstream(enc) && SomeBitstream(SentOf(enc, first)) && forall f :: f in later ==> IsBitstream(f.encoding)
    ensures SentOf(enc, first + later) == SentOf(enc, first) + later
    ensures WatcherAfter(enc, first + later).seenKeyframe
  {
    if later == [] {
      assert first + later == first;
      BitstreamOpens(enc, first);
    } else {
      var n := |later| - 1;
      var front, f := later[..n], later[n];
      assert first + later == (first + front) + [f] && front + [f] == later && f in later;
      LaterSessionUnfiltered(enc, first, front);
      SentSnoc(enc, first + front, f);
      ForwardBitstream(WatcherAfter(enc, first + front), f);
    }
  }
}
