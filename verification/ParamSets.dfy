/** The cache of parameter-set units and the frames made self-contained with it. */
module ParamSets {
  import opened Sequences
  import opened Text
  import opened AnnexB

  /** The latest VPS, SPS and PPS units; an empty field stands for a missing unit. */
  datatype ParamBlob = ParamBlob(vps: seq<byte>, sps: seq<byte>, pps: seq<byte>) {
    predicate HasParamSets() {
      sps != [] && pps != []
    }

    /** VPS, SPS and PPS in decode order, or nothing when SPS or PPS is missing. */
    function ParamPrefix(): seq<byte> {
      if HasParamSets() then vps + sps + pps else []
    }
  }

  type ParamCache = Option<ParamBlob>

  /** The cached unit of kind `k`, empty when there is none. */
  function Slot(cache: ParamCache, k: NalKind): seq<byte> {
    if cache.None? then []
    else if k == Vps then cache.value.vps
    else if k == Sps then cache.value.sps
    else if k == Pps then cache.value.pps
    else []
  }

  /** The cache can make an IDR frame decodable. */
  predicate Complete(cache: ParamCache) {
    cache.Some? && cache.value.HasParamSets()
  }

  // ------------------------------------------------------------------
  // What injection does to the cache and to the frame
  // ------------------------------------------------------------------

  /** The last unit of kind `k`, or `older` when there is none. */
  function LastOf(units: seq<seq<byte>>, encoding: Encoding, k: NalKind, older: seq<byte>): seq<byte> {
    if units == [] then older
    else
      var u := units[|units| - 1];
      if UnitKind(u, encoding) == k then u else LastOf(units[..|units| - 1], encoding, k, older)
  }

  predicate CarriesParams(units: seq<seq<byte>>, encoding: Encoding) {
    SomeUnit(units, encoding, Vps) || SomeUnit(units, encoding, Sps) || SomeUnit(units, encoding, Pps)
  }

  /** The cache after the units of one or more frames. */
  function Updated(cache: ParamCache, units: seq<seq<byte>>, encoding: Encoding): ParamCache {
    if !CarriesParams(units, encoding) then cache
    else Some(ParamBlob(LastOf(units, encoding, Vps, Slot(cache, Vps)),
                        LastOf(units, encoding, Sps, Slot(cache, Sps)),
                        LastOf(units, encoding, Pps, Slot(cache, Pps))))
  }

  /** A frame with an IDR but without both SPS and PPS gets the cached sets in front of it. */
  function Injected(cache: ParamCache, data: seq<byte>, encoding: Encoding): seq<byte> {
    if Holds(data, encoding, Idr) && !(Holds(data, encoding, Sps) && Holds(data, encoding, Pps)) && cache.Some?
    then cache.value.ParamPrefix() + data
    else data
  }

  /** The mutable part of a camera that injection touches. */
  class CameraState {
    var paramSets: ParamCache

    constructor (seed: ParamCache)
      ensures paramSets == seed
    {
      paramSets := seed;
    }
  }

  /** A frame under construction in the capture loop, before it is shared. */
  class FrameBuffer {
    var data: seq<byte>
    const encoding: Encoding

    constructor (data: seq<byte>, encoding: Encoding)
      ensures this.data == data && this.encoding == encoding
    {
      this.data := data;
      this.encoding := encoding;
    }
  }

  method FrameContainsIDR(units: seq<seq<byte>>, encoding: Encoding) returns (found: bool)
    ensures found <==> SomeUnit(units, encoding, Idr)
    ensures found <==> exists u, x :: u in units && HeaderIs(u, x) && TypeIs(x, encoding, Idr)
  {
    SomeUnitIsInBits(units, encoding, Idr);
    for i := 0 to |units|
      invariant forall j :: 0 <= j < i ==> UnitKind(units[j], encoding) != Idr
    {
      if UnitKind(units[i], encoding) == Idr {
        return true;
      }
    }
    return false;
  }

  method FrameContainsParams(units: seq<seq<byte>>, encoding: Encoding) returns (both: bool)
    ensures both <==> SomeUnit(units, encoding, Sps) && SomeUnit(units, encoding, Pps)
    ensures both <==> SomeHeader(units, encoding, Sps) && SomeHeader(units, encoding, Pps)
  {
    SomeUnitIsInBits(units, encoding, Sps);
    SomeUnitIsInBits(units, encoding, Pps);
    var hasSPS, hasPPS := false, false;
    for i := 0 to |units|
      invariant hasSPS <==> exists j :: 0 <= j < i && UnitKind(units[j], encoding) == Sps
      invariant hasPPS <==> exists j :: 0 <= j < i && UnitKind(units[j], encoding) == Pps
    {
      match UnitKind(units[i], encoding)
      case Sps => hasSPS := true;
      case Pps => hasPPS := true;
      case _ =>
    }
    return hasSPS && hasPPS;
  }

  // The loop variables after the units `units` have been looked at.
  ghost predicate Folded(cur: ParamCache, units: seq<seq<byte>>, encoding: Encoding, blob: ParamBlob, changed: bool) {
    && (changed <==> CarriesParams(units, encoding))
    && blob.vps == LastOf(units, encoding, Vps, Slot(cur, Vps))
    && blob.sps == LastOf(units, encoding, Sps, Slot(cur, Sps))
    && blob.pps == LastOf(units, encoding, Pps, Slot(cur, Pps))
  }

  lemma FoldNext(cur: ParamCache, units: seq<seq<byte>>, u: seq<byte>, encoding: Encoding, blob: ParamBlob,
                 changed: bool)
    requires Folded(cur, units, encoding, blob, changed)
    ensures var k := UnitKind(u, encoding);
            Folded(cur, units + [u], encoding,
                   ParamBlob(if k == Vps then u else blob.vps, if k == Sps then u else blob.sps,
                             if k == Pps then u else blob.pps),
                   changed || k == Vps || k == Sps || k == Pps)
  {
    SomeUnitSnoc(units, u, encoding);
    assert (units + [u])[..|units|] == units;
  }

  /** Folds the frame's units into the cache. */
  method UpdateParamSets(cs: CameraState, units: seq<seq<byte>>, encoding: Encoding)
    modifies cs`paramSets
    ensures cs.paramSets == Updated(old(cs.paramSets), units, encoding)
  {
    var cur := cs.paramSets;
    var vps, sps, pps := Slot(cur, Vps), Slot(cur, Sps), Slot(cur, Pps);
    var changed := false;
    for i := 0 to |units|
      invariant Folded(cur, units[..i], encoding, ParamBlob(vps, sps, pps), changed)
      invariant cs.paramSets == cur
    {
      var u := units[i];
      FoldNext(cur, units[..i], u, encoding, ParamBlob(vps, sps, pps), changed);
      assert units[..i] + [u] == units[..i + 1];
      match UnitKind(u, encoding)
      case Vps => vps, changed := u, true;
      case Sps => sps, changed := u, true;
      case Pps => pps, changed := u, true;
      case _ =>
    }
    assert units[..|units|] == units;
    if changed {
      cs.paramSets := Some(ParamBlob(vps, sps, pps));
    }
  }

  /** Updates the cache from the frame's units, then makes an IDR frame self-contained. */
  method InjectBitstreamParams(cs: CameraState, f: FrameBuffer)
    modifies cs`paramSets, f`data
    ensures cs.paramSets == Updated(old(cs.paramSets), Units(old(f.data)), f.encoding)
    ensures f.data == Injected(cs.paramSets, old(f.data), f.encoding)
  {
    var units := ParseNALUnits(f.data);
    if |units| == 0 {
      return;
    }
    UpdateParamSets(cs, units, f.encoding);
    var idr := FrameContainsIDR(units, f.encoding);
    var both := FrameContainsParams(units, f.encoding);
    if !idr || both || cs.paramSets.None? {
      return;
    }
    var prefix := cs.paramSets.value.ParamPrefix();
    if |prefix| == 0 {
      return;
    }
    f.data := prefix + f.data;
  }

  lemma SomeUnitSnoc(units: seq<seq<byte>>, u: seq<byte>, encoding: Encoding)
    ensures forall k :: SomeUnit(units + [u], encoding, k) <==>
        SomeUnit(units, encoding, k) || UnitKind(u, encoding) == k
  {
    forall k | SomeUnit(units, encoding, k)
      ensures SomeUnit(units + [u], encoding, k)
    {
      var v :| v in units && UnitKind(v, encoding) == k;
      assert v in units + [u];
    }
    assert u in units + [u];
  }

  // ------------------------------------------------------------------
  // The cache agrees with history
  // ------------------------------------------------------------------

  /** The cache after the frames `datas` of one session, from its seed. */
  function CacheAfter(seed: ParamCache, datas: seq<seq<byte>>, encoding: Encoding): ParamCache {
    if datas == [] then seed
    else
      var n := |datas| - 1;
      Updated(CacheAfter(seed, datas[..n], encoding), Units(datas[n]), encoding)
  }

  /** All units of the frames, in order. */
  function AllUnits(datas: seq<seq<byte>>): seq<seq<byte>> {
    if datas == [] then [] else AllUnits(datas[..|datas| - 1]) + Units(datas[|datas| - 1])
  }

  lemma {:induction false} LastOfConcat(a: seq<seq<byte>>, b: seq<seq<byte>>, encoding: Encoding, k: NalKind,
                                        older: seq<byte>)
    ensures LastOf(a + b, encoding, k, older) == LastOf(b, encoding, k, LastOf(a, encoding, k, older))
  {
    if b == [] {
      assert a + b == a;
    } else {
      var n := |b| - 1;
      assert (a + b)[..|a + b| - 1] == a + b[..n];
      LastOfConcat(a, b[..n], encoding, k, older);
    }
  }

  lemma SomeUnitConcat(a: seq<seq<byte>>, b: seq<seq<byte>>, encoding: Encoding)
    ensures forall k :: SomeUnit(a + b, encoding, k) <==> SomeUnit(a, encoding, k) || SomeUnit(b, encoding, k)
  {
    forall u | u in a || u in b
      ensures u in a + b
    {
    }
  }

  /** Unit `i` is of kind `k` and none after it is. */
  ghost predicate LastAt(units: seq<seq<byte>>, encoding: Encoding, k: NalKind, i: nat) {
    && i < |units| && UnitKind(units[i], encoding) == k
    && forall j :: i < j < |units| ==> UnitKind(units[j], encoding) != k
  }

  lemma {:induction false} LastOfIs(units: seq<seq<byte>>, encoding: Encoding, k: NalKind, older: seq<byte>)
    ensures if SomeUnit(units, encoding, k)
            then exists i: nat :: LastAt(units, encoding, k, i) && LastOf(units, encoding, k, older) == units[i]
            else LastOf(units, encoding, k, older) == older
    ensures SomeUnit(units, encoding, k) ==>
              LastOf(units, encoding, k, older) in units && UnitKind(LastOf(units, encoding, k, older), encoding) == k
  {
    if units != [] {
      var n := |units| - 1;
      LastOfIs(units[..n], encoding, k, older);
      assert units == units[..n] + [units[n]];
      SomeUnitSnoc(units[..n], units[n], encoding);
      if UnitKind(units[n], encoding) == k {
        assert LastAt(units, encoding, k, n);
      } else if SomeUnit(units[..n], encoding, k) {
        var i: nat :| LastAt(units[..n], encoding, k, i) && LastOf(units[..n], encoding, k, older) == units[..n][i];
        assert LastAt(units, encoding, k, i);
      }
    }
  }

  lemma UpdatedConcat(cache: ParamCache, a: seq<seq<byte>>, b: seq<seq<byte>>, encoding: Encoding)
    ensures Updated(cache, a + b, encoding) == Updated(Updated(cache, a, encoding), b, encoding)
  {
    SomeUnitConcat(a, b, encoding);
    forall k | k == Vps || k == Sps || k == Pps
      ensures LastOf(a + b, encoding, k, Slot(cache, k)) ==
          LastOf(b, encoding, k, LastOf(a, encoding, k, Slot(cache, k)))
      ensures !SomeUnit(a, encoding, k) ==> LastOf(a, encoding, k, Slot(cache, k)) == Slot(cache, k)
      ensures !SomeUnit(b, encoding, k) ==>
                LastOf(b, encoding, k, LastOf(a, encoding, k, Slot(cache, k))) == LastOf(a, encoding, k, Slot(cache, k))
    {
      LastOfConcat(a, b, encoding, k, Slot(cache, k));
      LastOfIs(a, encoding, k, Slot(cache, k));
      LastOfIs(b, encoding, k, LastOf(a, encoding, k, Slot(cache, k)));
    }
  }

  /** After any run of frames each slot holds the last unit of its kind among all units seen, else the seed. */
  lemma {:induction false} CacheAgreesWithHistory(seed: ParamCache, datas: seq<seq<byte>>, encoding: Encoding)
    ensures CacheAfter(seed, datas, encoding) == Updated(seed, AllUnits(datas), encoding)
  {
    if datas != [] {
      var n := |datas| - 1;
      CacheAgreesWithHistory(seed, datas[..n], encoding);
      UpdatedConcat(seed, AllUnits(datas[..n]), Units(datas[n]), encoding);
    }
  }

  // ------------------------------------------------------------------
  // Well-formed caches and self-contained frames
  // ------------------------------------------------------------------

  /** Missing, or one whole unit of kind `k`. */
  predicate IsParamUnit(x: seq<byte>, encoding: Encoding, k: NalKind) {
    x == [] || (Units(x) == [x] && UnitKind(x, encoding) == k)
  }

  predicate WellFormed(cache: ParamCache, encoding: Encoding) {
    && IsParamUnit(Slot(cache, Vps), encoding, Vps)
    && IsParamUnit(Slot(cache, Sps), encoding, Sps)
    && IsParamUnit(Slot(cache, Pps), encoding, Pps)
  }

  lemma UpdatedWellFormed(cache: ParamCache, data: seq<byte>, encoding: Encoding)
    requires WellFormed(cache, encoding)
    ensures WellFormed(Updated(cache, Units(data), encoding), encoding)
    ensures Complete(cache) ==> Complete(Updated(cache, Units(data), encoding))
  {
    var units := Units(data);
    UnitsAreWhole(data);
    LastOfIs(units, encoding, Vps, Slot(cache, Vps));
    LastOfIs(units, encoding, Sps, Slot(cache, Sps));
    LastOfIs(units, encoding, Pps, Slot(cache, Pps));
  }

  lemma ParamUnitHolds(x: seq<byte>, encoding: Encoding, k: NalKind)
    requires IsParamUnit(x, encoding, k) && x != [] && k != OtherNal
    ensures StartCodeLen(x, 0) != 0
    ensures forall j :: Holds(x, encoding, j) <==> j == k
  {
    UnitHoldsItself(x, encoding);
  }

  /** The prefix of a well-formed, complete cache holds SPS and PPS and no IDR. */
  lemma PrefixHolds(blob: ParamBlob, encoding: Encoding)
    requires WellFormed(Some(blob), encoding) && blob.HasParamSets()
    ensures Holds(blob.ParamPrefix(), encoding, Sps) && Holds(blob.ParamPrefix(), encoding, Pps)
    ensures !Holds(blob.ParamPrefix(), encoding, Idr)
  {
    var front := blob.vps + blob.sps;
    ParamUnitHolds(blob.sps, encoding, Sps);
    ParamUnitHolds(blob.pps, encoding, Pps);
    HoldsConcat(blob.vps, blob.sps, encoding, Sps);
    HoldsConcat(front, blob.pps, encoding, Sps);
    HoldsConcat(front, blob.pps, encoding, Pps);
    if Holds(blob.ParamPrefix(), encoding, Idr) {
      HoldsOnlyParts(front, blob.pps, encoding, Idr);
      HoldsOnlyParts(blob.vps, blob.sps, encoding, Idr);
      if blob.vps != [] {
        ParamUnitHolds(blob.vps, encoding, Vps);
      }
    }
  }

  /** A unit ends with a byte other than 00, as section 7.4.1 of ITU-T H.264 demands. */
  predicate EndsProperly(u: seq<byte>) {
    u == [] || u[|u| - 1] != 0
  }

  lemma JoinUnits(x: seq<byte>, y: seq<byte>)
    requires StartCodeLen(y, 0) != 0 && EndsProperly(x)
    ensures Units(x + y) == Units(x) + Units(y)
  {
    assert StartCodeLen(x + y, |x|) == StartCodeLen(y, 0);
    UnitsOfCut(x, y);
  }

  lemma ThreeUnits(vps: seq<byte>, sps: seq<byte>, pps: seq<byte>)
    requires vps == [] || Units(vps) == [vps]
    requires Units(sps) == [sps] && StartCodeLen(sps, 0) != 0 && Units(pps) == [pps] && StartCodeLen(pps, 0) != 0
    requires EndsProperly(vps) && EndsProperly(sps) && sps != []
    ensures Units(vps + sps + pps) == (if vps == [] then [] else [vps]) + [sps] + [pps]
  {
    if vps == [] {
      assert [] + sps == sps && [] + [sps] == [sps];
    } else {
      JoinUnits(vps, sps);
    }
    assert EndsProperly(vps + sps);
    JoinUnits(vps + sps, pps);
  }

  /** The prefix is the cached units in decode order, the VPS only if there is one. */
  lemma PrefixUnits(blob: ParamBlob, encoding: Encoding)
    requires WellFormed(Some(blob), encoding) && blob.HasParamSets() && EndsProperly(blob.vps) && EndsProperly(blob.sps)
    ensures Units(blob.ParamPrefix()) == (if blob.vps == [] then [] else [blob.vps]) + [blob.sps] + [blob.pps]
  {
    ParamUnitHolds(blob.sps, encoding, Sps);
    ParamUnitHolds(blob.pps, encoding, Pps);
    ThreeUnits(blob.vps, blob.sps, blob.pps);
  }

  /**
   * An IDR frame leaves injection with its IDR and its bytes as suffix, and with SPS and PPS whenever both are known.
   */
  lemma InjectedDecodable(cache: ParamCache, data: seq<byte>, encoding: Encoding)
    requires WellFormed(cache, encoding) && Holds(data, encoding, Idr)
    ensures var out := Injected(cache, data, encoding);
            && Holds(out, encoding, Idr)
            && |out| >= |data| && out[|out| - |data|..] == data
            && (Complete(cache) ==> Holds(out, encoding, Sps) && Holds(out, encoding, Pps))
  {
    if Complete(cache) {
      var prefix := cache.value.ParamPrefix();
      PrefixHolds(cache.value, encoding);
      HoldsConcat(prefix, data, encoding, Idr);
      HoldsConcat(prefix, data, encoding, Sps);
      HoldsConcat(prefix, data, encoding, Pps);
    } else if cache.Some? {
      assert cache.value.ParamPrefix() + data == data;
    }
  }

  lemma {:induction false} LastOfAgain(units: seq<seq<byte>>, encoding: Encoding, k: NalKind, older: seq<byte>)
    ensures LastOf(units, encoding, k, LastOf(units, encoding, k, older)) == LastOf(units, encoding, k, older)
  {
    LastOfIs(units, encoding, k, LastOf(units, encoding, k, older));
    if SomeUnit(units, encoding, k) {
      OlderIsIgnored(units, encoding, k, older, LastOf(units, encoding, k, older));
    }
  }

  lemma {:induction false} OlderIsIgnored(units: seq<seq<byte>>, encoding: Encoding, k: NalKind, x: seq<byte>,
                                          y: seq<byte>)
    requires SomeUnit(units, encoding, k)
    ensures LastOf(units, encoding, k, x) == LastOf(units, encoding, k, y)
  {
    var n := |units| - 1;
    if UnitKind(units[n], encoding) != k {
      assert units == units[..n] + [units[n]];
      SomeUnitSnoc(units[..n], units[n], encoding);
      OlderIsIgnored(units[..n], encoding, k, x, y);
    }
  }

  // A frame that leaves the cache incomplete is not changed, and the cache has nothing more to learn from it.
  lemma IncompleteIsIdle(seed: ParamCache, data: seq<byte>, encoding: Encoding)
    requires !Complete(Updated(seed, Units(data), encoding))
    ensures var once := Updated(seed, Units(data), encoding);
            Injected(once, data, encoding) == data && Updated(once, Units(data), encoding) == once
  {
    var units := Units(data);
    LastOfAgain(units, encoding, Vps, Slot(seed, Vps));
    LastOfAgain(units, encoding, Sps, Slot(seed, Sps));
    LastOfAgain(units, encoding, Pps, Slot(seed, Pps));
    assert [] + data == data;
  }

  /** Injecting a frame that was already injected changes nothing about it. */
  lemma ReinjectionIsIdle(seed: ParamCache, data: seq<byte>, encoding: Encoding)
    requires WellFormed(seed, encoding)
    ensures var once := Updated(seed, Units(data), encoding);
            var out := Injected(once, data, encoding);
            Injected(Updated(once, Units(out), encoding), out, encoding) == out
  {
    var once := Updated(seed, Units(data), encoding);
    if !Complete(once) {
      IncompleteIsIdle(seed, data, encoding);
    } else if Holds(data, encoding, Idr) {
      UpdatedWellFormed(seed, data, encoding);
      InjectedDecodable(once, data, encoding);
    }
  }

  // A unit that is nothing but a header byte.
  function BareUnit(header: byte): seq<byte> {
    [0, 0, 0, 1, header]
  }

  function SpsHeader(encoding: Encoding): byte {
    if encoding == H264 then 0x67 else 0x42
  }

  function PpsHeader(encoding: Encoding): byte {
    if encoding == H264 then 0x68 else 0x44
  }

  lemma BareUnitIsOne(header: byte)
    ensures Units(BareUnit(header)) == [BareUnit(header)]
  {
    var u := BareUnit(header);
    assert StartCodeLen(u, 0) == 4;
    assert NextStart(u, 0) == 0 && NextStart(u, 1) == |u|;
    assert u[0..|u|] == u && UnitsFrom(u, |u|) == [];
  }

  /** A well-formed, complete cache. */
  function SomeCache(encoding: Encoding): (cache: ParamCache)
    ensures Complete(cache) && WellFormed(cache, encoding)
  {
    BareUnitIsOne(SpsHeader(encoding));
    BareUnitIsOne(PpsHeader(encoding));
    Some(ParamBlob([], BareUnit(SpsHeader(encoding)), BareUnit(PpsHeader(encoding))))
  }

  /** Injection leaves a frame alone exactly when it has no IDR, has both sets, or the cache lacks one. */
  lemma InjectionIsIdleIff(cache: ParamCache, data: seq<byte>, encoding: Encoding)
    ensures Injected(cache, data, encoding) == data <==>
            || !Holds(data, encoding, Idr)
            || (Holds(data, encoding, Sps) && Holds(data, encoding, Pps))
            || !Complete(cache)
  {
    if cache.Some? && !Complete(cache) {
      assert cache.value.ParamPrefix() + data == data;
    } else if Complete(cache) {
      assert |cache.value.ParamPrefix() + data| > |data|;
    }
  }

  /** No cache adds anything to the frame any more. */
  ghost predicate Settled(data: seq<byte>, encoding: Encoding) {
    forall cache: ParamCache :: WellFormed(cache, encoding) ==> Injected(cache, data, encoding) == data
  }

  lemma SettledIff(data: seq<byte>, encoding: Encoding)
    ensures Settled(data, encoding) <==>
            (Holds(data, encoding, Idr) ==> Holds(data, encoding, Sps) && Holds(data, encoding, Pps))
    ensures Settled(data, encoding) ==> forall cache: ParamCache :: Injected(cache, data, encoding) == data
  {
    if Settled(data, encoding) {
      assert Injected(SomeCache(encoding), data, encoding) == data;
    }
  }

  /**
   * Every later injection leaves an injected frame alone, whatever the cache has become, if and only if the frame came
   * without IDR, came with both sets, or met a complete cache.
   */
  lemma InjectedOnceIff(cache: ParamCache, data: seq<byte>, encoding: Encoding)
    requires WellFormed(cache, encoding)
    ensures var out := Injected(cache, data, encoding);
            var done := !Holds(data, encoding, Idr) || (Holds(data, encoding, Sps) && Holds(data, encoding, Pps))
                || Complete(cache);
            && (Settled(out, encoding) <==> done)
            && (done ==> forall later: ParamCache :: Injected(later, out, encoding) == out)
  {
    var out := Injected(cache, data, encoding);
    SettledIff(out, encoding);
    if Holds(data, encoding, Idr) {
      InjectedDecodable(cache, data, encoding);
      if !Complete(cache) && cache.Some? {
        assert cache.value.ParamPrefix() + data == data;
      }
    }
  }

  // ------------------------------------------------------------------
  // Seeds from the configuration
  // ------------------------------------------------------------------

  const HEX_DIGITS: string := "0123456789abcdef"

  function HexDigit(c: char): (d: int)
    ensures -1 <= d < 16
  {
    if '0' <= c <= '9' then c as int - '0' as int
    else if 'a' <= c <= 'f' then c as int - 'a' as int + 10
    else if 'A' <= c <= 'F' then c as int - 'A' as int + 10
    else -1
  }

  /** hex.DecodeString: pairs of digits, nothing else. */
  function DecodeHex(s: string): Option<seq<byte>> {
    if s == [] then Some([])
    else if |s| == 1 || HexDigit(s[0]) < 0 || HexDigit(s[1]) < 0 then None
    else
      match DecodeHex(s[2..])
      case None => None
      case Some(rest) => Some([16 * HexDigit(s[0]) + HexDigit(s[1])] + rest)
  }

  function RemoveSpaces(s: string): string {
    if s == [] then []
    else if s[0] == ' ' then RemoveSpaces(s[1..])
    else [s[0]] + RemoveSpaces(s[1..])
  }

  /** The unit itself when it has a start code, otherwise the unit behind a 4-byte one. */
  function WithStartCode(b: seq<byte>): (unit: seq<byte>)
    ensures StartCodeLen(unit, 0) != 0
    ensures |b| <= |unit| && unit[|unit| - |b|..] == b
  {
    if StartCodeLen(b, 0) != 0 then b else [0, 0, 0, 1] + b
  }

  /** A hex NAL unit, with or without start code, as an Annex B unit. */
  function DecodeHexNAL(s: string): (unit: Option<seq<byte>>) {
    var digits := TrimSpace(RemoveSpaces(s));
    if digits == "" then None
    else
      match DecodeHex(digits)
      case None => None
      case Some(b) => Some(WithStartCode(b))
  }

  /** The cache a session starts with: the configured units that decode, or nothing. */
  function SeedParamSets(sps: string, pps: string, vps: string): ParamCache {
    var s, p, v := DecodeHexNAL(sps), DecodeHexNAL(pps), DecodeHexNAL(vps);
    if s.None? && p.None? && v.None? then None
    else
      Some(ParamBlob(if v.Some? then v.value else [], if s.Some? then s.value else [],
                     if p.Some? then p.value else []))
  }

  function HexChar(d: nat): (c: char)
    requires d < 16
    ensures HexDigit(c) == d && c !in SPACES
  {
    HEX_DIGITS[d]
  }

  /** The hex text of a byte string. */
  function EncodeHex(b: seq<byte>): string {
    if b == [] then [] else [HexChar(b[0] / 16), HexChar(b[0] % 16)] + EncodeHex(b[1..])
  }

  lemma DecodePair(hi: char, lo: char, rest: string)
    requires HexDigit(hi) >= 0 && HexDigit(lo) >= 0
    ensures DecodeHex(rest).Some? ==>
        DecodeHex([hi, lo] + rest) == Some([16 * HexDigit(hi) + HexDigit(lo)] + DecodeHex(rest).value)
  {
    assert ([hi, lo] + rest)[2..] == rest;
  }

  lemma PairStays(hi: char, lo: char, rest: string)
    requires hi != ' ' && lo != ' '
    ensures RemoveSpaces([hi, lo] + rest) == [hi, lo] + RemoveSpaces(rest)
  {
    var s := [hi, lo] + rest;
    assert s[1..] == [lo] + rest && s[1..][1..] == rest;
    assert RemoveSpaces(s[1..]) == [lo] + RemoveSpaces(rest);
  }

  lemma {:induction false} HexDecodes(b: seq<byte>)
    ensures DecodeHex(EncodeHex(b)) == Some(b)
  {
    if b != [] {
      var hi, lo := b[0] / 16, b[0] % 16;
      HexDecodes(b[1..]);
      DecodePair(HexChar(hi), HexChar(lo), EncodeHex(b[1..]));
      assert 16 * hi + lo == b[0] && [b[0]] + b[1..] == b;
    }
  }

  lemma {:induction false} HexHasNoSpaces(b: seq<byte>)
    ensures RemoveSpaces(EncodeHex(b)) == EncodeHex(b)
    ensures forall i :: 0 <= i < |EncodeHex(b)| ==> EncodeHex(b)[i] !in SPACES
  {
    if b != [] {
      HexHasNoSpaces(b[1..]);
      PairStays(HexChar(b[0] / 16), HexChar(b[0] % 16), EncodeHex(b[1..]));
    }
  }

  lemma HexRoundTrip(b: seq<byte>)
    ensures DecodeHex(EncodeHex(b)) == Some(b)
    ensures RemoveSpaces(EncodeHex(b)) == EncodeHex(b)
    ensures forall i :: 0 <= i < |EncodeHex(b)| ==> EncodeHex(b)[i] !in SPACES
  {
    HexDecodes(b);
    HexHasNoSpaces(b);
  }

  /** A configured unit written in hex comes back as itself, with a start code in front when it had none. */
  lemma SeedRoundTrip(b: seq<byte>)
    requires b != []
    ensures DecodeHexNAL(EncodeHex(b)) == Some(if StartCodeLen(b, 0) != 0 then b else [0, 0, 0, 1] + b)
  {
    HexRoundTrip(b);
    var s := EncodeHex(b);
    assert s[0] !in SPACES && s[|s| - 1] !in SPACES;
    TrimKeeps(s, SPACES);
  }

  lemma {:induction false} RemoveSpacesConcat(a: string, b: string)
    ensures RemoveSpaces(a + b) == RemoveSpaces(a) + RemoveSpaces(b)
  {
    if a == [] {
      assert a + b == b;
    } else {
      assert (a + b)[1..] == a[1..] + b;
      RemoveSpacesConcat(a[1..], b);
    }
  }

  lemma {:induction false} SpacesStay(s: string)
    requires forall i :: 0 <= i < |s| ==> s[i] in SPACES
    ensures forall i :: 0 <= i < |RemoveSpaces(s)| ==> RemoveSpaces(s)[i] in SPACES
  {
    if s != [] {
      SpacesStay(s[1..]);
    }
  }

  /** The hex text with a space behind each byte. */
  function Spread(b: seq<byte>): string {
    if b == [] then [] else [HexChar(b[0] / 16), HexChar(b[0] % 16), ' '] + Spread(b[1..])
  }

  lemma SpaceDropped(hi: char, lo: char, rest: string)
    requires hi != ' ' && lo != ' '
    ensures RemoveSpaces([hi, lo, ' '] + rest) == [hi, lo] + RemoveSpaces(rest)
  {
    assert [hi, lo, ' '] + rest == [hi, lo] + ([' '] + rest) && ([' '] + rest)[1..] == rest;
    PairStays(hi, lo, [' '] + rest);
  }

  lemma {:induction false} SpreadIsHex(b: seq<byte>)
    ensures RemoveSpaces(Spread(b)) == EncodeHex(b)
  {
    if b != [] {
      SpreadIsHex(b[1..]);
      SpaceDropped(HexChar(b[0] / 16), HexChar(b[0] % 16), Spread(b[1..]));
    }
  }

  /** Spaces between the bytes, and white space around the text, make no difference. */
  lemma SpacesAreIgnored(b: seq<byte>, lead: string, trail: string)
    requires b != []
    requires (forall i :: 0 <= i < |lead| ==> lead[i] in SPACES) && forall i :: 0 <= i < |trail| ==> trail[i] in SPACES
    ensures DecodeHexNAL(lead + Spread(b) + trail) == DecodeHexNAL(EncodeHex(b))
  {
    HexRoundTrip(b);
    SpreadIsHex(b);
    SpacesStay(lead);
    SpacesStay(trail);
    RemoveSpacesConcat(lead + Spread(b), trail);
    RemoveSpacesConcat(lead, Spread(b));
    var s := EncodeHex(b);
    assert s[0] !in SPACES && s[|s| - 1] !in SPACES;
    TrimAround(RemoveSpaces(lead), s, RemoveSpaces(trail), SPACES);
    TrimKeeps(s, SPACES);
  }

  const HEX_CHARS: string := "0123456789abcdefABCDEF"

  lemma HexDigitIff(c: char)
    ensures HexDigit(c) >= 0 <==> c in HEX_CHARS
  {
    if '0' <= c <= '9' {
      assert HEX_CHARS[c as int - '0' as int] == c;
    } else if 'a' <= c <= 'f' {
      assert HEX_CHARS[10 + (c as int - 'a' as int)] == c;
    } else if 'A' <= c <= 'F' {
      assert HEX_CHARS[16 + (c as int - 'A' as int)] == c;
    }
  }

  /** Text is hex exactly if it has an even number of digits, of either case, and nothing else. */
  lemma {:induction false} HexIff(s: string)
    ensures DecodeHex(s).Some? <==> |s| % 2 == 0 && forall c :: c in s ==> c in HEX_CHARS
  {
    if |s| >= 2 {
      HexDigitIff(s[0]);
      HexDigitIff(s[1]);
      HexIff(s[2..]);
      assert s == [s[0], s[1]] + s[2..];
    } else if |s| == 1 {
      assert |s| % 2 == 1;
    }
  }

  function Lower(c: char): char {
    if 'A' <= c <= 'Z' then (c as int + 32) as char else c
  }

  function AllLower(s: string): (r: string)
    ensures |r| == |s|
  {
    if s == [] then [] else [Lower(s[0])] + AllLower(s[1..])
  }

  /** A digit's case makes no difference. */
  lemma {:induction false} CaseIsIgnored(s: string)
    ensures DecodeHex(AllLower(s)) == DecodeHex(s)
  {
    if |s| >= 2 {
      CaseIsIgnored(s[2..]);
      assert AllLower(s) == [Lower(s[0])] + AllLower(s[1..]) && AllLower(s[1..]) == [Lower(s[1])] + AllLower(s[2..]);
      assert AllLower(s)[2..] == AllLower(s[2..]);
    }
  }

  /** The start code stands only at the front, and a header of kind `k` follows it. */
  predicate SingleUnit(u: seq<byte>, encoding: Encoding, k: NalKind) {
    && StartCodeLen(u, 0) != 0
    && (forall p :: 0 < p < |u| ==> !IsUnitStart(u, p))
    && UnitKind(u, encoding) == k
  }

  lemma SingleUnitIff(u: seq<byte>, encoding: Encoding, k: NalKind)
    requires u != []
    ensures IsParamUnit(u, encoding, k) <==> SingleUnit(u, encoding, k)
  {
    if Units(u) == [u] {
      UnitsAreWhole(u);
      assert u in Units(u);
      assert UnitsFrom(u, 0)[0] == u[0..NextStart(u, 1)];
    }
    if SingleUnit(u, encoding, k) {
      assert NextStart(u, 0) == 0 && NextStart(u, 1) == |u|;
      assert u[0..|u|] == u && UnitsFrom(u, |u|) == [];
    }
  }

  /** The unit that the text stands for, empty when it is ignored. */
  function Decoded(text: string): seq<byte> {
    var u := DecodeHexNAL(text);
    if u.Some? then u.value else []
  }

  /** The text is ignored, or is the hex form of one unit of kind `k`. */
  predicate TextFits(text: string, encoding: Encoding, k: NalKind) {
    Decoded(text) != [] ==> SingleUnit(Decoded(text), encoding, k)
  }

  lemma SeedSlots(sps: string, pps: string, vps: string)
    ensures var seed := SeedParamSets(sps, pps, vps);
            Slot(seed, Sps) == Decoded(sps) && Slot(seed, Pps) == Decoded(pps) && Slot(seed, Vps) == Decoded(vps)
  {
  }

  lemma SlotFits(u: seq<byte>, encoding: Encoding, k: NalKind)
    ensures (u != [] ==> SingleUnit(u, encoding, k)) <==> IsParamUnit(u, encoding, k)
  {
    if u != [] {
      SingleUnitIff(u, encoding, k);
    }
  }

  /** The decoder checks no more than that the text is hex; the seed is well-formed exactly when every text fits. */
  lemma SeedWellFormedIff(sps: string, pps: string, vps: string, encoding: Encoding)
    ensures WellFormed(SeedParamSets(sps, pps, vps), encoding) <==>
            TextFits(sps, encoding, Sps) && TextFits(pps, encoding, Pps) && TextFits(vps, encoding, Vps)
  {
    SeedSlots(sps, pps, vps);
    SlotFits(Decoded(sps), encoding, Sps);
    SlotFits(Decoded(pps), encoding, Pps);
    SlotFits(Decoded(vps), encoding, Vps);
  }

  /** Every unit in the cache begins with a start code. */
  predicate StartCoded(cache: ParamCache) {
    forall k :: Slot(cache, k) == [] || StartCodeLen(Slot(cache, k), 0) != 0
  }

  /** Some unit in the cache holds an IDR. */
  predicate HidesIDR(cache: ParamCache, encoding: Encoding) {
    exists k :: Holds(Slot(cache, k), encoding, Idr)
  }

  lemma SeedStartCoded(sps: string, pps: string, vps: string)
    ensures StartCoded(SeedParamSets(sps, pps, vps))
  {
  }

  lemma WellFormedHidesNone(cache: ParamCache, encoding: Encoding)
    requires WellFormed(cache, encoding)
    ensures !HidesIDR(cache, encoding)
  {
    forall k | Slot(cache, k) != []
      ensures !Holds(Slot(cache, k), encoding, Idr)
    {
      ParamUnitHolds(Slot(cache, k), encoding, k);
    }
    assert NextStart([], 0) == 0;
  }

  lemma ThreeHold(x: seq<byte>, y: seq<byte>, z: seq<byte>, encoding: Encoding)
    requires StartCodeLen(y, 0) != 0 && StartCodeLen(z, 0) != 0
    ensures Holds(x + y + z, encoding, Idr) <==>
            Holds(x, encoding, Idr) || Holds(y, encoding, Idr) || Holds(z, encoding, Idr)
  {
    if Holds(x + y + z, encoding, Idr) {
      HoldsOnlyParts(x + y, z, encoding, Idr);
      if !Holds(z, encoding, Idr) {
        HoldsOnlyParts(x, y, encoding, Idr);
      }
    } else {
      if Holds(x, encoding, Idr) || Holds(y, encoding, Idr) {
        HoldsConcat(x, y, encoding, Idr);
      }
      if Holds(x + y, encoding, Idr) || Holds(z, encoding, Idr) {
        HoldsConcat(x + y, z, encoding, Idr);
      }
    }
  }

  lemma HidesIDRIff(cache: ParamCache, encoding: Encoding)
    requires cache.Some?
    ensures HidesIDR(cache, encoding) <==>
            Holds(cache.value.vps, encoding, Idr) || Holds(cache.value.sps, encoding, Idr)
            || Holds(cache.value.pps, encoding, Idr)
  {
    assert Slot(cache, Vps) == cache.value.vps && Slot(cache, Sps) == cache.value.sps;
    assert Slot(cache, Pps) == cache.value.pps;
    assert NextStart([], 0) == 0;
  }

  /** The prefix of a complete cache holds an IDR exactly when one of its units does. */
  lemma PrefixHoldsIDRIff(cache: ParamCache, encoding: Encoding)
    requires StartCoded(cache) && Complete(cache)
    ensures Holds(cache.value.ParamPrefix(), encoding, Idr) <==> HidesIDR(cache, encoding)
  {
    HidesIDRIff(cache, encoding);
    assert Slot(cache, Sps) == cache.value.sps && Slot(cache, Pps) == cache.value.pps;
    ThreeHold(cache.value.vps, cache.value.sps, cache.value.pps, encoding);
  }

  lemma {:induction false} AllUnitsAreWhole(datas: seq<seq<byte>>)
    ensures forall u :: u in AllUnits(datas) ==> StartCodeLen(u, 0) != 0 && Units(u) == [u]
  {
    if datas != [] {
      AllUnitsAreWhole(datas[..|datas| - 1]);
      UnitsAreWhole(datas[|datas| - 1]);
    }
  }

  /** Each slot of the cache is still the seed's, or one whole unit of its kind that came by. */
  lemma SlotAfter(seed: ParamCache, datas: seq<seq<byte>>, encoding: Encoding, k: NalKind)
    requires k == Vps || k == Sps || k == Pps
    ensures var u := Slot(CacheAfter(seed, datas, encoding), k);
            if SomeUnit(AllUnits(datas), encoding, k)
            then StartCodeLen(u, 0) != 0 && Units(u) == [u] && UnitKind(u, encoding) == k
            else u == Slot(seed, k)
  {
    CacheAgreesWithHistory(seed, datas, encoding);
    AllUnitsAreWhole(datas);
    LastOfIs(AllUnits(datas), encoding, k, Slot(seed, k));
  }

  /** Frames never bring an IDR into the cache, nor a unit without start code. */
  lemma HidesNoNewIDR(seed: ParamCache, datas: seq<seq<byte>>, encoding: Encoding)
    requires StartCoded(seed)
    ensures StartCoded(CacheAfter(seed, datas, encoding))
    ensures HidesIDR(CacheAfter(seed, datas, encoding), encoding) ==> HidesIDR(seed, encoding)
  {
    var cache := CacheAfter(seed, datas, encoding);
    forall k
      ensures Slot(cache, k) == [] || StartCodeLen(Slot(cache, k), 0) != 0
      ensures Holds(Slot(cache, k), encoding, Idr) ==> Holds(Slot(seed, k), encoding, Idr)
    {
      if k == Vps || k == Sps || k == Pps {
        SlotAfter(seed, datas, encoding, k);
      }
    }
  }
}
