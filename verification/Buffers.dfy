/** Buffers that keep the end of what was written: the log ring of a robot process and the stderr tail of ffmpeg. */
module Buffers {
  import opened Sequences

  /** The last `n` elements, or all of them. */
  function Last<T>(s: seq<T>, n: nat): (r: seq<T>)
    ensures |r| == if |s| < n then |s| else n
    ensures forall i :: 0 <= i < |r| ==> r[i] == s[|s| - |r| + i]
  {
    if |s| < n then s else s[|s| - n..]
  }

  /** Forgetting early changes nothing: keeping the end of an end and of what follows keeps the end of everything. */
  lemma LastOfLast<T>(s: seq<T>, p: seq<T>, n: nat)
    ensures Last(Last(s, n) + p, n) == Last(s + p, n)
  {
  }

  // ------------------------------------------------------------------
  // The log ring
  // ------------------------------------------------------------------

  /** What Lines returns of the held lines: a positive tail smaller than their number keeps the oldest ones. */
  function Shown(held: seq<string>, tail: int): seq<string> {
    if 0 < tail < |held| then held[..tail] else held
  }

  /** What its comment promises: the last `tail` lines, or all. */
  function Promised(held: seq<string>, tail: int): seq<string> {
    if tail > 0 then Last(held, tail) else held
  }

  /** The index of the `i`-th oldest entry of a full ring. */
  function SlotOf(pos: nat, i: nat, cap: nat): nat {
    if pos + i < cap then pos + i else pos + i - cap
  }

  lemma ModuloWraps(pos: nat, i: nat, cap: nat)
    requires pos < cap && i < cap
    ensures (pos + i) % cap == SlotOf(pos, i, cap)
  {
    if pos + i >= cap {
      assert (pos + i) == cap + (pos + i - cap);
      ModuloOnce(pos + i - cap, cap);
    }
  }

  lemma ModuloOnce(x: nat, cap: nat)
    requires x < cap
    ensures (cap + x) % cap == x
  {
  }

  /** A ring whose next write goes to `pos` holds the end of `history`. */
  ghost predicate RingHolds(ring: seq<string>, pos: nat, full: bool, history: seq<string>) {
    && (pos < |ring| || (|ring| == 0 && pos == 0))
    && (!full ==> |history| == pos && forall i :: 0 <= i < pos ==> ring[i] == history[i])
    && (full ==> 0 < |ring| <= |history|
                 && forall i :: 0 <= i < |ring| ==> ring[SlotOf(pos, i, |ring|)] == history[|history| - |ring| + i])
  }

  lemma RingWrite(ring: seq<string>, pos: nat, full: bool, history: seq<string>, line: string)
    requires RingHolds(ring, pos, full, history) && |ring| > 0
    ensures RingHolds(ring[pos := line], if pos + 1 >= |ring| then 0 else pos + 1,
                      full || pos + 1 >= |ring|, history + [line])
  {
    var next := if pos + 1 >= |ring| then 0 else pos + 1;
    var after, all, n := ring[pos := line], history + [line], |ring|;
    if full || pos + 1 >= n {
      forall i | 0 <= i < n
        ensures after[SlotOf(next, i, n)] == all[|all| - n + i]
      {
        if i < n - 1 {
          assert SlotOf(next, i, n) == SlotOf(pos, i + 1, n);
        }
      }
    }
  }

  class LogBuffer {
    const buf: array<string>
    var pos: nat
    var full: bool
    /** Every line ever written. */
    ghost var history: seq<string>

    ghost predicate Valid()
      reads this, buf
    {
      RingHolds(buf[..], pos, full, history)
    }

    constructor (capacity: nat)
      ensures Valid() && fresh(buf) && buf.Length == capacity && history == []
    {
      buf := new string[capacity](_ => "");
      pos := 0;
      full := false;
      history := [];
    }

    /** The lines kept: the last ones written, up to the capacity. */
    ghost function Held(): seq<string>
      reads this, buf
    {
      Last(history, buf.Length)
    }

    /** A ring without room cannot be written to. */
    method Write(line: string)
      requires Valid() && buf.Length > 0
      modifies this, buf
      ensures Valid() && history == old(history) + [line]
    {
      RingWrite(buf[..], pos, full, history, line);
      ghost var ring := buf[..][pos := line];
      buf[pos] := line;
      assert buf[..] == ring;
      pos := pos + 1;
      history := history + [line];
      if pos >= buf.Length {
        pos := 0;
        full := true;
      }
    }

    method Lines(tail: int) returns (out: seq<string>)
      requires Valid()
      ensures out == Shown(Held(), tail)
    {
      if !full {
        var n := pos;
        if tail > 0 && tail < n {
          n := tail;
        }
        out := buf[..n];
        return;
      }
      var n := buf.Length;
      if tail > 0 && tail < n {
        n := tail;
      }
      out := [];
      for i := 0 to n
        invariant |out| == i && forall k :: 0 <= k < i ==> out[k] == Held()[k]
      {
        ModuloWraps(pos, i, buf.Length);
        out := out + [buf[(pos + i) % buf.Length]];
      }
    }
  }

  /** The comment holds of every content of a given size exactly when the tail asks for everything. */
  lemma TailIsNewestIff(count: nat, tail: int)
    ensures (forall held: seq<string> :: |held| == count ==> Shown(held, tail) == Promised(held, tail)) <==>
        tail <= 0 || tail >= count
  {
    if 0 < tail < count {
      var held := seq(count, i => if i == 0 then "old" else "new");
      assert Shown(held, tail)[0] == "old" && Promised(held, tail)[0] == "new";
    }
  }

  // ------------------------------------------------------------------
  // The stderr tail
  // ------------------------------------------------------------------

  class TailWriter {
    var buf: seq<byte>
    const cap: nat
    /** Every byte ever written. */
    ghost var history: seq<byte>

    ghost predicate Valid()
      reads this
    {
      buf == Last(history, cap)
    }

    constructor (cap: nat)
      ensures Valid() && this.cap == cap && history == []
    {
      this.cap := cap;
      buf := [];
      history := [];
    }

    method Write(p: seq<byte>) returns (n: nat)
      requires Valid()
      modifies this
      ensures Valid() && history == old(history) + p && n == |p|
    {
      LastOfLast(history, p, cap);
      buf := buf + p;
      if |buf| > cap {
        buf := buf[|buf| - cap..];
      }
      history := history + p;
      return |p|;
    }

    method String() returns (s: seq<byte>)
      requires Valid()
      ensures s == Last(history, cap)
    {
      return buf;
    }
  }
}
