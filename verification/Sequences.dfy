/** Sequence and search helpers shared by the byte-stream and text modules. */
module Sequences {

  type byte = b: int | 0 <= b < 256

  datatype Option<+T> = None | Some(value: T)

  /** The concatenation of all pieces, in order. */
  function Flatten<T>(pieces: seq<seq<T>>): seq<T> {
    if pieces == [] then [] else pieces[0] + Flatten(pieces[1..])
  }

  lemma {:induction false} FlattenConcat<T>(a: seq<seq<T>>, b: seq<seq<T>>)
    ensures Flatten(a + b) == Flatten(a) + Flatten(b)
  {
    if a == [] {
      assert a + b == b;
    } else {
      assert (a + b)[1..] == a[1..] + b;
      FlattenConcat(a[1..], b);
    }
  }

  lemma FlattenCons<T>(x: seq<T>, rest: seq<seq<T>>)
    ensures Flatten([x] + rest) == x + Flatten(rest)
  {
    assert ([x] + rest)[1..] == rest;
  }

  lemma FlattenSnoc<T>(a: seq<seq<T>>, x: seq<T>)
    ensures Flatten(a + [x]) == Flatten(a) + x
  {
    FlattenConcat(a, [x]);
    assert Flatten([x]) == x + Flatten([x][1..]);
  }

  /** True when `pat` occurs in `s` at index `i`. */
  predicate OccursAt<T(==)>(pat: seq<T>, s: seq<T>, i: int) {
    0 <= i && i + |pat| <= |s| && s[i..i + |pat|] == pat
  }

  /** The first occurrence of `pat` in `s` at or after `from`, or -1. */
  function IndexFrom<T(==)>(s: seq<T>, pat: seq<T>, from: nat): (r: int)
    requires from <= |s|
    ensures r == -1 || (from <= r && OccursAt(pat, s, r))
    ensures forall k :: from <= k && (r == -1 || k < r) ==> !OccursAt(pat, s, k)
    decreases |s| - from
  {
    if OccursAt(pat, s, from) then from
    else if from == |s| then -1
    else IndexFrom(s, pat, from + 1)
  }

  /** bytes.Index and strings.Index: the first occurrence, or -1. */
  function Index<T(==)>(s: seq<T>, pat: seq<T>): (r: int)
    ensures r == -1 || OccursAt(pat, s, r)
    ensures forall k :: 0 <= k && (r == -1 || k < r) ==> !OccursAt(pat, s, k)
  {
    IndexFrom(s, pat, 0)
  }

  /** An occurrence with none before it is the one Index finds. */
  lemma IndexIs<T>(s: seq<T>, pat: seq<T>, i: nat)
    requires OccursAt(pat, s, i)
    requires forall k :: 0 <= k < i ==> !OccursAt(pat, s, k)
    ensures Index(s, pat) == i
  {
  }

  /** Extending the text leaves the occurrences inside the old text as they were. */
  lemma OccursExtend<T>(pat: seq<T>, s: seq<T>, more: seq<T>, i: int)
    requires i + |pat| <= |s|
    ensures OccursAt(pat, s + more, i) <==> OccursAt(pat, s, i)
  {
    if 0 <= i {
      assert (s + more)[i..i + |pat|] == s[i..i + |pat|];
    }
  }

  /** The occurrences inside a part are the occurrences of the whole that fit there. */
  lemma OccursInPart<T>(pat: seq<T>, s: seq<T>, lo: nat, hi: nat, i: int)
    requires lo <= hi <= |s| && 0 <= i
    ensures OccursAt(pat, s[lo..hi], i) <==> lo + i + |pat| <= hi && OccursAt(pat, s, lo + i)
  {
    if lo + i + |pat| <= hi {
      var part := s[lo..hi];
      assert forall j :: 0 <= j < |part| ==> part[j] == s[lo + j];
      assert part[i..i + |pat|] == s[lo + i..lo + i + |pat|];
    }
  }

  /** `f` applied along the sequence, first element first. */
  function Fold<A, B>(f: (A, B) -> A, start: A, s: seq<B>): A {
    if s == [] then start else f(Fold(f, start, s[..|s| - 1]), s[|s| - 1])
  }

  lemma {:induction false} FoldConcat<A, B>(f: (A, B) -> A, start: A, a: seq<B>, b: seq<B>)
    ensures Fold(f, start, a + b) == Fold(f, Fold(f, start, a), b)
  {
    if b == [] {
      assert a + b == a;
    } else {
      var n := |b| - 1;
      assert (a + b)[..|a| + n] == a + b[..n];
      FoldConcat(f, start, a, b[..n]);
    }
  }

  lemma FoldSnoc<A, B>(f: (A, B) -> A, start: A, s: seq<B>, x: B)
    ensures Fold(f, start, s + [x]) == f(Fold(f, start, s), x)
  {
    assert (s + [x])[..|s|] == s;
  }

  lemma FoldThree<A, B>(f: (A, B) -> A, start: A, x: B, y: B, z: B)
    ensures Fold(f, start, [x, y, z]) == f(f(f(start, x), y), z)
  {
    FoldSnoc(f, start, [], x);
    FoldSnoc(f, start, [x], y);
    FoldSnoc(f, start, [x, y], z);
    assert [] + [x] == [x] && [x] + [y] == [x, y] && [x, y] + [z] == [x, y, z];
  }

  /** The numbers from `j` up to, but not including, `k`. */
  function Range(j: nat, k: nat): seq<nat>
    requires j <= k
  {
    seq(k - j, i requires 0 <= i < k - j => j + i)
  }

  lemma RangeSnoc(j: nat, k: nat)
    requires j <= k
    ensures Range(j, k) + [k] == Range(j, k + 1)
  {
  }
}
