/** Go's strings helpers, on characters. */
module Text {
  import opened Sequences

  /** The characters of the Latin-1 range for which unicode.IsSpace is true. */
  const SPACES: set<char> := {' ', '\t', '\n', '\r', '\U{0B}', '\U{0C}', '\U{85}', '\U{A0}'}

  /** unicode.IsSpace on Latin-1, by code point. */
  lemma SpacesAre(c: char)
    ensures c in SPACES <==> 9 <= c as int <= 13 || c as int == 32 || c as int == 0x85 || c as int == 0xA0
  {
  }

  function TrimLeft(s: string, cut: set<char>): string {
    if s == [] || s[0] !in cut then s else TrimLeft(s[1..], cut)
  }

  function TrimRight(s: string, cut: set<char>): string {
    if s == [] || s[|s| - 1] !in cut then s else TrimRight(s[..|s| - 1], cut)
  }

  /** strings.Trim: both ends, inner characters untouched. */
  function Trim(s: string, cut: set<char>): string {
    TrimRight(TrimLeft(s, cut), cut)
  }

  function TrimSpace(s: string): string {
    Trim(s, SPACES)
  }

  /** Nothing is trimmed off a text whose ends are kept characters. */
  lemma TrimKeeps(s: string, cut: set<char>)
    requires s == [] || (s[0] !in cut && s[|s| - 1] !in cut)
    ensures Trim(s, cut) == s
  {
  }

  /** A cut prefix and a cut suffix around a kept core are trimmed off exactly. */
  lemma TrimAround(pre: string, core: string, post: string, cut: set<char>)
    requires forall i :: 0 <= i < |pre| ==> pre[i] in cut
    requires forall i :: 0 <= i < |post| ==> post[i] in cut
    requires core == [] || (core[0] !in cut && core[|core| - 1] !in cut)
    ensures Trim(pre + core + post, cut) == core
  {
    assert pre + core + post == pre + (core + post);
    if core != [] {
      TrimLeftAway(pre, core + post, cut);
    } else {
      assert pre + (core + post) == pre + post + [];
      TrimLeftAway(pre + post, [], cut);
      assert TrimRight([], cut) == [];
    }
    TrimRightAway(core, post, cut);
  }

  lemma {:induction false} TrimLeftAway(pre: string, s: string, cut: set<char>)
    requires forall i :: 0 <= i < |pre| ==> pre[i] in cut
    requires s == [] || s[0] !in cut
    ensures TrimLeft(pre + s, cut) == s
  {
    if pre != [] {
      assert (pre + s)[1..] == pre[1..] + s;
      TrimLeftAway(pre[1..], s, cut);
    } else {
      assert pre + s == s;
    }
  }

  lemma {:induction false} TrimRightAway(core: string, post: string, cut: set<char>)
    requires forall i :: 0 <= i < |post| ==> post[i] in cut
    requires core == [] || core[|core| - 1] !in cut
    ensures TrimRight(core + post, cut) == core
  {
    if post != [] {
      var s := core + post;
      assert s[..|s| - 1] == core + post[..|post| - 1];
      TrimRightAway(core, post[..|post| - 1], cut);
    } else {
      assert core + post == core;
    }
  }
}
