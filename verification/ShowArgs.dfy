/** Reading the text that `ros2 launch --show-args` prints. */
module ShowArgs {
  import opened Sequences
  import opened Text

  datatype LaunchArg = LaunchArg(name: string, description: string, defaultValue: string, required: bool)

  const MARKER: string := "(default: '"
  const CLOSE: string := "')"
  const ARGUMENTS: string := "Arguments"

  // ------------------------------------------------------------------
  // Lines
  // ------------------------------------------------------------------

  /** strings.Split on newlines. */
  function SplitLines(s: string): (lines: seq<string>)
    ensures |lines| > 0
  {
    if s == [] then [[]]
    else
      var rest := SplitLines(s[1..]);
      if s[0] == '\n' then [[]] + rest else [[s[0]] + rest[0]] + rest[1..]
  }

  function JoinLines(lines: seq<string>): string
    requires |lines| > 0
  {
    if |lines| == 1 then lines[0] else lines[0] + ['\n'] + JoinLines(lines[1..])
  }

  predicate OneLine(s: string) {
    '\n' !in s
  }

  lemma {:induction false} SplitFirst(line: string, rest: string)
    requires OneLine(line)
    ensures SplitLines(line) == [line]
    ensures SplitLines(line + ['\n'] + rest) == [line] + SplitLines(rest)
  {
    if line == [] {
      assert (line + ['\n'] + rest)[1..] == rest;
    } else {
      SplitFirst(line[1..], rest);
      var s := line + ['\n'] + rest;
      assert s[1..] == line[1..] + ['\n'] + rest;
      assert line == [line[0]] + line[1..];
    }
  }

  lemma {:induction false} SplitJoin(lines: seq<string>)
    requires |lines| > 0 && forall i :: 0 <= i < |lines| ==> OneLine(lines[i])
    ensures SplitLines(JoinLines(lines)) == lines
  {
    if |lines| == 1 {
      SplitFirst(lines[0], []);
    } else {
      SplitJoin(lines[1..]);
      SplitFirst(lines[0], JoinLines(lines[1..]));
    }
  }

  // ------------------------------------------------------------------
  // The parser
  // ------------------------------------------------------------------

  /** The default between the marker and its closing, and the text before the marker. */
  function ExtractDefault(desc: string): (string, string) {
    var idx := Index(desc, MARKER);
    if idx < 0 then ("", desc)
    else
      var end := Index(desc[idx + |MARKER|..], CLOSE);
      if end < 0 then ("", desc)
      else (desc[idx + |MARKER|..idx + |MARKER| + end], TrimSpace(desc[..idx]))
  }

  /** The arguments completed so far and what is known of the current one. */
  datatype Progress = Progress(args: seq<LaunchArg>, name: string, desc: string, def: string)

  const START: Progress := Progress([], "", "", "")

  function Completed(p: Progress): LaunchArg {
    var (def, desc) := if p.def == "" then ExtractDefault(p.desc) else (p.def, p.desc);
    LaunchArg(p.name, TrimSpace(desc), def, def == "")
  }

  /** An argument without a name is not recorded, and what was read for it is not forgotten. */
  function Flush(p: Progress): Progress {
    if p.name == "" then p else Progress(p.args + [Completed(p)], "", "", "")
  }

  const QUOTE_OR_SPACE: set<char> := {'\'', ' '}

  function StripColon(s: string): string {
    if s != [] && s[|s| - 1] == ':' then s[..|s| - 1] else s
  }

  /** What one line is: nothing, more description, the heading, or a name and perhaps its default. */
  datatype Line = Blank | More(text: string) | Heading | Named(name: string, def: Option<string>)

  function Name(trimmed: string): Line {
    if Index(trimmed, MARKER) >= 0 then
      var (def, part) := ExtractDefault(trimmed);
      Named(Trim(StripColon(part), QUOTE_OR_SPACE), Some(def))
    else Named(Trim(StripColon(trimmed), QUOTE_OR_SPACE), None)
  }

  function Classify(line: string): Line {
    var trimmed := TrimSpace(line);
    if trimmed == [] then Blank
    else if line[0] == ' ' || line[0] == '\t' then More(trimmed)
    else if ARGUMENTS <= trimmed then Heading
    else Name(trimmed)
  }

  function ClassifyAll(lines: seq<string>): (r: seq<Line>)
    ensures |r| == |lines|
  {
    if lines == [] then [] else ClassifyAll(lines[..|lines| - 1]) + [Classify(lines[|lines| - 1])]
  }

  function Feed(p: Progress, line: Line): Progress {
    match line
    case Blank => p
    case More(text) => p.(desc := p.desc + [' '] + text)
    case Heading => p
    case Named(name, def) =>
      var q := Flush(p);
      Progress(q.args, name, q.desc, if def.Some? then def.value else q.def)
  }

  /** What reading some lines comes to. */
  function After(lines: seq<string>): Progress {
    Fold(Feed, START, ClassifyAll(lines))
  }

  function Parse(content: string): seq<LaunchArg> {
    Flush(After(SplitLines(content))).args
  }

  /** One turn of the loop. */
  method FeedLine(p: Progress, line: string) returns (q: Progress)
    ensures q == Feed(p, Classify(line))
  {
    var trimmed := TrimSpace(line);
    if trimmed == "" {
      return p;
    }
    if line[0] == ' ' || line[0] == '\t' {
      return p.(desc := p.desc + [' '] + trimmed);
    }
    if ARGUMENTS <= trimmed {
      return p;
    }
    q := Flush(p);
    var namePart := trimmed;
    if Index(namePart, MARKER) >= 0 {
      var (def, rest) := ExtractDefault(namePart);
      q := q.(def := def);
      namePart := rest;
    }
    q := q.(name := Trim(StripColon(namePart), QUOTE_OR_SPACE));
  }

  method ParseShowArgsOutput(content: string) returns (args: seq<LaunchArg>)
    ensures args == Parse(content)
  {
    var lines := SplitLines(content);
    var p := START;
    for i := 0 to |lines|
      invariant p == Fold(Feed, START, ClassifyAll(lines[..i]))
    {
      ghost var next := ClassifyAll(lines[..i]) + [Classify(lines[i])];
      assert lines[..i + 1][..i] == lines[..i];
      assert next[..i] == ClassifyAll(lines[..i]);
      p := FeedLine(p, lines[i]);
    }
    assert lines[..|lines|] == lines;
    return Flush(p).args;
  }

  // ------------------------------------------------------------------
  // The printed form
  // ------------------------------------------------------------------

  /**
   * An argument as declared, its description line by line; its default is printed on the name line or behind the
   * description.
   */
  datatype Arg = Arg(name: string, defaultValue: Option<string>, description: seq<string>, inline: bool)

  const HEADER: string := ARGUMENTS + " (pass arguments as \"<name>:=<value>\"):"

  function DefaultText(d: string): string {
    MARKER + d + CLOSE
  }

  function PrintName(a: Arg): string {
    ['\''] + a.name + ['\'']
        + (if a.defaultValue.Some? && a.inline then [' '] + DefaultText(a.defaultValue.value) else []) + [':']
  }

  /** The lines with `t` behind the last of them. */
  function Appended(lines: seq<string>, t: string): seq<string> {
    var n := |lines|;
    if n == 0 then [t] else lines[..n - 1] + [lines[n - 1] + [' '] + t]
  }

  /** The lines of the description, the last one with the default if that is not on the name line. */
  function Described(a: Arg): seq<string> {
    if a.defaultValue.None? || a.inline then a.description
    else Appended(a.description, DefaultText(a.defaultValue.value))
  }

  function Indented(lines: seq<string>): (r: seq<string>)
    ensures |r| == |lines|
  {
    if lines == [] then [] else Indented(lines[..|lines| - 1]) + [[' ', ' ', ' ', ' '] + lines[|lines| - 1]]
  }

  function PrintArg(a: Arg): seq<string> {
    [PrintName(a)] + Indented(Described(a)) + [[]]
  }

  function PrintArgs(args: seq<Arg>): seq<string> {
    if args == [] then [] else PrintArgs(args[..|args| - 1]) + PrintArg(args[|args| - 1])
  }

  function Print(args: seq<Arg>): string {
    JoinLines([HEADER, []] + PrintArgs(args))
  }

  predicate Trimmed(s: string) {
    s == [] || (s[0] !in SPACES && s[|s| - 1] !in SPACES)
  }

  ghost predicate MarkerFree(s: string) {
    forall k :: !OccursAt(MARKER, s, k)
  }

  /** The lines with one space between them. */
  function Joined(lines: seq<string>): string {
    var n := |lines|;
    if n == 0 then [] else if n == 1 then lines[0] else Joined(lines[..n - 1]) + [' '] + lines[n - 1]
  }

  predicate PrintableLine(s: string) {
    s != [] && Trimmed(s) && OneLine(s)
  }

  /** A quote-free name, a default without its closing, a description of trimmed lines without the marker. */
  ghost predicate Printable(a: Arg) {
    && a.name != [] && Trimmed(a.name) && OneLine(a.name) && '\'' !in a.name
    && (a.defaultValue.Some? ==> OneLine(a.defaultValue.value) && forall k :: !OccursAt(CLOSE, a.defaultValue.value, k))
    && (forall line :: line in a.description ==> PrintableLine(line)) && MarkerFree(Joined(a.description))
  }

  /** What the parser makes of an argument: its lines on one, and an empty default counts as none. */
  function Seen(a: Arg): LaunchArg {
    var d := if a.defaultValue.Some? then a.defaultValue.value else [];
    LaunchArg(a.name, Joined(a.description), d, d == [])
  }

  // ------------------------------------------------------------------
  // Finding the default
  // ------------------------------------------------------------------

  lemma MarkerShape()
    ensures |MARKER| == 11 && MARKER[0] == '(' && MARKER[9] == ' ' && MARKER[10] == '\''
    ensures forall k :: 0 <= k < 10 ==> MARKER[k] != '\''
  {
  }

  lemma OccursChars(s: string, k: nat)
    requires OccursAt(MARKER, s, k)
    ensures k + 10 < |s| && s[k] == '(' && s[k + 9] == ' ' && s[k + 10] == '\''
  {
    MarkerShape();
    var part := s[k..k + 11];
    assert part[0] == s[k] && part[9] == s[k + 9] && part[10] == s[k + 10];
  }

  /** A marker that nothing closes is ordinary text. */
  lemma UnclosedIsText(pre: string, tail: string)
    requires MarkerFree(pre) && forall k :: !OccursAt(CLOSE, tail, k)
    ensures ExtractDefault(pre + MARKER + tail) == ([], pre + MARKER + tail)
  {
    MarkerFound(pre, tail);
    assert (pre + MARKER + tail)[|pre| + |MARKER|..] == tail;
    assert Index(tail, CLOSE) == -1;
  }

  /** Nothing before the marker completes a marker. */
  lemma MarkerFound(pre: string, tail: string)
    requires MarkerFree(pre)
    ensures Index(pre + MARKER + tail, MARKER) == |pre|
  {
    MarkerShape();
    var s := pre + MARKER + tail;
    assert s[|pre|..|pre| + |MARKER|] == MARKER;
    forall k | 0 <= k < |pre|
      ensures !OccursAt(MARKER, s, k)
    {
      if OccursAt(MARKER, s, k) {
        OccursChars(s, k);
        if k + 11 <= |pre| {
          assert s == pre + (MARKER + tail);
          OccursExtend(MARKER, pre, MARKER + tail, k);
        }
        assert false;
      }
    }
    IndexIs(s, MARKER, |pre|);
  }

  lemma CloseFound(d: string, tail: string)
    requires forall k :: !OccursAt(CLOSE, d, k)
    ensures Index(d + CLOSE + tail, CLOSE) == |d|
  {
    var s := d + CLOSE + tail;
    assert s[|d|..|d| + 2] == CLOSE;
    forall k | 0 <= k < |d|
      ensures !OccursAt(CLOSE, s, k)
    {
      if OccursAt(CLOSE, s, k) {
        assert s[k..k + 2][1] == ')' && s[k + 1] == ')';
        if k + 2 <= |d| {
          assert s == d + (CLOSE + tail);
          OccursExtend(CLOSE, d, CLOSE + tail, k);
        }
        assert false;
      }
    }
    IndexIs(s, CLOSE, |d|);
  }

  lemma DefaultExtracted(pre: string, d: string, tail: string)
    requires MarkerFree(pre) && forall k :: !OccursAt(CLOSE, d, k)
    ensures Index(pre + MARKER + d + CLOSE + tail, MARKER) >= 0
    ensures ExtractDefault(pre + MARKER + d + CLOSE + tail) == (d, TrimSpace(pre))
  {
    var s := pre + MARKER + d + CLOSE + tail;
    assert s == pre + MARKER + (d + CLOSE + tail);
    MarkerFound(pre, d + CLOSE + tail);
    CloseFound(d, tail);
    assert s[|pre| + |MARKER|..] == d + CLOSE + tail;
    assert s[..|pre|] == pre;
    assert s[|pre| + |MARKER|..|pre| + |MARKER| + |d|] == d;
  }

  // ------------------------------------------------------------------
  // Reading one printed argument
  // ------------------------------------------------------------------

  lemma NameChars(name: string, tail: string, i: nat)
    requires '\'' !in name && |tail| == 1 && i < |name| + 3
    ensures (['\''] + name + ['\''] + tail)[i] ==
            if i == 0 || i == |name| + 1 then '\'' else if i <= |name| then name[i - 1] else tail[0]
    ensures 1 <= i <= |name| ==> name[i - 1] != '\''
  {
  }

  /** A quoted name holds no marker: its last quote would have to end one, behind a space. */
  lemma QuotedNameMarkerFree(a: Arg, tail: string)
    requires Printable(a) && tail in {[' '], [':']}
    ensures MarkerFree(['\''] + a.name + ['\''] + tail)
  {
    var s := ['\''] + a.name + ['\''] + tail;
    forall k
      ensures !OccursAt(MARKER, s, k)
    {
      if OccursAt(MARKER, s, k) {
        OccursChars(s, k);
        NameChars(a.name, tail, k + 9);
        NameChars(a.name, tail, k + 10);
        assert false;
      }
    }
  }

  /** The name line's text before the default, or the whole line, gives back the name. */
  lemma NameStripped(name: string, tail: string)
    requires name != [] && Trimmed(name) && '\'' !in name && tail in {[], [':']}
    ensures Trim(StripColon(['\''] + name + ['\''] + tail), QUOTE_OR_SPACE) == name
  {
    var s := ['\''] + name + ['\''] + tail;
    assert StripColon(s) == ['\''] + name + ['\''] by {
      if tail == [':'] {
        assert s[..|s| - 1] == ['\''] + name + ['\''];
      } else {
        assert s == ['\''] + name + ['\''];
      }
    }
    TrimAround(['\''], name, ['\''], QUOTE_OR_SPACE);
  }

  lemma PlainNameRead(a: Arg)
    requires Printable(a) && (a.defaultValue.None? || !a.inline)
    ensures Name(PrintName(a)) == Named(a.name, None)
  {
    assert PrintName(a) == ['\''] + a.name + ['\''] + [':'];
    QuotedNameMarkerFree(a, [':']);
    NameStripped(a.name, [':']);
  }

  lemma QuotedTrimmed(name: string)
    ensures TrimSpace(['\''] + name + ['\''] + [' ']) == ['\''] + name + ['\'']
  {
    var quoted := ['\''] + name + ['\''];
    assert quoted + [' '] == [] + quoted + [' '];
    TrimAround([], quoted, [' '], SPACES);
  }

  lemma PrintNameShape(a: Arg, quoted: string)
    requires a.defaultValue.Some? && a.inline && quoted == ['\''] + a.name + ['\'']
    ensures PrintName(a) == quoted + [' '] + MARKER + a.defaultValue.value + CLOSE + [':']
  {
  }

  lemma NameWithDefaultRead(a: Arg)
    requires Printable(a) && a.defaultValue.Some? && a.inline
    ensures Name(PrintName(a)) == Named(a.name, a.defaultValue)
  {
    var quoted := ['\''] + a.name + ['\''];
    PrintNameShape(a, quoted);
    QuotedNameMarkerFree(a, [' ']);
    DefaultExtracted(quoted + [' '], a.defaultValue.value, [':']);
    QuotedTrimmed(a.name);
    assert quoted + [] == quoted;
    NameStripped(a.name, []);
  }

  lemma NameClassified(a: Arg)
    requires Printable(a)
    ensures Classify(PrintName(a)) == Name(PrintName(a))
  {
    var line := PrintName(a);
    assert line[0] == '\'' && line[|line| - 1] == ':';
    TrimKeeps(line, SPACES);
  }

  // ------------------------------------------------------------------
  // Reading a description
  // ------------------------------------------------------------------

  /** The lines as the parser strings them together. */
  function Spaced(lines: seq<string>): string {
    if lines == [] then [] else Spaced(lines[..|lines| - 1]) + [' '] + lines[|lines| - 1]
  }

  lemma {:induction false} SpacedIsJoined(lines: seq<string>)
    ensures Spaced(lines) == if lines == [] then [] else [' '] + Joined(lines)
  {
    if |lines| > 1 {
      SpacedIsJoined(lines[..|lines| - 1]);
    } else if |lines| == 1 {
      assert [] + [' '] + lines[0] == [' '] + lines[0];
    }
  }

  lemma {:induction false} JoinedTrimmed(lines: seq<string>)
    requires forall line :: line in lines ==> PrintableLine(line)
    ensures Trimmed(Joined(lines)) && (lines != [] ==> Joined(lines) != [])
  {
    if |lines| > 1 {
      var front, last := lines[..|lines| - 1], lines[|lines| - 1];
      assert last in lines && forall line :: line in front ==> line in lines;
      JoinedTrimmed(front);
      var s := Joined(front) + [' '] + last;
      assert s[0] == Joined(front)[0] && s[|s| - 1] == last[|last| - 1];
    } else if |lines| == 1 {
      assert lines[0] in lines;
    }
  }

  lemma DefaultTextTrimmed(d: string)
    ensures DefaultText(d)[0] == '(' && DefaultText(d)[|DefaultText(d)| - 1] == ')'
    ensures OneLine(d) ==> OneLine(DefaultText(d))
  {
    assert MARKER[0] == '(' && CLOSE[1] == ')';
    assert OneLine(MARKER) && OneLine(CLOSE);
  }

  lemma DescribedPrintable(a: Arg)
    requires Printable(a)
    ensures forall line :: line in Described(a) ==> PrintableLine(line)
  {
    if a.defaultValue.Some? && !a.inline {
      DefaultTextTrimmed(a.defaultValue.value);
      var n, t := |a.description|, DefaultText(a.defaultValue.value);
      if n > 0 {
        var last := a.description[n - 1];
        assert last in a.description && forall line :: line in a.description[..n - 1] ==> line in a.description;
        var s := last + [' '] + t;
        assert s[0] == last[0] && s[|s| - 1] == t[|t| - 1];
        assert PrintableLine(s);
      }
    }
  }

  /** Any white space that begins with a space or a tab indents a line. */
  lemma IndentedClassified(indent: string, line: string)
    requires PrintableLine(line) && indent != [] && indent[0] in {' ', '\t'}
    requires forall i :: 0 <= i < |indent| ==> indent[i] in SPACES
    ensures Classify(indent + line) == More(line)
  {
    assert indent + line == indent + line + [];
    TrimAround(indent, line, [], SPACES);
  }

  /** What is read of the description's lines. */
  function MoreOf(lines: seq<string>): seq<Line> {
    if lines == [] then [] else MoreOf(lines[..|lines| - 1]) + [More(lines[|lines| - 1])]
  }

  lemma {:induction false} IndentedAreMore(lines: seq<string>)
    requires forall line :: line in lines ==> PrintableLine(line)
    ensures ClassifyAll(Indented(lines)) == MoreOf(lines)
  {
    if lines != [] {
      var front, last := lines[..|lines| - 1], lines[|lines| - 1];
      assert last in lines && forall line :: line in front ==> line in lines;
      IndentedAreMore(front);
      IndentedClassified([' ', ' ', ' ', ' '], last);
      ClassifySnoc(Indented(front), [' ', ' ', ' ', ' '] + last);
    }
  }

  lemma {:induction false} MoreIsSpaced(p: Progress, lines: seq<string>)
    ensures Fold(Feed, p, MoreOf(lines)) == p.(desc := p.desc + Spaced(lines))
  {
    if lines == [] {
      assert p.desc + [] == p.desc;
    } else {
      var front, last := lines[..|lines| - 1], lines[|lines| - 1];
      MoreIsSpaced(p, front);
      FoldSnoc(Feed, p, MoreOf(front), More(last));
      assert p.desc + Spaced(front) + [' '] + last == p.desc + (Spaced(front) + [' '] + last);
    }
  }

  lemma SpacedMarkerFree(desc: string, tail: string)
    requires MarkerFree(desc) && tail in {[], [' ']}
    ensures MarkerFree([' '] + desc + tail)
  {
    var s := [' '] + desc + tail;
    forall k
      ensures !OccursAt(MARKER, s, k)
    {
      if OccursAt(MARKER, s, k) {
        OccursChars(s, k);
        assert s[1..|desc| + 1] == desc;
        OccursInPart(MARKER, s, 1, |desc| + 1, k - 1);
        assert false;
      }
    }
  }

  /** A description without a default gives none up. */
  lemma PlainDescriptionRead(desc: string)
    requires Trimmed(desc) && MarkerFree(desc)
    ensures var text := if desc == [] then [] else [' '] + desc;
            ExtractDefault(text) == ([], text) && TrimSpace(text) == desc
  {
    if desc == [] {
      TrimKeeps([], SPACES);
    } else {
      SpacedMarkerFree(desc, []);
      assert [' '] + desc == [' '] + desc + [];
      TrimAround([' '], desc, [], SPACES);
    }
  }

  lemma SpacedSnoc(front: seq<string>, last: string)
    ensures Spaced(front + [last]) == Spaced(front) + [' '] + last
  {
    assert (front + [last])[..|front|] == front;
  }

  lemma AppendedSpaced(lines: seq<string>, t: string)
    ensures Spaced(Appended(lines, t)) == Spaced(lines) + [' '] + t
  {
    if lines == [] {
      SpacedSnoc([], t);
      assert [] + [t] == [t];
    } else {
      var front, last := lines[..|lines| - 1], lines[|lines| - 1];
      SpacedSnoc(front, last + [' '] + t);
      assert Spaced(front) + [' '] + (last + [' '] + t) == (Spaced(front) + [' '] + last) + [' '] + t;
    }
  }

  lemma DescribedSpaced(a: Arg, pre: string)
    requires a.defaultValue.Some? && !a.inline && pre == Spaced(a.description) + [' ']
    ensures Spaced(Described(a)) == pre + MARKER + a.defaultValue.value + CLOSE + []
  {
    AppendedSpaced(a.description, DefaultText(a.defaultValue.value));
  }

  lemma DescriptionWithDefaultRead(a: Arg)
    requires Printable(a) && a.defaultValue.Some? && !a.inline
    ensures ExtractDefault(Spaced(Described(a))) == (a.defaultValue.value, Joined(a.description))
  {
    var joined, tail := Joined(a.description), if a.description == [] then [] else [' '];
    var pre := [' '] + joined + tail;
    JoinedTrimmed(a.description);
    SpacedIsJoined(a.description);
    assert pre == Spaced(a.description) + [' '];
    DescribedSpaced(a, pre);
    SpacedMarkerFree(joined, tail);
    DefaultExtracted(pre, a.defaultValue.value, []);
    TrimAround([' '], joined, tail, SPACES);
  }

  /** A completed argument, its description read from the lines printed for it. */
  lemma ArgCompleted(p: Progress, a: Arg)
    requires Printable(a) && p.name == a.name
    requires p.def == if a.defaultValue.Some? && a.inline then a.defaultValue.value else []
    requires p.desc == Spaced(Described(a))
    ensures Completed(p) == Seen(a)
  {
    JoinedTrimmed(a.description);
    if a.defaultValue.None? || a.inline {
      SpacedIsJoined(a.description);
      PlainDescriptionRead(Joined(a.description));
    } else {
      DescriptionWithDefaultRead(a);
      TrimKeeps(Joined(a.description), SPACES);
    }
  }

  // ------------------------------------------------------------------
  // The round trip
  // ------------------------------------------------------------------

  function SeenAll(args: seq<Arg>): (seen: seq<LaunchArg>)
    ensures |seen| == |args| && forall i :: 0 <= i < |args| ==> seen[i] == Seen(args[i])
  {
    seq(|args|, i requires 0 <= i < |args| => Seen(args[i]))
  }

  /** No argument is under way, or one with a name. */
  predicate Clean(p: Progress) {
    p.name != [] || (p.desc == [] && p.def == [])
  }

  function NameOf(a: Arg): Line {
    Named(a.name, if a.defaultValue.Some? && a.inline then a.defaultValue else None)
  }

  function LinesOf(a: Arg): seq<Line> {
    [NameOf(a)] + MoreOf(Described(a)) + [Blank]
  }

  lemma ArgRead(p: Progress, a: Arg)
    requires Printable(a) && Clean(p)
    ensures var q := Fold(Feed, p, LinesOf(a)); q.name == a.name && Flush(q).args == Flush(p).args + [Seen(a)]
  {
    var named := Feed(p, NameOf(a));
    var q := named.(desc := named.desc + Spaced(Described(a)));
    NamedThenMore(p, a);
    assert named.desc == [] && [] + Spaced(Described(a)) == Spaced(Described(a));
    ArgCompleted(q, a);
  }

  /** Indented text before the first name is not lost: it becomes the beginning of that argument's description. */
  lemma StrayTextIsKept(text: string, a: Arg, kept: Arg)
    requires kept == a.(description := [text] + a.description) && Printable(kept)
    ensures Flush(Fold(Feed, START, [More(text)] + LinesOf(a))).args == [Seen(kept)]
  {
    var stray := START.(desc := Spaced([text]));
    FoldSnoc(Feed, START, [], More(text));
    assert [] + [More(text)] == [More(text)] && Spaced([text][..0]) == [];
    FoldConcat(Feed, START, [More(text)], LinesOf(a));
    var named := Feed(stray, NameOf(a));
    var q := named.(desc := named.desc + Spaced(Described(a)));
    NamedThenMore(stray, a);
    StraySpaced(text, a, kept);
    ArgCompleted(q, kept);
    assert Flush(q).args == [] + [Seen(kept)];
  }

  lemma NamedThenMore(p: Progress, a: Arg)
    ensures var named := Feed(p, NameOf(a));
            Fold(Feed, p, LinesOf(a)) == named.(desc := named.desc + Spaced(Described(a)))
  {
    FoldSnoc(Feed, p, [], NameOf(a));
    assert [] + [NameOf(a)] == [NameOf(a)];
    FoldConcat(Feed, p, [NameOf(a)], MoreOf(Described(a)));
    MoreIsSpaced(Feed(p, NameOf(a)), Described(a));
    FoldSnoc(Feed, p, [NameOf(a)] + MoreOf(Described(a)), Blank);
  }

  lemma {:induction false} SpacedConcat(x: seq<string>, y: seq<string>)
    ensures Spaced(x + y) == Spaced(x) + Spaced(y)
  {
    if y == [] {
      assert x + y == x;
    } else {
      var front, last := y[..|y| - 1], y[|y| - 1];
      SpacedConcat(x, front);
      SpacedSnoc(x + front, last);
      SpacedSnoc(front, last);
      assert y == front + [last] && x + y == (x + front) + [last];
      assert Spaced(x) + (Spaced(front) + [' '] + last) == Spaced(x) + Spaced(front) + [' '] + last;
    }
  }

  lemma StraySpaced(text: string, a: Arg, kept: Arg)
    requires kept == a.(description := [text] + a.description)
    ensures Spaced([text]) + Spaced(Described(a)) == Spaced(Described(kept))
  {
    SpacedConcat([text], a.description);
    if a.defaultValue.Some? && !a.inline {
      AppendedSpaced(a.description, DefaultText(a.defaultValue.value));
      AppendedSpaced(kept.description, DefaultText(a.defaultValue.value));
    }
  }

  lemma ClassifyConcat(a: seq<string>, b: seq<string>)
    ensures ClassifyAll(a + b) == ClassifyAll(a) + ClassifyAll(b)
  {
    if b == [] {
      assert a + b == a;
    } else {
      var n := |b| - 1;
      assert (a + b)[..|a| + n] == a + b[..n];
      ClassifyConcat(a, b[..n]);
    }
  }

  lemma ClassifySnoc(lines: seq<string>, last: string)
    ensures ClassifyAll(lines + [last]) == ClassifyAll(lines) + [Classify(last)]
  {
    assert (lines + [last])[..|lines|] == lines;
  }

  lemma NameRead(a: Arg)
    requires Printable(a)
    ensures ClassifyAll([PrintName(a)]) == [NameOf(a)]
  {
    NameClassified(a);
    if a.defaultValue.Some? && a.inline {
      NameWithDefaultRead(a);
    } else {
      PlainNameRead(a);
    }
    ClassifySnoc([], PrintName(a));
    assert [] + [PrintName(a)] == [PrintName(a)];
  }

  lemma ArgLines(a: Arg)
    requires Printable(a)
    ensures ClassifyAll(PrintArg(a)) == LinesOf(a)
  {
    NameRead(a);
    DescribedPrintable(a);
    IndentedAreMore(Described(a));
    BlankClassified();
    ClassifyConcat([PrintName(a)], Indented(Described(a)));
    ClassifySnoc([PrintName(a)] + Indented(Described(a)), []);
  }

  lemma BlankClassified()
    ensures Classify([]) == Blank
  {
    TrimKeeps([], SPACES);
  }

  lemma HeaderOnLine()
    ensures OneLine(HEADER)
  {
  }

  lemma HeaderIsHeading()
    ensures Classify(HEADER) == Heading
  {
    assert HEADER[0] == 'A' && HEADER[|HEADER| - 1] == ':';
    TrimKeeps(HEADER, SPACES);
  }

  lemma HeaderClassified()
    ensures ClassifyAll([HEADER, []]) == [Heading, Blank]
    ensures OneLine(HEADER)
  {
    HeaderOnLine();
    HeaderIsHeading();
    BlankClassified();
    ClassifySnoc([], HEADER);
    ClassifySnoc([HEADER], []);
    assert [] + [HEADER] == [HEADER] && [HEADER] + [[]] == [HEADER, []];
  }

  lemma {:induction false} IndentedOnLines(lines: seq<string>)
    requires forall line :: line in lines ==> OneLine(line)
    ensures forall i :: 0 <= i < |Indented(lines)| ==> OneLine(Indented(lines)[i])
  {
    if lines != [] {
      var front, last := lines[..|lines| - 1], lines[|lines| - 1];
      assert last in lines && forall line :: line in front ==> line in lines;
      IndentedOnLines(front);
    }
  }

  lemma OneLineEach(a: Arg)
    requires Printable(a)
    ensures forall i :: 0 <= i < |PrintArg(a)| ==> OneLine(PrintArg(a)[i])
  {
    if a.defaultValue.Some? {
      DefaultTextTrimmed(a.defaultValue.value);
    }
    DescribedPrintable(a);
    IndentedOnLines(Described(a));
    assert OneLine(PrintName(a));
  }

  lemma {:induction false} PrintedOnLines(args: seq<Arg>)
    requires forall a :: a in args ==> Printable(a)
    ensures forall i :: 0 <= i < |PrintArgs(args)| ==> OneLine(PrintArgs(args)[i])
  {
    if args != [] {
      var n := |args| - 1;
      PrintedOnLines(args[..n]);
      OneLineEach(args[n]);
      var before, lines := PrintArgs(args[..n]), PrintArg(args[n]);
      forall i | 0 <= i < |before + lines|
        ensures OneLine((before + lines)[i])
      {
        assert (before + lines)[i] == if i < |before| then before[i] else lines[i - |before|];
      }
    }
  }

  lemma ArgAppended(before: seq<string>, a: Arg)
    requires Printable(a) && Clean(After(before))
    ensures var q := After(before + PrintArg(a));
            Clean(q) && Flush(q).args == Flush(After(before)).args + [Seen(a)]
  {
    ClassifyConcat(before, PrintArg(a));
    ArgLines(a);
    FoldConcat(Feed, START, ClassifyAll(before), LinesOf(a));
    ArgRead(After(before), a);
  }

  lemma SeenSnoc(args: seq<Arg>, n: nat)
    requires |args| == n + 1
    ensures SeenAll(args) == SeenAll(args[..n]) + [Seen(args[n])]
  {
  }

  lemma {:induction false} ArgsRead(args: seq<Arg>)
    requires forall a :: a in args ==> Printable(a)
    ensures Flush(After(PrintArgs(args))).args == SeenAll(args) && Clean(After(PrintArgs(args)))
  {
    if args != [] {
      var n := |args| - 1;
      ArgsRead(args[..n]);
      ArgAppended(PrintArgs(args[..n]), args[n]);
      SeenSnoc(args, n);
    }
  }

  lemma HeaderIgnored(lines: seq<string>)
    ensures After([HEADER, []] + lines) == After(lines)
  {
    HeaderClassified();
    ClassifyConcat([HEADER, []], lines);
    FoldConcat(Feed, START, [Heading, Blank], ClassifyAll(lines));
    FoldSnoc(Feed, START, [], Heading);
    FoldSnoc(Feed, START, [Heading], Blank);
    assert [] + [Heading] == [Heading] && [Heading] + [Blank] == [Heading, Blank];
  }

  lemma PrintSplits(args: seq<Arg>)
    requires forall a :: a in args ==> Printable(a)
    ensures SplitLines(Print(args)) == [HEADER, []] + PrintArgs(args)
  {
    PrintedOnLines(args);
    HeaderClassified();
    SplitJoin([HEADER, []] + PrintArgs(args));
  }

  /**
   * Parsing what was printed gives back every argument in order, the lines of a description joined by spaces and an
   * empty default read as none.
   */
  lemma RoundTrip(args: seq<Arg>)
    requires forall a :: a in args ==> Printable(a)
    ensures Parse(Print(args)) == SeenAll(args)
  {
    PrintSplits(args);
    HeaderIgnored(PrintArgs(args));
    ArgsRead(args);
  }

  /** The lines printed for the example of the documentation. */
  lemma DocumentedForm(rate: Arg)
    requires rate == Arg("rate", Some("100"), ["Control rate in Hz."], true)
    ensures HEADER == "Arguments" + " (pass arguments as \"<name>:=<value>\"):"
    ensures PrintName(rate) == ['\''] + "rate" + ['\''] + ([' '] + ("(default: '" + "100" + "')")) + [':']
    ensures Described(rate.(inline := false)) == ["Control rate in Hz." + [' '] + ("(default: '" + "100" + "')")]
  {
    assert rate.description[..0] == [];
  }

  /** An argument is reported as required when it has no default; that is exact unless its default is empty. */
  lemma RequiredIff(args: seq<Arg>, i: nat)
    requires i < |args| && forall a :: a in args ==> Printable(a)
    ensures i < |Parse(Print(args))|
    ensures Parse(Print(args))[i].required == args[i].defaultValue.None? <==> args[i].defaultValue != Some("")
  {
    RoundTrip(args);
  }

  /** The argument 'rate' with an empty default, printed on its own, comes back as a required one. */
  lemma EmptyDefaultExample(a: Arg)
    requires a == Arg("rate", Some(""), [], true)
    ensures Printable(a) && |Parse(Print([a]))| == 1 && Parse(Print([a]))[0].required
  {
    RoundTrip([a]);
    assert SeenAll([a]) == SeenAll([]) + [Seen(a)];
  }
}
