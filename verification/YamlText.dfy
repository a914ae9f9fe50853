/** Configuration files as text: splitting and joining lines, and the round trip through the
    parser (internal/config/vipercompat/viper.go). */
module YamlText {
  import opened Text
  import opened ConfigTree
  import opened Yaml

  // ---------------------------------------------------------------- writing one line

  function Pad(n: nat): string { seq(n, _ => ' ') }

  function Body(l: Line): string
    requires l.Entry?
  {
    l.key + if l.value == "" then ":" else ": " + l.value
  }

  function WriteLine(l: Line): string {
    if l.Entry? then Pad(l.indent) + Body(l) else ""
  }

  /** A key the format can hold. */
  predicate GoodKey(k: string) {
    && k != "" && !IsSpace(k[0]) && !IsSpace(k[|k| - 1]) && k[0] != '#' && k[0] != '-'
    && ':' !in k && '\n' !in k
  }

  /** Scalar text the format can hold: on one line, with no white space at its ends. */
  predicate GoodText(t: string) {
    t != "" && !IsSpace(t[0]) && !IsSpace(t[|t| - 1]) && '\n' !in t
  }

  ghost predicate GoodLine(l: Line) {
    l.Entry? && l.indent % 2 == 0 && GoodKey(l.key) && (l.value == "" || GoodText(l.value))
  }

  lemma {:induction false} PadStripped(n: nat, body: string)
    requires body != "" && !IsSpace(body[0])
    ensures TrimLeft(Pad(n) + body, IsSpace) == body
    ensures LeadingSpaces(Pad(n) + body) == n
  {
    if n == 0 {
      assert Pad(0) + body == body;
    } else {
      PadStripped(n - 1, body);
      assert (Pad(n) + body)[1..] == Pad(n - 1) + body && (Pad(n) + body)[0] == ' ';
    }
  }

  lemma {:induction false} KeyEndsAtColon(key: string, rest: string)
    requires ':' !in key
    ensures ColonAt(key + ":" + rest) == |key|
  {
    var s := key + ":" + rest;
    if key != "" {
      assert s[0] == key[0] && s[1..] == key[1..] + ":" + rest;
      KeyEndsAtColon(key[1..], rest);
    }
  }

  lemma ValueStripped(v: string)
    requires v == "" || GoodText(v)
    ensures TrimSpace(if v == "" then "" else " " + v) == v
  {
    if v != "" {
      assert (" " + v)[1..] == v;
      TrimIdentity(v, IsSpace);
    }
  }

  function Tail(l: Line): string
    requires l.Entry?
  {
    if l.value == "" then "" else " " + l.value
  }

  lemma BodyParts(l: Line)
    requires GoodLine(l)
    ensures Body(l) == l.key + ":" + Tail(l) && Body(l)[0] == l.key[0]
    ensures !IsSpace(Body(l)[0]) && !IsSpace(Body(l)[|Body(l)| - 1])
    ensures ColonAt(Body(l)) == |l.key| && Body(l)[..|l.key|] == l.key && Body(l)[|l.key| + 1..] == Tail(l)
  {
    KeyEndsAtColon(l.key, Tail(l));
    assert Body(l) == l.key + ":" + Tail(l);
    assert Body(l)[|Body(l)| - 1] == if l.value == "" then ':' else l.value[|l.value| - 1];
  }

  lemma LineTrimmed(l: Line)
    requires GoodLine(l)
    ensures TrimRight(WriteLine(l), IsLineBlank) == WriteLine(l)
    ensures TrimSpace(WriteLine(l)) == Body(l) && LeadingSpaces(WriteLine(l)) == l.indent
  {
    BodyParts(l);
    var w, body := WriteLine(l), Body(l);
    assert w[|w| - 1] == body[|body| - 1];
    PadStripped(l.indent, body);
  }

  /** A written line is read as what was written. */
  lemma LineReadsBack(l: Line)
    requires GoodLine(l)
    ensures ReadLine(WriteLine(l)) == l
  {
    LineTrimmed(l);
    BodyParts(l);
    assert TrimSpace(l.key) == l.key by { TrimIdentity(l.key, IsSpace); }
    assert TrimSpace(Tail(l)) == l.value by { ValueStripped(l.value); }
  }

  // ---------------------------------------------------------------- reading any line

  lemma {:induction false} SpacesBefore(s: string, t: string)
    requires TrimSpace(s) != "" && s == TrimRight(t, IsLineBlank)
    ensures LeadingSpaces(s) == LeadingSpaces(t)
  {
    TrimRightEnds(t, IsLineBlank);
    SamePadding(s, t);
  }

  /** Text that ends in no blank begins with the same blanks as any longer one. */
  lemma {:induction false} SamePadding(s: string, t: string)
    requires s <= t && s != "" && s[|s| - 1] != ' '
    ensures LeadingSpaces(s) == LeadingSpaces(t)
  {
    if s[0] == ' ' {
      SamePadding(s[1..], t[1..]);
    }
  }

  lemma {:induction false} TrimRightTwice(s: string)
    ensures TrimRight(TrimRight(s, IsLineBlank), IsSpace) == TrimRight(s, IsSpace)
  {
    if s != "" && IsLineBlank(s[|s| - 1]) {
      TrimRightTwice(s[..|s| - 1]);
    }
  }

  lemma {:induction false} TrimSpaceTwice(s: string)
    ensures TrimSpace(TrimRight(s, IsLineBlank)) == TrimSpace(s)
  {
    if s != "" && IsSpace(s[0]) {
      TrimSpaceTwice(s[1..]);
      var r := TrimRight(s, IsLineBlank);
      RightOfTail(s);
    } else {
      TrimRightTwice(s);
      TrimRightEnds(s, IsLineBlank);
    }
  }

  lemma {:induction false} RightOfTail(s: string)
    requires s != ""
    ensures var r, tail := TrimRight(s, IsLineBlank), TrimRight(s[1..], IsLineBlank);
            r == [s[0]] + tail || (r == "" && tail == "" && IsLineBlank(s[0]))
  {
    if |s| > 1 && IsLineBlank(s[|s| - 1]) {
      RightOfTail(s[..|s| - 1]);
      assert s[..|s| - 1][1..] == s[1..][..|s| - 2];
    } else if |s| > 1 {
      assert s == [s[0]] + s[1..];
    } else {
      assert s[1..] == "" && s[..0] == "" && s == [s[0]];
    }
  }

  lemma {:induction false} ColonFound(s: string)
    ensures ColonAt(s) == |s| <==> ':' !in s
    ensures ':' !in s[..ColonAt(s)]
  {
    if s != "" && s[0] != ':' {
      ColonFound(s[1..]);
      assert s == [s[0]] + s[1..];
      assert s[..ColonAt(s)] == [s[0]] + s[1..][..ColonAt(s[1..])];
    }
  }

  /** A line in its parts: a key, the first colon and a value, each with any white space around. */
  predicate Divides(text: string, key: string, value: string, n: nat) {
    && n < |text| && text[n] == ':' && ':' !in text[..n]
    && key == TrimSpace(text[..n]) && value == TrimSpace(text[n + 1..])
  }

  /** Every line: blank lines and comments are skipped. Any other is an entry exactly if it is no
      list item, is indented by an even number of blanks, and has a key before its first colon;
      the rest is refused. */
  lemma EveryLineRead(raw: string)
    ensures var text, l := TrimSpace(raw), ReadLine(raw);
            && (l.Skipped? <==> text == "" || text[0] == '#')
            && (l.Entry? <==>
                  && text != "" && text[0] != '#' && text[0] != '-' && LeadingSpaces(raw) % 2 == 0
                  && ':' in text && TrimSpace(text[..ColonAt(text)]) != "")
            && (l.Entry? ==> l.indent == LeadingSpaces(raw) && Divides(text, l.key, l.value, ColonAt(text)))
  {
    var line := TrimRight(raw, IsLineBlank);
    TrimSpaceTwice(raw);
    ColonFound(TrimSpace(raw));
    if TrimSpace(line) != "" {
      SpacesBefore(line, raw);
    }
  }

  /** The blanks a line begins with. */
  lemma {:induction false} LeadingSpacesAre(s: string)
    ensures LeadingSpaces(s) <= |s| && (forall i :: 0 <= i < LeadingSpaces(s) ==> s[i] == ' ')
    ensures LeadingSpaces(s) < |s| ==> s[LeadingSpaces(s)] != ' '
  {
    if s != "" && s[0] == ' ' {
      LeadingSpacesAre(s[1..]);
    }
  }

  // ---------------------------------------------------------------- lines and files

  function SplitLines(s: string): (r: seq<string>)
    ensures |r| > 0
  {
    if s == "" then [""] else
    var rest := SplitLines(s[1..]);
    if s[0] == '\n' then [""] + rest else [[s[0]] + rest[0]] + rest[1..]
  }

  function JoinLines(lines: seq<string>): string {
    if lines == [] then "" else lines[0] + "\n" + JoinLines(lines[1..])
  }

  lemma {:induction false} SplitOne(line: string, rest: string)
    requires '\n' !in line
    ensures SplitLines(line + "\n" + rest) == [line] + SplitLines(rest)
  {
    var s := line + "\n" + rest;
    if line == "" {
      assert s[0] == '\n' && s[1..] == rest;
    } else {
      assert s[0] == line[0] && s[1..] == line[1..] + "\n" + rest;
      SplitOne(line[1..], rest);
      assert [line[0]] + line[1..] == line;
    }
  }

  lemma {:induction false} SplitJoin(lines: seq<string>)
    requires forall i :: 0 <= i < |lines| ==> '\n' !in lines[i]
    ensures SplitLines(JoinLines(lines)) == lines + [""]
  {
    if lines != [] {
      SplitJoin(lines[1..]);
      SplitOne(lines[0], JoinLines(lines[1..]));
      assert [lines[0]] + (lines[1..] + [""]) == lines + [""];
    }
  }

  function Glued(lines: seq<string>): string
    requires lines != []
  {
    if |lines| == 1 then lines[0] else lines[0] + "\n" + Glued(lines[1..])
  }

  /** Any text is its lines with newlines between them, and no line holds one. */
  lemma {:induction false} SplitIs(s: string)
    ensures Glued(SplitLines(s)) == s && forall i :: 0 <= i < |SplitLines(s)| ==> '\n' !in SplitLines(s)[i]
  {
    if s != "" {
      var rest := SplitLines(s[1..]);
      SplitIs(s[1..]);
      assert s == [s[0]] + s[1..];
      if s[0] == '\n' {
        assert ([""] + rest)[1..] == rest;
      } else {
        assert ([[s[0]] + rest[0]] + rest[1..])[1..] == rest[1..];
      }
    }
  }

  function ReadLines(raw: seq<string>): seq<Line> {
    seq(|raw|, i requires 0 <= i < |raw| => ReadLine(raw[i]))
  }

  function WriteLines(lines: seq<Line>): seq<string> {
    seq(|lines|, i requires 0 <= i < |lines| => WriteLine(lines[i]))
  }

  /** The parser; None is an error. */
  method ParseSimpleYAML(scalar: Reader, content: string) returns (r: Option<State>)
    ensures r == ApplyAll(scalar, START, ReadLines(SplitLines(content)))
  {
    var raw, state, i := SplitLines(content), START, 0;
    ghost var lines := ReadLines(raw);
    while i < |raw|
      invariant i <= |raw| && InHeap(state)
      invariant ApplyAll(scalar, START, lines) == ApplyAll(scalar, state, lines[i..])
    {
      var next := Apply(scalar, state, ReadLine(raw[i]));
      assert lines[i..][0] == ReadLine(raw[i]) && lines[i..][1..] == lines[i + 1..];
      if next.None? {
        return None;
      }
      state, i := next.value, i + 1;
    }
    return Some(state);
  }

  /** The tree a file holds. */
  ghost function Parse(scalar: Reader, content: string): Option<Tree> {
    var r := ApplyAll(scalar, START, ReadLines(SplitLines(content)));
    if r.None? then None else if |r.value.heap| == 0 then None else Some(Resolve(r.value.heap, 0))
  }

  // ---------------------------------------------------------------- round trip

  ghost predicate GoodDoc(doc: Doc) {
    match doc
    case End => true
    case Field(k, text, rest) => GoodKey(k) && GoodText(text) && GoodDoc(rest)
    case Section(k, body, rest) => GoodKey(k) && GoodDoc(body) && GoodDoc(rest)
  }

  lemma {:induction false} GoodLines(doc: Doc, depth: nat)
    requires GoodDoc(doc)
    ensures Written(doc) && forall i :: 0 <= i < |Lines(doc, depth)| ==> GoodLine(Lines(doc, depth)[i])
    decreases doc
  {
    match doc
    case End =>
    case Field(_, _, rest) =>
      GoodLines(rest, depth);
    case Section(_, body, rest) =>
      GoodLines(body, depth + 1);
      GoodLines(rest, depth);
  }

  function Render(doc: Doc): string {
    JoinLines(WriteLines(Lines(doc, 0)))
  }

  lemma WrittenOnOneLine(l: Line)
    requires GoodLine(l)
    ensures '\n' !in WriteLine(l)
  {
  }

  lemma LinesReadBack(lines: seq<Line>)
    requires forall i :: 0 <= i < |lines| ==> GoodLine(lines[i])
    ensures ReadLines(SplitLines(JoinLines(WriteLines(lines)))) == lines + [Skipped]
  {
    var raw := WriteLines(lines);
    forall i | 0 <= i < |raw| ensures '\n' !in raw[i] && ReadLine(raw[i]) == lines[i] {
      WrittenOnOneLine(lines[i]);
      LineReadsBack(lines[i]);
    }
    SplitJoin(raw);
    assert ReadLine("") == Skipped;
  }

  /** Printing any nested document and parsing the text gives back what the document means. */
  lemma {:induction false} RoundTrip(scalar: Reader, doc: Doc)
    requires GoodDoc(doc)
    ensures Parse(scalar, Render(doc)) == Some(Meaning(scalar, map[], doc))
  {
    GoodLines(doc, 0);
    LinesReadBack(Lines(doc, 0));
    ReadsBack(scalar, START, doc, 0, 0);
    var s := ApplyAll(scalar, START, Lines(doc, 0)).value;
    ApplyAllConcat(scalar, START, Lines(doc, 0), [Skipped]);
    assert ApplyAll(scalar, s, [Skipped]) == Some(s);
    assert Resolve(START.heap, 0) == map[];
  }
}
