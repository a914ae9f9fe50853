/** When the parser's section stack puts every line where its indentation says
    (internal/config/vipercompat/viper.go). */
module Indentation {
  import opened Text
  import opened Yaml
  import opened YamlText

  // ---------------------------------------------------------------- the parser, line by line

  /** The parser's state before line `n`; None if an earlier line was an error. */
  function StateAt(scalar: Reader, lines: seq<Line>, n: nat): (r: Option<State>)
    requires n <= |lines|
    ensures r.Some? ==> InHeap(r.value)
  {
    if n == 0 then Some(START) else
    var before := StateAt(scalar, lines, n - 1);
    if before.None? then None else Apply(scalar, before.value, lines[n - 1])
  }

  lemma {:induction false} StateAtApplies(scalar: Reader, lines: seq<Line>, n: nat)
    requires n <= |lines|
    ensures StateAt(scalar, lines, n) == ApplyAll(scalar, START, lines[..n])
  {
    if n > 0 {
      StateAtApplies(scalar, lines, n - 1);
      ApplyAllConcat(scalar, START, lines[..n - 1], [lines[n - 1]]);
      assert lines[..n - 1] + [lines[n - 1]] == lines[..n];
      assert [lines[n - 1]][1..] == [];
    }
  }

  lemma {:induction false} AcceptedBefore(scalar: Reader, lines: seq<Line>, n: nat, m: nat)
    requires m <= n <= |lines| && StateAt(scalar, lines, n).Some?
    ensures StateAt(scalar, lines, m).Some?
  {
    if m < n {
      AcceptedBefore(scalar, lines, n - 1, m);
    }
  }

  /** What the line reader guarantees: indentation in two-space levels. */
  predicate TwoSpaced(lines: seq<Line>) {
    forall n :: 0 <= n < |lines| && lines[n].Entry? ==> lines[n].indent % 2 == 0
  }

  lemma ReadLinesTwoSpaced(raw: seq<string>)
    ensures TwoSpaced(ReadLines(raw))
  {
  }

  // ---------------------------------------------------------------- where a line should go

  predicate IsHeader(l: Line) { l.Entry? && l.value == "" }

  /** The last line before `n` that is indented less than `indent`, or -1. */
  function Enclosing(lines: seq<Line>, n: nat, indent: nat): (m: int)
    requires n <= |lines|
    ensures -1 <= m < n
    ensures m >= 0 ==> lines[m].Entry? && lines[m].indent < indent
  {
    if n == 0 then -1
    else if lines[n - 1].Entry? && lines[n - 1].indent < indent then n - 1
    else Enclosing(lines, n - 1, indent)
  }

  /** The entry before line `n`, or -1: blank lines and comments do not count. */
  function Previous(lines: seq<Line>, n: nat): (m: int)
    requires n <= |lines|
    ensures -1 <= m < n
    ensures m >= 0 ==> lines[m].Entry?
  {
    if n == 0 then -1 else if lines[n - 1].Entry? then n - 1 else Previous(lines, n - 1)
  }

  lemma {:induction false} EnclosingIsLast(lines: seq<Line>, n: nat, indent: nat, k: nat)
    requires n <= |lines| && Enclosing(lines, n, indent) < k < n && lines[k].Entry?
    ensures lines[k].indent >= indent
  {
    if k < n - 1 {
      EnclosingIsLast(lines, n - 1, indent, k);
    }
  }

  lemma {:induction false} PreviousIsLast(lines: seq<Line>, n: nat, k: nat)
    requires n <= |lines| && Previous(lines, n) < k < n
    ensures !lines[k].Entry?
  {
    if k < n - 1 {
      PreviousIsLast(lines, n - 1, k);
    }
  }

  /** An entry right before a line encloses it if it is indented less. */
  lemma {:induction false} PreviousEncloses(lines: seq<Line>, n: nat, indent: nat)
    requires n <= |lines| && Previous(lines, n) >= 0 && lines[Previous(lines, n)].indent < indent
    ensures Enclosing(lines, n, indent) == Previous(lines, n)
  {
    if !lines[n - 1].Entry? {
      PreviousEncloses(lines, n - 1, indent);
    }
  }

  /** The number of the map that header `m` opens: maps are numbered in order of creation. */
  function MapOf(lines: seq<Line>, m: nat): nat
    requires m <= |lines|
  {
    if m == 0 then 1 else MapOf(lines, m - 1) + if IsHeader(lines[m - 1]) then 1 else 0
  }

  /** The map that the parser puts line `n` into, or -1 if it never gets there. */
  function Target(scalar: Reader, lines: seq<Line>, n: nat): int
    requires n < |lines| && lines[n].Entry?
  {
    var s, parent := StateAt(scalar, lines, n), ParentOf(lines[n].indent);
    if s.Some? && parent in s.value.sections then s.value.sections[parent] else -1
  }

  /** Line `n` goes into the map of the header enclosing it, or into the root if nothing does. */
  predicate InPlace(scalar: Reader, lines: seq<Line>, n: nat)
    requires n < |lines| && lines[n].Entry?
  {
    var m := Enclosing(lines, n, lines[n].indent);
    Target(scalar, lines, n) == if m == -1 then 0 else if IsHeader(lines[m]) then MapOf(lines, m) else -1
  }

  predicate AllInPlace(scalar: Reader, lines: seq<Line>) {
    forall n :: 0 <= n < |lines| && lines[n].Entry? ==> InPlace(scalar, lines, n)
  }

  /** A line may go one level deeper than the header before it and no deeper than the scalar
      before it. */
  predicate Follows(lines: seq<Line>, n: nat)
    requires n < |lines| && lines[n].Entry?
  {
    var p := Previous(lines, n);
    p >= 0 ==> lines[n].indent <= lines[p].indent + if IsHeader(lines[p]) then 2 else 0
  }

  predicate Indented(lines: seq<Line>) {
    forall n :: 0 <= n < |lines| && lines[n].Entry? ==> Follows(lines, n)
  }

  // ---------------------------------------------------------------- what the stack holds

  /** Maps are numbered in order, and the root stays at the bottom of the stack. */
  lemma {:induction false} StackShape(scalar: Reader, lines: seq<Line>, n: nat)
    requires n <= |lines| && StateAt(scalar, lines, n).Some?
    ensures var s := StateAt(scalar, lines, n).value;
            |s.heap| == MapOf(lines, n) && -1 in s.sections && s.sections[-1] == 0
  {
    if n > 0 {
      StackShape(scalar, lines, n - 1);
    }
  }

  /** A section is only open below an entry at the margin. */
  lemma {:induction false} OpenBelowMargin(scalar: Reader, lines: seq<Line>, n: nat, l: nat)
    requires n <= |lines| && StateAt(scalar, lines, n).Some? && TwoSpaced(lines)
    requires l in StateAt(scalar, lines, n).value.sections
    ensures Enclosing(lines, n, 1) >= 0
    decreases n
  {
    if n > 0 {
      var before := StateAt(scalar, lines, n - 1).value.sections;
      if l in before {
        OpenBelowMargin(scalar, lines, n - 1, l);
      } else if lines[n - 1].indent >= 2 {
        OpenBelowMargin(scalar, lines, n - 1, lines[n - 1].indent - 2);
      }
    }
  }

  lemma {:induction false} EnclosedDeeper(lines: seq<Line>, n: nat, i: nat)
    requires n <= |lines| && i >= 1 && Enclosing(lines, n, 1) >= 0
    ensures Enclosing(lines, n, i) >= 0
  {
    if n > 0 && !(lines[n - 1].Entry? && lines[n - 1].indent < i) {
      EnclosedDeeper(lines, n - 1, i);
    }
  }

  /** A header's map stays on the stack while everything after it is indented deeper. */
  lemma {:induction false} SectionKept(scalar: Reader, lines: seq<Line>, m: nat, n: nat)
    requires m < n <= |lines| && StateAt(scalar, lines, n).Some? && TwoSpaced(lines) && IsHeader(lines[m])
    requires forall k :: m < k < n && lines[k].Entry? ==> lines[k].indent > lines[m].indent
    ensures var s := StateAt(scalar, lines, n).value;
            lines[m].indent in s.sections && s.sections[lines[m].indent] == MapOf(lines, m)
  {
    if n == m + 1 {
      StackShape(scalar, lines, m);
    } else {
      SectionKept(scalar, lines, m, n - 1);
    }
  }

  /** Lines that are no entries change nothing. */
  lemma {:induction false} Idle(scalar: Reader, lines: seq<Line>, m: nat, n: nat)
    requires m <= n <= |lines| && StateAt(scalar, lines, n).Some? && forall k :: m <= k < n ==> !lines[k].Entry?
    ensures StateAt(scalar, lines, m) == StateAt(scalar, lines, n)
  {
    if m < n {
      Idle(scalar, lines, m, n - 1);
    }
  }

  lemma {:induction false} IdleSincePrevious(scalar: Reader, lines: seq<Line>, n: nat)
    requires n <= |lines| && StateAt(scalar, lines, n).Some? && Previous(lines, n) >= 0
    ensures StateAt(scalar, lines, Previous(lines, n) + 1) == StateAt(scalar, lines, n)
  {
    NoneSince(lines, n);
    Idle(scalar, lines, Previous(lines, n) + 1, n);
  }

  lemma {:induction false} NoneSince(lines: seq<Line>, n: nat)
    requires n <= |lines|
    ensures forall k :: Previous(lines, n) < k < n ==> 0 <= k && !lines[k].Entry?
  {
    forall k | Previous(lines, n) < k < n ensures 0 <= k && !lines[k].Entry? {
      PreviousIsLast(lines, n, k);
    }
  }

  // ---------------------------------------------------------------- one line

  /** The first entry after `m`, at the latest `n`. */
  lemma {:induction false} NextEntry(lines: seq<Line>, m: nat, n: nat) returns (k: nat)
    requires m < n < |lines| && lines[m].Entry? && lines[n].Entry?
    ensures m < k <= n && lines[k].Entry? && Previous(lines, k) == m
    decreases n
  {
    var p := Previous(lines, n);
    if p < m {
      PreviousIsLast(lines, n, m);
    } else if p == m {
      k := n;
    } else {
      k := NextEntry(lines, m, p);
    }
  }

  /** The line after what encloses `n` tells that it is a header one level up. */
  lemma OneLevelUp(lines: seq<Line>, m: nat, k: nat, n: nat)
    requires m < k <= n < |lines| && lines[m].Entry? && lines[k].Entry? && lines[n].Entry?
    requires Previous(lines, k) == m && Follows(lines, k)
    requires lines[m].indent < lines[n].indent <= lines[k].indent && lines[m].indent % 2 == lines[n].indent % 2 == 0
    ensures IsHeader(lines[m]) && lines[m].indent == ParentOf(lines[n].indent)
  {
  }

  /** What encloses a line of a properly indented file is a header one level up. */
  lemma {:induction false} EnclosedByHeader(lines: seq<Line>, n: nat)
    requires n < |lines| && lines[n].Entry? && TwoSpaced(lines) && Indented(lines)
    ensures var m := Enclosing(lines, n, lines[n].indent);
            m >= 0 ==> IsHeader(lines[m]) && lines[m].indent == ParentOf(lines[n].indent)
  {
    var m := Enclosing(lines, n, lines[n].indent);
    if m >= 0 {
      var k := NextEntry(lines, m, n);
      if k < n {
        EnclosingIsLast(lines, n, lines[n].indent, k);
      }
      OneLevelUp(lines, m, k, n);
    }
  }

  /** Only lines at the margin have nothing around them. */
  lemma {:induction false} OutermostAtMargin(scalar: Reader, lines: seq<Line>, n: nat)
    requires n < |lines| && lines[n].Entry? && StateAt(scalar, lines, n + 1).Some? && TwoSpaced(lines)
    requires Enclosing(lines, n, lines[n].indent) == -1
    ensures Target(scalar, lines, n) == 0
  {
    StackShape(scalar, lines, n);
    if lines[n].indent >= 2 {
      OpenBelowMargin(scalar, lines, n, lines[n].indent - 2);
      EnclosedDeeper(lines, n, lines[n].indent);
    }
  }

  /** A properly indented line goes where it should. */
  lemma {:induction false} GoesHome(scalar: Reader, lines: seq<Line>, n: nat)
    requires n < |lines| && lines[n].Entry? && StateAt(scalar, lines, n + 1).Some?
    requires TwoSpaced(lines) && Indented(lines)
    ensures InPlace(scalar, lines, n)
  {
    var m := Enclosing(lines, n, lines[n].indent);
    if m == -1 {
      OutermostAtMargin(scalar, lines, n);
    } else {
      EnclosedByHeader(lines, n);
      forall k | m < k < n && lines[k].Entry? ensures lines[k].indent > lines[m].indent {
        EnclosingIsLast(lines, n, lines[n].indent, k);
      }
      SectionKept(scalar, lines, m, n);
    }
  }

  /** Right after a header the only way into its map is one level deeper. */
  lemma NewestMap(scalar: Reader, lines: seq<Line>, p: nat, i: nat)
    requires p < |lines| && IsHeader(lines[p]) && StateAt(scalar, lines, p + 1).Some? && TwoSpaced(lines)
    requires i % 2 == 0 && i > lines[p].indent && ParentOf(i) in StateAt(scalar, lines, p + 1).value.sections
    requires StateAt(scalar, lines, p + 1).value.sections[ParentOf(i)] == MapOf(lines, p)
    ensures i == lines[p].indent + 2
  {
    StackShape(scalar, lines, p);
  }

  /** A line deeper than the one before it goes into that one's map only if it is a header one
      level up. */
  lemma DeeperIsNext(scalar: Reader, lines: seq<Line>, p: nat, n: nat)
    requires p < n < |lines| && lines[p].Entry? && lines[n].Entry? && lines[n].indent > lines[p].indent
    requires StateAt(scalar, lines, n + 1).Some? && StateAt(scalar, lines, p + 1) == StateAt(scalar, lines, n) && TwoSpaced(lines)
    requires Target(scalar, lines, n) == if IsHeader(lines[p]) then MapOf(lines, p) else -1
    ensures IsHeader(lines[p]) && lines[n].indent == lines[p].indent + 2
  {
    assert ParentOf(lines[n].indent) in StateAt(scalar, lines, n).value.sections;
    NewestMap(scalar, lines, p, lines[n].indent);
  }

  /** A line that goes where it should is properly indented. */
  lemma {:induction false} HomeIsIndented(scalar: Reader, lines: seq<Line>, n: nat)
    requires n < |lines| && lines[n].Entry? && StateAt(scalar, lines, n + 1).Some?
    requires TwoSpaced(lines) && InPlace(scalar, lines, n)
    ensures Follows(lines, n)
  {
    var p, i := Previous(lines, n), lines[n].indent;
    if p >= 0 && i > lines[p].indent {
      PreviousEncloses(lines, n, i);
      IdleSincePrevious(scalar, lines, n);
      DeeperIsNext(scalar, lines, p, n);
    }
  }

  /** Every entry of an accepted file lands in the map of its enclosing header if and only if no
      line is indented more than one level past the header before it, or at all past the scalar
      before it. */
  lemma PlacedIffIndented(scalar: Reader, lines: seq<Line>)
    requires ApplyAll(scalar, START, lines).Some? && TwoSpaced(lines)
    ensures AllInPlace(scalar, lines) <==> Indented(lines)
  {
    StateAtApplies(scalar, lines, |lines|);
    assert lines[..|lines|] == lines;
    forall n | 0 <= n < |lines| && lines[n].Entry?
      ensures Indented(lines) ==> InPlace(scalar, lines, n)
      ensures InPlace(scalar, lines, n) ==> Follows(lines, n)
    {
      AcceptedBefore(scalar, lines, |lines|, n + 1);
      if Indented(lines) {
        GoesHome(scalar, lines, n);
      }
      if InPlace(scalar, lines, n) {
        HomeIsIndented(scalar, lines, n);
      }
    }
  }

  /** The same for the text of a file. */
  lemma FilePlacedIffIndented(scalar: Reader, content: string)
    requires Parse(scalar, content).Some?
    ensures var lines := ReadLines(SplitLines(content));
            AllInPlace(scalar, lines) <==> Indented(lines)
  {
    ReadLinesTwoSpaced(SplitLines(content));
    PlacedIffIndented(scalar, ReadLines(SplitLines(content)));
  }

  // ---------------------------------------------------------------- printed documents

  predicate Steps(a: Line, b: Line) {
    a.Entry? && b.Entry? && b.indent <= a.indent + if IsHeader(a) then 2 else 0
  }

  predicate AllStep(lines: seq<Line>) {
    forall n :: 0 < n < |lines| ==> Steps(lines[n - 1], lines[n])
  }

  /** All lines are entries at `margin` or deeper, and the first is at `margin`. */
  predicate Block(lines: seq<Line>, margin: nat) {
    && (forall n :: 0 <= n < |lines| ==> lines[n].Entry? && lines[n].indent >= margin)
    && (lines != [] ==> lines[0].indent == margin)
    && AllStep(lines)
  }

  lemma BlockConcat(a: seq<Line>, b: seq<Line>, margin: nat)
    requires Block(a, margin) && Block(b, margin)
    ensures Block(a + b, margin)
  {
  }

  lemma BlockUnderHeader(header: Line, body: seq<Line>, margin: nat)
    requires IsHeader(header) && header.indent == margin && Block(body, margin + 2)
    ensures Block([header] + body, margin)
  {
  }

  lemma {:induction false} LinesAreBlock(doc: Doc, depth: nat)
    ensures Block(Lines(doc, depth), 2 * depth)
    decreases doc
  {
    match doc
    case End =>
    case Field(k, text, rest) =>
      LinesAreBlock(rest, depth);
      BlockConcat([Entry(2 * depth, k, text)], Lines(rest, depth), 2 * depth);
    case Section(k, body, rest) =>
      var header := Entry(2 * depth, k, "");
      LinesAreBlock(body, depth + 1);
      LinesAreBlock(rest, depth);
      BlockUnderHeader(header, Lines(body, depth + 1), 2 * depth);
      BlockConcat([header] + Lines(body, depth + 1), Lines(rest, depth), 2 * depth);
      assert Lines(doc, depth) == [header] + Lines(body, depth + 1) + Lines(rest, depth);
  }

  /** The printer meets the condition: every document is properly indented. */
  lemma PrintedIsIndented(doc: Doc)
    ensures Indented(Lines(doc, 0))
  {
    LinesAreBlock(doc, 0);
    var lines := Lines(doc, 0);
    forall n | 0 <= n < |lines| ensures Follows(lines, n) {
      if n > 0 {
        assert Previous(lines, n) == n - 1 && Steps(lines[n - 1], lines[n]);
      }
    }
  }

  // ---------------------------------------------------------------- the two ways to get it wrong

  lemma FollowsNeighbour(lines: seq<Line>, n: nat)
    requires 0 < n < |lines| && lines[n - 1].Entry? && lines[n].Entry?
    ensures Follows(lines, n) <==> lines[n].indent <= lines[n - 1].indent + if IsHeader(lines[n - 1]) then 2 else 0
  {
  }

  /** The state after line `n`, written out. */
  lemma Becomes(scalar: Reader, lines: seq<Line>, n: nat, s: State)
    requires n < |lines| && StateAt(scalar, lines, n).Some?
    requires var next := Apply(scalar, StateAt(scalar, lines, n).value, lines[n]);
             next.Some? && next.value.heap == s.heap && next.value.sections == s.sections
    ensures StateAt(scalar, lines, n + 1) == Some(s)
  {
  }

  lemma FourLines(scalar: Reader, a: Line, b: Line, c: Line, d: Line)
    ensures StateAt(scalar, [a, b, c, d], 4) == ApplyAll(scalar, START, [a, b, c, d])
  {
    StateAtApplies(scalar, [a, b, c, d], 4);
    assert [a, b, c, d][..4] == [a, b, c, d];
  }

  /** A header leaves the deeper sections of the one before it open, so a line two levels below
      it lands in the old section: `d` goes under `a.b`, not under `c`. */
  lemma StaleSection(scalar: Reader, a: string, b: string, c: string, d: string, text: string)
    requires a != c && text != ""
    ensures var lines := [Entry(0, a, ""), Entry(2, b, ""), Entry(0, c, ""), Entry(4, d, text)];
            var r := ApplyAll(scalar, START, lines);
            && !Follows(lines, 3)
            && r.Some? && r.value.heap == [map[a := Ref(1), c := Ref(3)], map[b := Ref(2)], map[d := Scalar(scalar(text))], map[]]
  {
    var lines := [Entry(0, a, ""), Entry(2, b, ""), Entry(0, c, ""), Entry(4, d, text)];
    FollowsNeighbour(lines, 3);
    StaleStates(scalar, lines, a, b, c, d, text);
    FourLines(scalar, lines[0], lines[1], lines[2], lines[3]);
  }

  lemma StaleStates(scalar: Reader, lines: seq<Line>, a: string, b: string, c: string, d: string, text: string)
    requires a != c && text != "" && |lines| == 4 && lines[0] == Entry(0, a, "") && lines[1] == Entry(2, b, "")
    requires lines[2] == Entry(0, c, "") && lines[3] == Entry(4, d, text)
    ensures var r := StateAt(scalar, lines, 4);
            r.Some? && r.value.heap == [map[a := Ref(1), c := Ref(3)], map[b := Ref(2)], map[d := Scalar(scalar(text))], map[]]
  {
    var s1 := State([map[a := Ref(1)], map[]], map[-1 := 0, 0 := 1]);
    var s2 := State([map[a := Ref(1)], map[b := Ref(2)], map[]], map[-1 := 0, 0 := 1, 2 := 2]);
    var s3 := State([map[a := Ref(1), c := Ref(3)], map[b := Ref(2)], map[], map[]], map[-1 := 0, 0 := 3, 2 := 2]);
    Becomes(scalar, lines, 0, s1);
    Becomes(scalar, lines, 1, s2);
    Becomes(scalar, lines, 2, s3);
  }

  /** A scalar keeps the section of its own level open, so a line below it lands in the section
      before it: `y` goes under `a`, although `b` comes between. */
  lemma ScalarKeepsSection(scalar: Reader, a: string, x: string, b: string, y: string, text: string)
    requires a != b && text != ""
    ensures var lines := [Entry(0, a, ""), Entry(2, x, text), Entry(0, b, text), Entry(2, y, text)];
            var r, v := ApplyAll(scalar, START, lines), Scalar(scalar(text));
            && !Follows(lines, 3)
            && r.Some? && r.value.heap == [map[a := Ref(1), b := v], map[x := v, y := v]]
  {
    var lines := [Entry(0, a, ""), Entry(2, x, text), Entry(0, b, text), Entry(2, y, text)];
    FollowsNeighbour(lines, 3);
    ScalarStates(scalar, lines, a, x, b, y, text);
    FourLines(scalar, lines[0], lines[1], lines[2], lines[3]);
  }

  lemma ScalarStates(scalar: Reader, lines: seq<Line>, a: string, x: string, b: string, y: string, text: string)
    requires a != b && text != "" && |lines| == 4 && lines[0] == Entry(0, a, "") && lines[1] == Entry(2, x, text)
    requires lines[2] == Entry(0, b, text) && lines[3] == Entry(2, y, text)
    ensures var r, v := StateAt(scalar, lines, 4), Scalar(scalar(text));
            r.Some? && r.value.heap == [map[a := Ref(1), b := v], map[x := v, y := v]]
  {
    var v := Scalar(scalar(text));
    var s1 := State([map[a := Ref(1)], map[]], map[-1 := 0, 0 := 1]);
    var s2 := State([map[a := Ref(1)], map[x := v]], map[-1 := 0, 0 := 1]);
    var s3 := State([map[a := Ref(1), b := v], map[x := v]], map[-1 := 0, 0 := 1]);
    Becomes(scalar, lines, 0, s1);
    Becomes(scalar, lines, 1, s2);
    Becomes(scalar, lines, 2, s3);
  }

  // ---------------------------------------------------------------- which files are accepted

  /** Header `m` has opened a section at this level, and no scalar since has closed it. */
  ghost predicate OpenedBy(lines: seq<Line>, n: nat, level: nat, m: nat)
    requires n <= |lines|
  {
    && m < n && IsHeader(lines[m]) && lines[m].indent == level
    && forall k :: m < k < n && lines[k].Entry? && !IsHeader(lines[k]) ==> lines[k].indent >= level
  }

  ghost predicate OpenAt(lines: seq<Line>, n: nat, level: nat)
    requires n <= |lines|
  {
    exists m :: OpenedBy(lines, n, level, m)
  }

  lemma OpenNext(lines: seq<Line>, n: nat, level: nat)
    requires n < |lines|
    ensures OpenAt(lines, n + 1, level) <==>
              var l := lines[n];
              if IsHeader(l) && l.indent == level then true
              else OpenAt(lines, n, level) && (l.Entry? && !IsHeader(l) ==> l.indent >= level)
  {
    var l := lines[n];
    if IsHeader(l) && l.indent == level {
      assert OpenedBy(lines, n + 1, level, n);
    } else {
      var after := n + 1;
      if m: nat :| OpenedBy(lines, after, level, m) {
        assert OpenedBy(lines, n, level, m);
      }
      if m: nat :| OpenedBy(lines, n, level, m) && (l.Entry? && !IsHeader(l) ==> l.indent >= level) {
        assert OpenedBy(lines, n + 1, level, m);
      }
    }
  }

  /** The levels on the stack are those of the headers that are still open. */
  lemma {:induction false} StackIsOpen(scalar: Reader, lines: seq<Line>, n: nat, level: nat)
    requires n <= |lines| && StateAt(scalar, lines, n).Some?
    ensures level in StateAt(scalar, lines, n).value.sections <==> OpenAt(lines, n, level)
  {
    if n > 0 {
      StackIsOpen(scalar, lines, n - 1, level);
      OpenNext(lines, n - 1, level);
    }
  }

  /** A line the parser can take: no list and no malformed line, and its level is open. */
  ghost predicate Acceptable(lines: seq<Line>, n: nat)
    requires n < |lines|
  {
    !lines[n].Rejected? && (lines[n].Entry? && lines[n].indent >= 2 ==> OpenAt(lines, n, lines[n].indent - 2))
  }

  lemma AcceptsNext(scalar: Reader, lines: seq<Line>, n: nat)
    requires n < |lines| && StateAt(scalar, lines, n).Some?
    ensures StateAt(scalar, lines, n + 1).Some? <==> Acceptable(lines, n)
  {
    StackShape(scalar, lines, n);
    if lines[n].Entry? && lines[n].indent >= 2 {
      StackIsOpen(scalar, lines, n, lines[n].indent - 2);
    }
  }

  lemma {:induction false} AcceptedUpTo(scalar: Reader, lines: seq<Line>, n: nat)
    requires n <= |lines|
    ensures StateAt(scalar, lines, n).Some? <==> forall k :: 0 <= k < n ==> Acceptable(lines, k)
  {
    if n > 0 {
      AcceptedUpTo(scalar, lines, n - 1);
      if StateAt(scalar, lines, n - 1).Some? {
        AcceptsNext(scalar, lines, n - 1);
      }
    }
  }

  /** A file is accepted if and only if every line of it is. */
  lemma AcceptedIff(scalar: Reader, content: string)
    ensures var lines := ReadLines(SplitLines(content));
            ApplyAll(scalar, START, lines).Some? <==> forall n :: 0 <= n < |lines| ==> Acceptable(lines, n)
  {
    var lines := ReadLines(SplitLines(content));
    StateAtApplies(scalar, lines, |lines|);
    assert lines[..|lines|] == lines;
    AcceptedUpTo(scalar, lines, |lines|);
  }

  // ---------------------------------------------------------------- comments and blank lines

  function Entries(lines: seq<Line>): seq<Line> {
    if lines == [] then [] else (if lines[0].Skipped? then [] else [lines[0]]) + Entries(lines[1..])
  }

  /** Comments and blank lines might as well not be there. */
  lemma {:induction false} CommentsAreInvisible(scalar: Reader, s: State, lines: seq<Line>)
    requires InHeap(s)
    ensures ApplyAll(scalar, s, lines) == ApplyAll(scalar, s, Entries(lines))
    decreases lines
  {
    if lines != [] {
      var next := Apply(scalar, s, lines[0]);
      if next.Some? {
        CommentsAreInvisible(scalar, next.value, lines[1..]);
      }
      if lines[0].Skipped? {
        assert Entries(lines) == Entries(lines[1..]);
      } else {
        assert Entries(lines)[0] == lines[0] && Entries(lines)[1..] == Entries(lines[1..]);
      }
    }
  }
}
