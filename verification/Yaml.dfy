/** The configuration file format: the indentation parser driven by a section stack, and a
    printer whose output it reads back (internal/config/vipercompat/viper.go). */
module Yaml {
  import opened Text
  import opened Scalars
  import opened ConfigTree

  // ---------------------------------------------------------------- lines

  predicate IsLineBlank(c: char) { c == ' ' || c == '\t' || c == '\r' }

  function LeadingSpaces(s: string): nat {
    if s != "" && s[0] == ' ' then 1 + LeadingSpaces(s[1..]) else 0
  }

  /** The position of the first colon, or the length if there is none. */
  function ColonAt(s: string): (n: nat)
    ensures n <= |s| && (n < |s| ==> s[n] == ':')
  {
    if s == "" || s[0] == ':' then 0 else 1 + ColonAt(s[1..])
  }

  /** What one line says. A header is an entry with an empty value. */
  datatype Line = Skipped | Rejected | Entry(indent: nat, key: string, value: string)

  function ReadLine(raw: string): Line {
    var line := TrimRight(raw, IsLineBlank);
    var trimmed := TrimSpace(line);
    if trimmed == "" || trimmed[0] == '#' then Skipped
    else if trimmed[0] == '-' then Rejected
    else if LeadingSpaces(line) % 2 != 0 then Rejected
    else
      var n := ColonAt(trimmed);
      if n == |trimmed| || TrimSpace(trimmed[..n]) == "" then Rejected
      else Entry(LeadingSpaces(line), TrimSpace(trimmed[..n]), TrimSpace(trimmed[n + 1..]))
  }

  // ---------------------------------------------------------------- the parser's state

  /** The maps the parser has made, numbered in order of creation, so that a map reached by two
      ways is one map: an entry holds a scalar or the number of another map. */
  datatype Cell = Scalar(value: Scalar) | Ref(node: nat)

  type Heap = seq<map<string, Cell>>

  /** `sections[i]` is the map that lines indented two deeper than `i` go into; -1 is the root. */
  datatype State = State(heap: Heap, sections: map<int, nat>)

  const START := State([map[]], map[-1 := 0])

  type Reader = string -> Scalar

  function ParentOf(indent: nat): int {
    if indent < 2 then -1 else indent - 2
  }

  function Shallow(sections: map<int, nat>, indent: nat): map<int, nat> {
    map l | l in sections && l <= indent :: sections[l]
  }

  ghost predicate InHeap(s: State) {
    forall l :: l in s.sections ==> s.sections[l] < |s.heap|
  }

  /** Every reference points to a map made later. */
  ghost predicate Forward(h: Heap) {
    forall i, k :: 0 <= i < |h| && k in h[i] && h[i][k].Ref? ==> i < h[i][k].node < |h|
  }

  /** The effect of one line; None is an error. */
  function Apply(scalar: Reader, s: State, line: Line): (r: Option<State>)
    requires InHeap(s)
    ensures r.Some? ==> InHeap(r.value)
    ensures r.Some? && Forward(s.heap) ==> Forward(r.value.heap)
  {
    match line
    case Skipped => Some(s)
    case Rejected => None
    case Entry(indent, key, value) =>
      if ParentOf(indent) !in s.sections then None else
      var parent := s.sections[ParentOf(indent)];
      if value == "" then
        var child := |s.heap|;
        Some(State(s.heap[parent := s.heap[parent][key := Ref(child)]] + [map[]], s.sections[indent := child]))
      else
        Some(State(s.heap[parent := s.heap[parent][key := Scalar(scalar(value))]], Shallow(s.sections, indent)))
  }

  function ApplyAll(scalar: Reader, s: State, lines: seq<Line>): (r: Option<State>)
    requires InHeap(s)
    ensures r.Some? ==> InHeap(r.value)
    ensures r.Some? && Forward(s.heap) ==> Forward(r.value.heap)
    decreases lines
  {
    if lines == [] then Some(s) else
    var next := Apply(scalar, s, lines[0]);
    if next.None? then None else ApplyAll(scalar, next.value, lines[1..])
  }

  // ---------------------------------------------------------------- trees in the heap

  ghost function Resolve(h: Heap, i: nat): Tree
    requires Forward(h) && i < |h|
    decreases |h| - i
  {
    map k | k in h[i] :: ResolveCell(h, i, k)
  }

  ghost function ResolveCell(h: Heap, i: nat, k: string): Value
    requires Forward(h) && i < |h| && k in h[i]
    decreases |h| - i, 0
  {
    match h[i][k]
    case Scalar(s) => Leaf(s)
    case Ref(j) => Node(Resolve(h, j))
  }

  /** A tree depends only on the maps made after its own. */
  lemma {:induction false} ResolveFrame(h: Heap, h': Heap, i: nat)
    requires Forward(h) && Forward(h') && i < |h| <= |h'|
    requires forall j :: i <= j < |h| ==> h'[j] == h[j]
    ensures Resolve(h', i) == Resolve(h, i)
    decreases |h| - i
  {
    forall k | k in h[i] ensures ResolveCell(h', i, k) == ResolveCell(h, i, k) {
      if h[i][k].Ref? {
        ResolveFrame(h, h', h[i][k].node);
      }
    }
  }

  /** Changing one entry of a map, and making new maps, changes one entry of its tree. */
  lemma ResolveUpdate(h: Heap, h': Heap, p: nat, key: string, cell: Cell)
    requires Forward(h) && Forward(h') && p < |h| <= |h'|
    requires h'[p] == h[p][key := cell] && forall j :: 0 <= j < |h| && j != p ==> h'[j] == h[j]
    ensures Resolve(h', p) == Resolve(h, p)[key := ResolveCell(h', p, key)]
  {
    forall k | k in h[p] && k != key ensures ResolveCell(h', p, k) == ResolveCell(h, p, k) {
      if h[p][k].Ref? {
        ResolveFrame(h, h', h[p][k].node);
      }
    }
  }

  // ---------------------------------------------------------------- documents

  /** A nested document in the order it is written; `text` is a scalar as written. */
  datatype Doc = End | Field(key: string, text: string, rest: Doc) | Section(key: string, body: Doc, rest: Doc)

  /** What a document means: later entries replace earlier ones of the same key. */
  function Meaning(scalar: Reader, t: Tree, doc: Doc): Tree
    decreases doc
  {
    match doc
    case End => t
    case Field(k, text, rest) => Meaning(scalar, t[k := Leaf(scalar(text))], rest)
    case Section(k, body, rest) => Meaning(scalar, t[k := Node(Meaning(scalar, map[], body))], rest)
  }

  /** The lines of a document, each level two spaces deeper. */
  function Lines(doc: Doc, depth: nat): seq<Line>
    decreases doc
  {
    match doc
    case End => []
    case Field(k, text, rest) => [Entry(2 * depth, k, text)] + Lines(rest, depth)
    case Section(k, body, rest) => [Entry(2 * depth, k, "")] + (Lines(body, depth + 1) + Lines(rest, depth))
  }

  ghost predicate Written(doc: Doc) {
    match doc
    case End => true
    case Field(_, text, rest) => text != "" && Written(rest)
    case Section(_, body, rest) => Written(body) && Written(rest)
  }

  lemma {:induction false} ApplyAllConcat(scalar: Reader, s: State, a: seq<Line>, b: seq<Line>)
    requires InHeap(s)
    ensures ApplyAll(scalar, s, a + b)
         == var mid := ApplyAll(scalar, s, a); if mid.None? then None else ApplyAll(scalar, mid.value, b)
    decreases a
  {
    if a == [] {
      assert a + b == b;
    } else {
      assert (a + b)[0] == a[0] && (a + b)[1..] == a[1..] + b;
      var next := Apply(scalar, s, a[0]);
      if next.Some? {
        ApplyAllConcat(scalar, next.value, a[1..], b);
      }
    }
  }

  /** The parser is about to read entries at `depth` into map `p`. */
  ghost predicate Ready(s: State, depth: nat, p: nat) {
    && InHeap(s) && Forward(s.heap)
    && ParentOf(2 * depth) in s.sections && s.sections[ParentOf(2 * depth)] == p
  }

  /** Nothing but map `p`, new maps and deeper sections has changed. */
  ghost predicate OnlyAt(s: State, s': State, depth: nat, p: nat) {
    && |s.heap| <= |s'.heap|
    && (forall i :: 0 <= i < |s.heap| && i != p ==> s'.heap[i] == s.heap[i])
    && (forall l :: l < 2 * depth ==> (l in s'.sections <==> l in s.sections))
    && (forall l :: l < 2 * depth && l in s.sections ==> s'.sections[l] == s.sections[l])
  }

  lemma FieldStep(scalar: Reader, s: State, depth: nat, p: nat, key: string, text: string)
    requires Ready(s, depth, p) && text != ""
    ensures var next := Apply(scalar, s, Entry(2 * depth, key, text));
            && next.Some? && Ready(next.value, depth, p) && OnlyAt(s, next.value, depth, p)
            && Resolve(next.value.heap, p) == Resolve(s.heap, p)[key := Leaf(scalar(text))]
  {
    var next := Apply(scalar, s, Entry(2 * depth, key, text)).value;
    ResolveUpdate(s.heap, next.heap, p, key, Scalar(scalar(text)));
  }

  lemma HeaderStep(scalar: Reader, s: State, depth: nat, p: nat, key: string)
    requires Ready(s, depth, p)
    ensures var next := Apply(scalar, s, Entry(2 * depth, key, ""));
            && next.Some? && Ready(next.value, depth, p) && Ready(next.value, depth + 1, |s.heap|)
            && OnlyAt(s, next.value, depth, p)
            && |next.value.heap| == |s.heap| + 1 && next.value.heap[p] == s.heap[p][key := Ref(|s.heap|)]
            && Resolve(next.value.heap, |s.heap|) == map[]
  {
  }

  /** A finished section: the body has filled the child, and the parent has one new entry. */
  lemma SectionFilled(s: State, mid: State, after: State, depth: nat, p: nat, key: string, sub: Tree)
    requires Ready(s, depth, p) && Ready(mid, depth, p) && OnlyAt(s, mid, depth, p)
    requires |mid.heap| == |s.heap| + 1 && mid.heap[p] == s.heap[p][key := Ref(|s.heap|)]
    requires InHeap(after) && Forward(after.heap) && OnlyAt(mid, after, depth + 1, |s.heap|)
    requires Resolve(after.heap, |s.heap|) == sub
    ensures Ready(after, depth, p) && OnlyAt(s, after, depth, p)
    ensures Resolve(after.heap, p) == Resolve(s.heap, p)[key := Node(sub)]
  {
    assert after.heap[p] == mid.heap[p];
    ResolveUpdate(s.heap, after.heap, p, key, Ref(|s.heap|));
  }

  /** Any nested document, printed at any depth, is read back as what it means. */
  lemma {:induction false} ReadsBack(scalar: Reader, s: State, doc: Doc, depth: nat, p: nat)
    requires Ready(s, depth, p) && Written(doc)
    ensures var r := ApplyAll(scalar, s, Lines(doc, depth));
            && r.Some? && Ready(r.value, depth, p) && OnlyAt(s, r.value, depth, p)
            && Resolve(r.value.heap, p) == Meaning(scalar, Resolve(s.heap, p), doc)
    decreases doc
  {
    match doc
    case End =>
    case Field(k, text, rest) =>
      FieldStep(scalar, s, depth, p, k, text);
      var next := Apply(scalar, s, Entry(2 * depth, k, text)).value;
      ReadsBack(scalar, next, rest, depth, p);
      assert Lines(doc, depth)[1..] == Lines(rest, depth);
    case Section(k, body, rest) =>
      HeaderStep(scalar, s, depth, p, k);
      var mid := Apply(scalar, s, Entry(2 * depth, k, "")).value;
      ReadsBack(scalar, mid, body, depth + 1, |s.heap|);
      var after := ApplyAll(scalar, mid, Lines(body, depth + 1)).value;
      SectionFilled(s, mid, after, depth, p, k, Meaning(scalar, map[], body));
      ReadsBack(scalar, after, rest, depth, p);
      ApplyAllConcat(scalar, mid, Lines(body, depth + 1), Lines(rest, depth));
      assert Lines(doc, depth)[1..] == Lines(body, depth + 1) + Lines(rest, depth);
  }
}
