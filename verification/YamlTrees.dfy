/** Configuration trees as files: which nested trees survive being printed and parsed
    (internal/config/vipercompat/viper.go). */
module YamlTrees {
  import opened Text
  import opened Scalars
  import opened ConfigTree
  import opened Yaml
  import opened YamlText
  import opened AgentConfig

  type ScalarWriter = Scalar -> string

  ghost function Pick(keys: set<string>): (k: string)
    requires keys != {}
    ensures k in keys
  {
    var k :| k in keys;
    k
  }

  /** A document that lists the entries of a section under `keys`, in some order. */
  ghost function TreeDoc(write: ScalarWriter, v: Value, keys: set<string>): Doc
    requires v.Node? && keys <= v.entries.Keys
    decreases v, |keys|
  {
    if keys == {} then End else
    var k := Pick(keys);
    var rest := TreeDoc(write, v, keys - {k});
    match v.entries[k]
    case Leaf(s) => Field(k, write(s), rest)
    case Node(sub) => Section(k, TreeDoc(write, v.entries[k], sub.Keys), rest)
  }

  /** The tree with every scalar written and read again. */
  ghost function Reread(scalar: Reader, write: ScalarWriter, v: Value): Value
    decreases v
  {
    match v
    case Leaf(s) => Leaf(scalar(write(s)))
    case Node(sub) => Node(map k | k in sub :: Reread(scalar, write, sub[k]))
  }

  /** Every scalar of the tree is read back as itself. */
  ghost predicate Faithful(scalar: Reader, write: ScalarWriter, v: Value)
    decreases v
  {
    match v
    case Leaf(s) => scalar(write(s)) == s
    case Node(sub) => forall k :: k in sub ==> Faithful(scalar, write, sub[k])
  }

  ghost predicate GoodTree(write: ScalarWriter, v: Value)
    decreases v
  {
    match v
    case Leaf(s) => GoodText(write(s))
    case Node(sub) => forall k :: k in sub ==> GoodKey(k) && GoodTree(write, sub[k])
  }

  lemma {:induction false} TreeDocGood(write: ScalarWriter, v: Value, keys: set<string>)
    requires v.Node? && keys <= v.entries.Keys && GoodTree(write, v)
    ensures GoodDoc(TreeDoc(write, v, keys))
    decreases v, |keys|
  {
    if keys != {} {
      var k := Pick(keys);
      TreeDocGood(write, v, keys - {k});
      if v.entries[k].Node? {
        TreeDocGood(write, v.entries[k], v.entries[k].entries.Keys);
      }
    }
  }

  ghost function RereadUnder(scalar: Reader, write: ScalarWriter, v: Value, keys: set<string>): Tree
    requires v.Node? && keys <= v.entries.Keys
  {
    map k | k in keys :: Reread(scalar, write, v.entries[k])
  }

  lemma RereadNext(scalar: Reader, write: ScalarWriter, v: Value, keys: set<string>, t: Tree, k: string)
    requires v.Node? && keys <= v.entries.Keys && k in keys
    ensures t[k := Reread(scalar, write, v.entries[k])] + RereadUnder(scalar, write, v, keys - {k})
         == t + RereadUnder(scalar, write, v, keys)
  {
  }

  lemma RereadAll(scalar: Reader, write: ScalarWriter, v: Value)
    requires v.Node?
    ensures map[] + RereadUnder(scalar, write, v, v.entries.Keys) == Reread(scalar, write, v).entries
  {
  }

  /** What the first entry of a document does. */
  lemma MeaningNext(scalar: Reader, write: ScalarWriter, v: Value, keys: set<string>, t: Tree)
    requires v.Node? && keys <= v.entries.Keys && keys != {}
    requires var sub := v.entries[Pick(keys)];
             sub.Node? ==> Meaning(scalar, map[], TreeDoc(write, sub, sub.entries.Keys)) == Reread(scalar, write, sub).entries
    ensures var k := Pick(keys);
            Meaning(scalar, t, TreeDoc(write, v, keys))
            == Meaning(scalar, t[k := Reread(scalar, write, v.entries[k])], TreeDoc(write, v, keys - {k}))
  {
    var k := Pick(keys);
    match v.entries[k]
    case Leaf(s) =>
      assert TreeDoc(write, v, keys) == Field(k, write(s), TreeDoc(write, v, keys - {k}));
    case Node(sub) =>
      assert TreeDoc(write, v, keys) == Section(k, TreeDoc(write, v.entries[k], sub.Keys), TreeDoc(write, v, keys - {k}));
  }

  /** What such a document means: the entries under `keys`, reread. */
  lemma {:induction false} TreeDocMeans(scalar: Reader, write: ScalarWriter, v: Value, keys: set<string>, t: Tree)
    requires v.Node? && keys <= v.entries.Keys
    ensures Meaning(scalar, t, TreeDoc(write, v, keys)) == t + RereadUnder(scalar, write, v, keys)
    decreases v, |keys|
  {
    if keys == {} {
      assert t + RereadUnder(scalar, write, v, keys) == t;
    } else {
      var k := Pick(keys);
      var sub := v.entries[k];
      if sub.Node? {
        TreeDocMeans(scalar, write, sub, sub.entries.Keys, map[]);
        RereadAll(scalar, write, sub);
      }
      MeaningNext(scalar, write, v, keys, t);
      TreeDocMeans(scalar, write, v, keys - {k}, t[k := Reread(scalar, write, sub)]);
      RereadNext(scalar, write, v, keys, t, k);
    }
  }

  lemma WholeTreeMeans(scalar: Reader, write: ScalarWriter, v: Value)
    requires v.Node?
    ensures Meaning(scalar, map[], TreeDoc(write, v, v.entries.Keys)) == Reread(scalar, write, v).entries
  {
    TreeDocMeans(scalar, write, v, v.entries.Keys, map[]);
    RereadAll(scalar, write, v);
  }

  lemma {:induction false} RereadSame(scalar: Reader, write: ScalarWriter, v: Value)
    ensures Reread(scalar, write, v) == v <==> Faithful(scalar, write, v)
    decreases v
  {
    if v.Node? {
      var sub, again := v.entries, Reread(scalar, write, v).entries;
      forall k | k in sub ensures again[k] == sub[k] <==> Faithful(scalar, write, sub[k]) {
        RereadSame(scalar, write, sub[k]);
      }
      assert again.Keys == sub.Keys;
      assert again == sub <==> forall k :: k in sub ==> again[k] == sub[k];
    }
  }

  /** A tree printed with two-space indentation, at any depth, parses back to itself if and only
      if each of its scalars does. */
  lemma TreeRoundTrip(scalar: Reader, write: ScalarWriter, t: Tree)
    requires GoodTree(write, Node(t))
    ensures Parse(scalar, Render(TreeDoc(write, Node(t), t.Keys))) == Some(t) <==> Faithful(scalar, write, Node(t))
  {
    var doc := TreeDoc(write, Node(t), t.Keys);
    TreeDocGood(write, Node(t), t.Keys);
    RoundTrip(scalar, doc);
    assert Meaning(scalar, map[], doc) == Reread(scalar, write, Node(t)).entries by {
      WholeTreeMeans(scalar, write, Node(t));
    }
    RereadSame(scalar, write, Node(t));
  }

  // ---------------------------------------------------------------- the agent's own scalars

  function AsField(s: Scalar): FieldValue {
    match s
    case Int(n) => Number(n)
    case Bool(b) => Flag(b)
    case Str(s) => FieldValue.Text(s)
  }

  /** Scalars as the renderer writes them. */
  function Written(q: Quoting): ScalarWriter {
    s => WriteValue(q, AsField(s))
  }

  /** 64-bit numbers, truth values, and strings with nothing to escape, no quote at either end and
      no likeness to a number or a truth value. */
  predicate Printable(q: Quoting, s: Scalar) {
    match s
    case Int(n) => InRange(n)
    case Bool(_) => true
    case Str(s) => (forall i :: 0 <= i < |s| ==> Plain(q, s[i])) && NoQuoteEnds(s) && Atoi(s).None? && ParseBool(s).None?
  }

  lemma StringReread(q: Quoting, s: string)
    ensures ParseScalar(Quote(q, s)) == Str(s) <==> Printable(q, Str(s))
  {
    QuotedStringSurvives(q, s);
    if forall i :: 0 <= i < |s| ==> Plain(q, s[i]) {
      EscapePlain(q, s);
      TrimQuoted(s);
      TrimShortens(s);
    }
  }

  lemma NumberReread(n: int)
    ensures ParseScalar(Itoa(n)) == Int(n) <==> InRange(n)
  {
    SprintEnds(Int(n));
    UnquotedTrim(Itoa(n));
    if InRange(n) {
      AtoiItoa(n);
    }
  }

  lemma ScalarReread(q: Quoting, s: Scalar)
    ensures ParseScalar(Written(q)(s)) == s <==> Printable(q, s)
  {
    match s
    case Int(n) => NumberReread(n);
    case Bool(b) =>
      BoolText(b);
      SprintEnds(Bool(b));
      UnquotedTrim(FormatBool(b));
    case Str(s) => StringReread(q, s);
  }

  ghost predicate AllPrintable(q: Quoting, v: Value)
    decreases v
  {
    match v
    case Leaf(s) => Printable(q, s)
    case Node(sub) => forall k :: k in sub ==> AllPrintable(q, sub[k])
  }

  ghost predicate GoodKeys(v: Value)
    decreases v
  {
    v.Node? ==> forall k :: k in v.entries ==> GoodKey(k) && GoodKeys(v.entries[k])
  }

  lemma {:induction false} PrintedTree(q: Quoting, v: Value)
    requires OneLine(q) && GoodKeys(v)
    ensures GoodTree(Written(q), v)
    ensures Faithful(ParseScalar, Written(q), v) <==> AllPrintable(q, v)
    decreases v
  {
    match v
    case Leaf(s) =>
      WrittenIsText(q, AsField(s));
      ScalarReread(q, s);
    case Node(sub) =>
      forall k | k in sub
        ensures GoodTree(Written(q), sub[k])
        ensures Faithful(ParseScalar, Written(q), sub[k]) <==> AllPrintable(q, sub[k])
      {
        PrintedTree(q, sub[k]);
      }
  }

  /** Any nested tree with keys the format can hold survives being written in the renderer's
      format and parsed if and only if all its scalars are printable. */
  lemma PrintedTreeRoundTrip(q: Quoting, t: Tree)
    requires OneLine(q) && GoodKeys(Node(t))
    ensures Parse(ParseScalar, Render(TreeDoc(Written(q), Node(t), t.Keys))) == Some(t) <==> AllPrintable(q, Node(t))
  {
    PrintedTree(q, Node(t));
    TreeRoundTrip(ParseScalar, Written(q), t);
  }
}
