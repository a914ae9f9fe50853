/** Configuration trees: merging a file over defaults and environment overrides over both
    (internal/config/vipercompat/viper.go, internal/config/config.go). */
module ConfigTree {
  import opened Text
  import opened Scalars

  /** A nested map; its keys at one level are `entries`. */
  datatype Value = Leaf(scalar: Scalar) | Node(entries: Tree)

  type Tree = map<string, Value>

  // ---------------------------------------------------------------- merge

  function Nested(dst: Tree, key: string): Tree {
    if key in dst && dst[key].Node? then dst[key].entries else map[]
  }

  /** The section `src` laid over `dst`: sections merge, anything else replaces. */
  function Merge(dst: Tree, src: Value): (r: Tree)
    requires src.Node?
    decreases src, 0
  {
    map k | k in dst.Keys + src.entries.Keys ::
      if k in src.entries then MergeValue(dst, k, src.entries[k]) else dst[k]
  }

  function MergeValue(dst: Tree, key: string, v: Value): Value
    decreases v, 1
  {
    if v.Node? then Node(Merge(Nested(dst, key), v)) else v
  }

  /** `r` is `dst` with the entries of `src` merged in, except for the keys still to do. */
  ghost predicate Merging(r: Tree, dst: Tree, src: Tree, todo: set<string>) {
    && todo <= src.Keys
    && r.Keys == dst.Keys + (src.Keys - todo)
    && forall k :: k in r ==> r[k] == if k in src && k !in todo then MergeValue(dst, k, src[k]) else dst[k]
  }

  lemma MergeOne(r: Tree, dst: Tree, src: Tree, todo: set<string>, key: string, v: Value)
    requires Merging(r, dst, src, todo) && key in todo && v == MergeValue(dst, key, src[key])
    ensures Nested(r, key) == Nested(dst, key)
    ensures Merging(r[key := v], dst, src, todo - {key})
  {
  }

  lemma MergeDone(r: Tree, dst: Tree, src: Value)
    requires src.Node? && Merging(r, dst, src.entries, {})
    ensures r == Merge(dst, src)
  {
    assert r.Keys == Merge(dst, src).Keys;
  }

  /** The in-place merge; the code visits the keys in no particular order. */
  method MergeInto(dst: Tree, src: Value) returns (r: Tree)
    requires src.Node?
    ensures r == Merge(dst, src)
    decreases src
  {
    r := dst;
    var todo := src.entries.Keys;
    while todo != {}
      invariant Merging(r, dst, src.entries, todo)
      decreases |todo|
    {
      var key :| key in todo;
      var value := src.entries[key];
      MergeOne(r, dst, src.entries, todo, key, MergeValue(dst, key, value));
      if value.Node? {
        var nested := if key in r && r[key].Node? then r[key].entries else map[];
        nested := MergeInto(nested, value);
        r := r[key := Node(nested)];
      } else {
        r := r[key := value];
      }
      todo := todo - {key};
    }
    MergeDone(r, dst, src);
  }

  // ---------------------------------------------------------------- looking up leaves

  /** The scalar at a path, if there is one. */
  function LeafAt(t: Tree, path: seq<string>): Option<Scalar>
    decreases path
  {
    if path == [] || path[0] !in t then None
    else match t[path[0]]
         case Leaf(s) => if |path| == 1 then Some(s) else None
         case Node(sub) => LeafAt(sub, path[1..])
  }

  /** The path runs into a scalar too early, or stops at a section. */
  predicate Blocks(t: Tree, path: seq<string>)
    decreases path
  {
    path != [] && path[0] in t &&
    match t[path[0]]
    case Leaf(_) => |path| > 1
    case Node(sub) => |path| == 1 || Blocks(sub, path[1..])
  }

  /** Every scalar of a merged tree comes from the file if the file has one there, and from the
      defaults if the file does not get in the way. */
  lemma {:induction false} MergedLeaf(dst: Tree, src: Value, path: seq<string>)
    requires src.Node?
    ensures LeafAt(Merge(dst, src), path)
         == if LeafAt(src.entries, path).Some? then LeafAt(src.entries, path)
            else if Blocks(src.entries, path) then None
            else LeafAt(dst, path)
    decreases path
  {
    if path != [] && path[0] in src.entries && src.entries[path[0]].Node? {
      MergedLeaf(Nested(dst, path[0]), src.entries[path[0]], path[1..]);
      EmptyHasNoLeaf(path[1..]);
    }
  }

  lemma EmptyHasNoLeaf(path: seq<string>)
    ensures LeafAt(map[], path) == None
  {
  }

  /** The empty tree is neutral: merging into it copies, merging it in changes nothing. */
  lemma {:induction false} MergeIntoEmpty(src: Value)
    requires src.Node?
    ensures Merge(map[], src) == src.entries
    ensures Merge(src.entries, Node(map[])) == src.entries
    decreases src
  {
    var r := Merge(map[], src);
    forall k | k in src.entries ensures r[k] == src.entries[k] {
      assert r[k] == MergeValue(map[], k, src.entries[k]);
      if src.entries[k].Node? {
        MergeIntoEmpty(src.entries[k]);
      }
    }
    assert r.Keys == src.entries.Keys;
  }

  /** Merging the same tree twice is merging it once. */
  lemma {:induction false} MergeIdempotent(dst: Tree, src: Value)
    requires src.Node?
    ensures Merge(Merge(dst, src), src) == Merge(dst, src)
    decreases src
  {
    var once := Merge(dst, src);
    var twice := Merge(once, src);
    forall k | k in src.entries ensures twice[k] == once[k] {
      assert once[k] == MergeValue(dst, k, src.entries[k]) && twice[k] == MergeValue(once, k, src.entries[k]);
      if src.entries[k].Node? {
        MergeIdempotent(Nested(dst, k), src.entries[k]);
        assert Nested(once, k) == Merge(Nested(dst, k), src.entries[k]);
      }
    }
    assert twice.Keys == once.Keys;
  }

  // ---------------------------------------------------------------- environment

  /** Which variable a path reads, and what the process environment holds. */
  datatype Environment = Environment(name: seq<string> -> string, vars: map<string, string>)

  function Overrides(env: Environment, path: seq<string>): Option<string> {
    var n := env.name(path);
    if n in env.vars && env.vars[n] != "" then Some(env.vars[n]) else None
  }

  function Override(env: Environment, v: Value, path: seq<string>): Value
    decreases v
  {
    match v
    case Leaf(_) => if Overrides(env, path).Some? then Leaf(Str(Overrides(env, path).value)) else v
    case Node(sub) => Node(map k | k in sub :: Override(env, sub[k], path + [k]))
  }

  /** `r` is `t` with the overrides applied, except for the keys still to do. */
  ghost predicate Overriding(env: Environment, r: Tree, t: Tree, path: seq<string>, todo: set<string>) {
    && todo <= t.Keys == r.Keys
    && forall k :: k in r ==> r[k] == if k in todo then t[k] else Override(env, t[k], path + [k])
  }

  lemma OverrideDone(env: Environment, r: Tree, v: Value, path: seq<string>)
    requires v.Node? && Overriding(env, r, v.entries, path, {})
    ensures Node(r) == Override(env, v, path)
  {
    assert r == map k | k in v.entries :: Override(env, v.entries[k], path + [k]);
  }

  lemma OverrideOne(env: Environment, r: Tree, t: Tree, path: seq<string>, todo: set<string>, key: string, v: Value)
    requires Overriding(env, r, t, path, todo) && key in todo && v == Override(env, t[key], path + [key])
    ensures Overriding(env, r[key := v], t, path, todo - {key})
  {
  }

  /** The in-place form: existing keys only, in no particular order. */
  method OverrideInto(env: Environment, v: Value, path: seq<string>) returns (r: Tree)
    requires v.Node?
    ensures Node(r) == Override(env, v, path)
    decreases v
  {
    r := v.entries;
    var todo := r.Keys;
    while todo != {}
      invariant Overriding(env, r, v.entries, path, todo)
      decreases |todo|
    {
      var key :| key in todo;
      var value := v.entries[key];
      OverrideOne(env, r, v.entries, path, todo, key, Override(env, value, path + [key]));
      if value.Node? {
        var nested := OverrideInto(env, value, path + [key]);
        r := r[key := Node(nested)];
      } else if Overrides(env, path + [key]).Some? {
        r := r[key := Leaf(Str(Overrides(env, path + [key]).value))];
      } else {
        r := r[key := value];
      }
      todo := todo - {key};
    }
    OverrideDone(env, r, v, path);
  }

  lemma {:induction false} OverriddenLeaf(env: Environment, v: Value, base: seq<string>, path: seq<string>)
    requires v.Node?
    ensures LeafAt(Override(env, v, base).entries, path)
         == match LeafAt(v.entries, path)
            case None => None
            case Some(s) => if Overrides(env, base + path).Some? then Some(Str(Overrides(env, base + path).value)) else Some(s)
    decreases path
  {
    if path != [] && path[0] in v.entries {
      var sub := v.entries[path[0]];
      assert base + path == base + [path[0]] + path[1..];
      if sub.Node? {
        OverriddenLeaf(env, sub, base + [path[0]], path[1..]);
      } else if |path| == 1 {
        assert path == [path[0]];
      }
    }
  }

  /** Loading: the file over the defaults, the environment over both. */
  function Load(env: Environment, defaults: Tree, file: Value): Tree
    requires file.Node?
  {
    Override(env, Node(Merge(defaults, file)), []).entries
  }

  /** What is written for a path: the file's scalar, else the default; a path the file uses in
      another shape has no default left. */
  function WrittenAt(defaults: Tree, file: Value, path: seq<string>): Option<Scalar>
    requires file.Node?
  {
    if LeafAt(file.entries, path).Some? then LeafAt(file.entries, path)
    else if Blocks(file.entries, path) then None
    else LeafAt(defaults, path)
  }

  /** Every loaded scalar is the nonempty environment value for its path, else what is written. */
  lemma Precedence(env: Environment, defaults: Tree, file: Value, path: seq<string>)
    requires file.Node?
    ensures var written := WrittenAt(defaults, file, path);
            LeafAt(Load(env, defaults, file), path)
            == if written.None? then None
               else if Overrides(env, path).Some? then Some(Str(Overrides(env, path).value))
               else written
  {
    MergedLeaf(defaults, file, path);
    OverriddenLeaf(env, Node(Merge(defaults, file)), [], path);
    assert [] + path == path;
  }

  // ---------------------------------------------------------------- dotted keys

  /** setDotted, on the trimmed parts between the dots; blank parts are skipped. */
  function SetParts(t: Tree, parts: seq<string>, v: Value): Tree
    decreases parts
  {
    if parts == [] then t
    else if parts[0] == "" then SetParts(t, parts[1..], v)
    else if |parts| == 1 then t[parts[0] := v]
    else t[parts[0] := Node(SetParts(Nested(t, parts[0]), parts[1..], v))]
  }

  function TrimAll(parts: seq<string>): (r: seq<string>)
    ensures |r| == |parts|
  {
    seq(|parts|, i requires 0 <= i < |parts| => TrimSpace(parts[i]))
  }

  function SetDotted(t: Tree, parts: seq<string>, v: Value): Tree {
    SetParts(t, TrimAll(parts), v)
  }

  function NonBlank(parts: seq<string>): seq<string> {
    if parts == [] then [] else (if parts[0] == "" then [] else [parts[0]]) + NonBlank(parts[1..])
  }

  /** The path a dotted key leads along. */
  function Names(parts: seq<string>): seq<string> {
    NonBlank(TrimAll(parts))
  }

  predicate LastBlank(parts: seq<string>) {
    parts == [] || parts[|parts| - 1] == ""
  }

  /** What `other` finds after a value was set along `names`: the value at the end of the way,
      nothing where the way made a section, and what it found before anywhere else. A key whose
      last part is blank makes the sections only. */
  function AfterSetting(t: Tree, names: seq<string>, value: Option<Scalar>, other: seq<string>): Option<Scalar> {
    if other == names && names != [] then value
    else if other <= names || (value.Some? && names <= other) then None
    else LeafAt(t, other)
  }

  lemma SetBelow(t: Tree, key: string, sub: Tree, names: seq<string>, value: Option<Scalar>, other: seq<string>)
    requires value.Some? ==> names != []
    requires LeafAt(sub, if other == [] then [] else other[1..])
          == AfterSetting(Nested(t, key), names, value, if other == [] then [] else other[1..])
    ensures LeafAt(t[key := Node(sub)], other) == AfterSetting(t, [key] + names, value, other)
  {
    if other != [] && other[0] == key {
      PrefixTail([key] + names, other);
      EmptyHasNoLeaf(other[1..]);
    }
  }

  lemma {:induction false} SetPartsThenGet(t: Tree, parts: seq<string>, s: Scalar, other: seq<string>)
    ensures !LastBlank(parts) ==> NonBlank(parts) != []
    ensures LeafAt(SetParts(t, parts, Leaf(s)), other)
         == AfterSetting(t, NonBlank(parts), if LastBlank(parts) then None else Some(s), other)
    decreases parts
  {
    if parts != [] {
      var rest := parts[1..];
      if |parts| > 1 {
        assert LastBlank(rest) == LastBlank(parts);
      }
      if parts[0] == "" {
        assert NonBlank(parts) == NonBlank(rest);
        SetPartsThenGet(t, rest, s, other);
      } else {
        assert NonBlank(parts) == [parts[0]] + NonBlank(rest);
        if |parts| == 1 {
          assert NonBlank(parts) == [parts[0]];
        } else {
          var below := if other == [] then [] else other[1..];
          SetPartsThenGet(Nested(t, parts[0]), rest, s, below);
          SetBelow(t, parts[0], SetParts(Nested(t, parts[0]), rest, Leaf(s)), NonBlank(rest), if LastBlank(parts) then None else Some(s), other);
        }
      }
    }
  }

  /** Every path after setting a default under any dotted key, blank parts and all. */
  lemma SetThenGet(t: Tree, parts: seq<string>, s: Scalar, other: seq<string>)
    ensures LeafAt(SetDotted(t, parts, Leaf(s)), other)
         == AfterSetting(t, Names(parts), if LastBlank(TrimAll(parts)) then None else Some(s), other)
  {
    SetPartsThenGet(t, TrimAll(parts), s, other);
  }

  lemma PrefixTail(a: seq<string>, b: seq<string>)
    requires a != [] && b != [] && a[0] == b[0]
    ensures a == b <==> a[1..] == b[1..]
    ensures a <= b <==> a[1..] <= b[1..]
    ensures b <= a <==> b[1..] <= a[1..]
  {
    assert a == [a[0]] + a[1..] && b == [b[0]] + b[1..];
  }
}
