/** Which configuration paths one environment variable overrides
    (internal/config/vipercompat/viper.go, internal/config/config.go). */
module EnvNames {
  import opened Text
  import opened Scalars
  import opened ConfigTree

  // ---------------------------------------------------------------- the name of a variable

  /** Capitalising, letter by letter in any alphabet; an underscore has no capital. */
  type Capital = f: char -> char | f('_') == '_' witness ((c: char) => c)

  function JoinDots(path: seq<string>): string {
    if path == [] then "" else if |path| == 1 then path[0] else path[0] + "." + JoinDots(path[1..])
  }

  function EnvChar(up: Capital, c: char): char {
    if c == '.' then '_' else up(c)
  }

  function Capitals(up: Capital, s: string): (r: string)
    ensures |r| == |s|
  {
    seq(|s|, i requires 0 <= i < |s| => EnvChar(up, s[i]))
  }

  /** The variable that overrides a path: dots become underscores, letters capitals. */
  function EnvName(up: Capital, prefix: string, path: seq<string>): string {
    var name := Capitals(up, JoinDots(path));
    if prefix == "" then name else prefix + "_" + name
  }

  // ---------------------------------------------------------------- words

  /** A string cut at its underscores. */
  function Pieces(s: string): (r: seq<string>)
    ensures r != []
  {
    if s == "" then [""] else
    var rest := Pieces(s[1..]);
    if s[0] == '_' then [""] + rest else [[s[0]] + rest[0]] + rest[1..]
  }

  /** What a path says to the environment: the words of its keys, cut at dots and underscores,
      in capitals. */
  function Words(up: Capital, path: seq<string>): seq<string> {
    if path == [] then [] else Pieces(Capitals(up, path[0])) + Words(up, path[1..])
  }

  lemma {:induction false} PiecesJoin(a: string, b: string)
    ensures Pieces(a + "_" + b) == Pieces(a) + Pieces(b)
  {
    var s := a + "_" + b;
    if a == "" {
      assert s[0] == '_' && s[1..] == b;
    } else {
      assert s[0] == a[0] && s[1..] == a[1..] + "_" + b;
      PiecesJoin(a[1..], b);
    }
  }

  /** The pieces determine the string. */
  lemma {:induction false} PiecesInjective(a: string, b: string)
    requires Pieces(a) == Pieces(b)
    ensures a == b
  {
    if a != "" && b != "" {
      var p, q := Pieces(a[1..]), Pieces(b[1..]);
      FirstPiece(a);
      FirstPiece(b);
      assert a[0] == b[0];
      assert p == q by {
        if a[0] == '_' {
          assert Pieces(a)[1..] == p && Pieces(b)[1..] == q;
        } else {
          assert Pieces(a)[0][1..] == p[0] && Pieces(b)[0][1..] == q[0];
          assert Pieces(a)[1..] == p[1..] && Pieces(b)[1..] == q[1..];
          assert p == [p[0]] + p[1..] && q == [q[0]] + q[1..];
        }
      }
      PiecesInjective(a[1..], b[1..]);
      assert a == [a[0]] + a[1..] && b == [b[0]] + b[1..];
    }
  }

  lemma FirstPiece(s: string)
    requires s != ""
    ensures s[0] == '_' <==> Pieces(s)[0] == ""
    ensures s[0] != '_' ==> Pieces(s)[0][0] == s[0]
    ensures |Pieces(s)| == 1 ==> s[0] != '_'
  {
  }

  lemma CapitalsConcat(up: Capital, a: string, b: string)
    ensures Capitals(up, a + "." + b) == Capitals(up, a) + "_" + Capitals(up, b)
  {
  }

  /** The words of a path are the pieces of its variable's name. */
  lemma {:induction false} WordsOfName(up: Capital, path: seq<string>)
    requires path != []
    ensures Pieces(Capitals(up, JoinDots(path))) == Words(up, path)
  {
    if |path| == 1 {
      assert Words(up, path[1..]) == [];
    } else {
      WordsOfName(up, path[1..]);
      CapitalsConcat(up, path[0], JoinDots(path[1..]));
      PiecesJoin(Capitals(up, path[0]), Capitals(up, JoinDots(path[1..])));
    }
  }

  /** A variable's name has the pieces of the prefix, if there is one, and then the words of the
      path. */
  predicate Spells(up: Capital, prefix: string, name: string, path: seq<string>) {
    Pieces(name) == (if prefix == "" then [] else Pieces(prefix)) + Words(up, path)
  }

  /** Exactly one name spells a path, and it is the one that is read. */
  lemma NameSpells(up: Capital, prefix: string, name: string, path: seq<string>)
    requires path != []
    ensures name == EnvName(up, prefix, path) <==> Spells(up, prefix, name, path)
  {
    var plain := Capitals(up, JoinDots(path));
    WordsOfName(up, path);
    PiecesJoin(prefix, plain);
    assert [] + Words(up, path) == Words(up, path);
    if Spells(up, prefix, name, path) {
      PiecesInjective(name, EnvName(up, prefix, path));
    }
  }

  /** ASCII letters only. */
  const ASCII: Capital := c => if 'a' <= c <= 'z' then c - 'a' + 'A' else c

  /** Every character is capitalised, dots become underscores and the prefix stays as it is. */
  lemma NameLetters(up: Capital, prefix: string, path: seq<string>, i: nat)
    requires path != [] && i < |JoinDots(path)|
    ensures var name, start := EnvName(up, prefix, path), if prefix == "" then 0 else |prefix| + 1;
            && |name| == start + |JoinDots(path)| && prefix <= name
            && name[start + i] == (if JoinDots(path)[i] == '.' then '_' else up(JoinDots(path)[i]))
  {
  }

  /** The variable of the server's port. */
  lemma PortVariable()
    ensures EnvName(ASCII, "AUREN", ["server", "port"]) == "AUREN_SERVER_PORT"
  {
    assert ["server", "port"][1..] == ["port"];
    assert JoinDots(["server", "port"]) == "server.port";
    assert Capitals(ASCII, "server.port") == "SERVER_PORT";
  }

  /** Two paths are overridden by the same variable if and only if they have the same words. */
  lemma SameVariable(up: Capital, prefix: string, p: seq<string>, q: seq<string>)
    requires p != [] && q != []
    ensures EnvName(up, prefix, p) == EnvName(up, prefix, q) <==> Words(up, p) == Words(up, q)
  {
    var a, b := Capitals(up, JoinDots(p)), Capitals(up, JoinDots(q));
    WordsOfName(up, p);
    WordsOfName(up, q);
    if Words(up, p) == Words(up, q) {
      PiecesInjective(a, b);
    }
    if prefix != "" {
      assert (prefix + "_" + a)[|prefix| + 1..] == a && (prefix + "_" + b)[|prefix| + 1..] == b;
    }
  }

  // ---------------------------------------------------------------- when names are unique

  /** A key of characters that are no separators and come back from their capitals: small
      letters, digits and whatever has no capital. */
  predicate Simple(up: Capital, down: char -> char, key: string) {
    forall i :: 0 <= i < |key| ==> EnvChar(up, key[i]) != '_' && key[i] != '.' && down(up(key[i])) == key[i]
  }

  lemma {:induction false} OnePiece(s: string)
    requires '_' !in s
    ensures Pieces(s) == [s]
  {
    if s != "" {
      OnePiece(s[1..]);
      assert s == [s[0]] + s[1..];
    }
  }

  lemma SimpleWord(up: Capital, down: char -> char, key: string)
    requires Simple(up, down, key)
    ensures Pieces(Capitals(up, key)) == [Capitals(up, key)]
  {
    OnePiece(Capitals(up, key));
  }

  lemma CapitalsInjective(up: Capital, down: char -> char, a: string, b: string)
    requires Simple(up, down, a) && Simple(up, down, b) && Capitals(up, a) == Capitals(up, b)
    ensures a == b
  {
    forall i | 0 <= i < |a| ensures a[i] == b[i] {
      assert Capitals(up, a)[i] == Capitals(up, b)[i];
    }
  }

  lemma {:induction false} SimpleWordsInjective(up: Capital, down: char -> char, p: seq<string>, q: seq<string>)
    requires (forall i :: 0 <= i < |p| ==> Simple(up, down, p[i])) && (forall i :: 0 <= i < |q| ==> Simple(up, down, q[i]))
    requires Words(up, p) == Words(up, q)
    ensures p == q
  {
    if p != [] {
      SimpleWord(up, down, p[0]);
    }
    if q != [] {
      SimpleWord(up, down, q[0]);
    }
    if p != [] && q != [] {
      assert Words(up, p)[0] == Capitals(up, p[0]) && Words(up, q)[0] == Capitals(up, q[0]);
      assert Words(up, p)[1..] == Words(up, p[1..]) && Words(up, q)[1..] == Words(up, q[1..]);
      CapitalsInjective(up, down, p[0], q[0]);
      SimpleWordsInjective(up, down, p[1..], q[1..]);
      assert p == [p[0]] + p[1..] && q == [q[0]] + q[1..];
    }
  }

  /** Paths of keys without underscores, dots and capitals never share a variable. */
  lemma UniqueVariable(up: Capital, down: char -> char, prefix: string, p: seq<string>, q: seq<string>)
    requires p != [] && q != []
    requires (forall i :: 0 <= i < |p| ==> Simple(up, down, p[i])) && (forall i :: 0 <= i < |q| ==> Simple(up, down, q[i]))
    ensures EnvName(up, prefix, p) == EnvName(up, prefix, q) <==> p == q
  {
    SameVariable(up, prefix, p, q);
    if Words(up, p) == Words(up, q) {
      SimpleWordsInjective(up, down, p, q);
    }
  }

  /** Three ways for different paths to share one: an underscore moved between keys, a key cut in
      two, and capitals. */
  lemma SharedVariables(up: Capital, prefix: string, x: string, y: string, z: string)
    ensures EnvName(up, prefix, [x, y + "_" + z]) == EnvName(up, prefix, [x + "_" + y, z])
    ensures EnvName(up, prefix, [x, y]) == EnvName(up, prefix, [x + "_" + y])
    ensures Capitals(up, x) == Capitals(up, y) ==> EnvName(up, prefix, [x]) == EnvName(up, prefix, [y])
  {
    MovedUnderscore(up, x, y, z);
    SameVariable(up, prefix, [x, y + "_" + z], [x + "_" + y, z]);
    CutKey(up, x, y);
    SameVariable(up, prefix, [x, y], [x + "_" + y]);
    WordsOfOne(up, x);
    WordsOfOne(up, y);
    SameVariable(up, prefix, [x], [y]);
  }

  lemma MovedUnderscore(up: Capital, x: string, y: string, z: string)
    ensures Words(up, [x, y + "_" + z]) == Words(up, [x + "_" + y, z])
  {
    WordsOfPair(up, x, y + "_" + z);
    WordsOfPair(up, x + "_" + y, z);
    UnderscoreWords(up, x, y);
    UnderscoreWords(up, y, z);
    Regroup(Pieces(Capitals(up, x)), Pieces(Capitals(up, y)), Pieces(Capitals(up, z)));
  }

  lemma Regroup(a: seq<string>, b: seq<string>, c: seq<string>)
    ensures a + (b + c) == a + b + c
  {
  }

  lemma CutKey(up: Capital, x: string, y: string)
    ensures Words(up, [x, y]) == Words(up, [x + "_" + y])
  {
    WordsOfPair(up, x, y);
    WordsOfOne(up, x + "_" + y);
    UnderscoreWords(up, x, y);
  }

  lemma WordsOfOne(up: Capital, a: string)
    ensures Words(up, [a]) == Pieces(Capitals(up, a))
  {
    assert [a][1..] == [];
  }

  lemma WordsOfPair(up: Capital, a: string, b: string)
    ensures Words(up, [a, b]) == Pieces(Capitals(up, a)) + Pieces(Capitals(up, b))
  {
    assert [a, b][1..] == [b];
    WordsOfOne(up, b);
  }

  lemma UnderscoreWords(up: Capital, a: string, b: string)
    ensures Pieces(Capitals(up, a + "_" + b)) == Pieces(Capitals(up, a)) + Pieces(Capitals(up, b))
  {
    assert Capitals(up, a + "_" + b) == Capitals(up, a) + "_" + Capitals(up, b);
    PiecesJoin(Capitals(up, a), Capitals(up, b));
  }

  // ---------------------------------------------------------------- the process environment

  /** The environment of a process that reads variables under a prefix. */
  function ProcessEnvironment(up: Capital, prefix: string, vars: map<string, string>): Environment {
    Environment(path => EnvName(up, prefix, path), vars)
  }

  lemma NoEmptyLeaf(t: Tree)
    ensures LeafAt(t, []) == None
  {
  }

  /** Setting one variable, whatever it is called and to whatever text, decides exactly the written
      scalars whose paths it spells: they become the text, or stay as written if it is empty. */
  lemma OneVariable(up: Capital, prefix: string, vars: map<string, string>, defaults: Tree, file: Value, name: string, text: string, q: seq<string>)
    requires file.Node?
    ensures var before := LeafAt(Load(ProcessEnvironment(up, prefix, vars), defaults, file), q);
            var written := WrittenAt(defaults, file, q);
            LeafAt(Load(ProcessEnvironment(up, prefix, vars[name := text]), defaults, file), q)
            == if written.None? || !Spells(up, prefix, name, q) then before
               else if text != "" then Some(Str(text)) else written
  {
    var old', new' := ProcessEnvironment(up, prefix, vars), ProcessEnvironment(up, prefix, vars[name := text]);
    Precedence(old', defaults, file, q);
    Precedence(new', defaults, file, q);
    if q == [] {
      NoEmptyLeaf(file.entries);
      NoEmptyLeaf(defaults);
    } else {
      NameSpells(up, prefix, name, q);
    }
  }

  /** Without any variable everything is loaded as written. */
  lemma NoVariable(up: Capital, prefix: string, defaults: Tree, file: Value, q: seq<string>)
    requires file.Node?
    ensures LeafAt(Load(ProcessEnvironment(up, prefix, map[]), defaults, file), q) == WrittenAt(defaults, file, q)
  {
    Precedence(ProcessEnvironment(up, prefix, map[]), defaults, file, q);
  }
}
