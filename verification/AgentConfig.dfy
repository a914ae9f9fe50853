/** The agent's configuration file: what renderAgentYAML writes and what loading it yields
    (internal/bootstrap/linux_package.go, internal/config/vipercompat/viper.go). */
module AgentConfig {
  import opened Text
  import opened Scalars
  import opened ConfigTree
  import opened Yaml
  import opened YamlText

  /** A field of the configuration struct with its value; the constructor is the field's kind. */
  datatype FieldValue = Text(s: string) | Number(n: int) | Flag(b: bool)

  datatype FieldConfig = FieldConfig(key: string, value: FieldValue)

  datatype SectionConfig = SectionConfig(name: string, fields: seq<FieldConfig>)

  /** The sections and fields in the order the renderer writes them. */
  type Config = seq<SectionConfig>

  // ---------------------------------------------------------------- writing

  /** %q, %d and %t. */
  function WriteValue(q: Quoting, v: FieldValue): string {
    match v
    case Text(s) => Quote(q, s)
    case Number(n) => Itoa(n)
    case Flag(b) => FormatBool(b)
  }

  function FieldsDoc(q: Quoting, fields: seq<FieldConfig>): Doc {
    if fields == [] then End
    else Field(fields[0].key, WriteValue(q, fields[0].value), FieldsDoc(q, fields[1..]))
  }

  function ConfigDoc(q: Quoting, cfg: Config): Doc {
    if cfg == [] then End
    else Section(cfg[0].name, FieldsDoc(q, cfg[0].fields), ConfigDoc(q, cfg[1..]))
  }

  function RenderAgentYAML(q: Quoting, cfg: Config): string {
    Render(ConfigDoc(q, cfg))
  }

  ghost predicate GoodFields(fields: seq<FieldConfig>) {
    && (forall i :: 0 <= i < |fields| ==> GoodKey(fields[i].key))
    && (forall i :: 0 <= i < |fields| && fields[i].value.Number? ==> InRange(fields[i].value.n))
    && (forall i, j :: 0 <= i < j < |fields| ==> fields[i].key != fields[j].key)
  }

  ghost predicate GoodConfig(cfg: Config) {
    && (forall i :: 0 <= i < |cfg| ==> GoodKey(cfg[i].name) && GoodFields(cfg[i].fields))
    && (forall i, j :: 0 <= i < j < |cfg| ==> cfg[i].name != cfg[j].name)
  }

  lemma {:induction false} EscapeOneLine(q: Quoting, s: string)
    requires OneLine(q)
    ensures '\n' !in Escape(q, s)
  {
    if s != "" {
      EscapeOneLine(q, s[..|s| - 1]);
      assert '\n' !in EscapeChar(q, s[|s| - 1]);
    }
  }

  lemma DigitsAreText(n: nat)
    ensures GoodText(Digits(n))
  {
    DigitsRead(n);
    var d := Digits(n);
    assert IsDigit(d[0]) && IsDigit(d[|d| - 1]);
  }

  lemma WrittenIsText(q: Quoting, v: FieldValue)
    requires OneLine(q)
    ensures GoodText(WriteValue(q, v))
  {
    match v
    case Text(s) =>
      EscapeOneLine(q, s);
    case Number(n) =>
      DigitsAreText(if n < 0 then -n else n);
    case Flag(b) =>
  }

  lemma {:induction false} FieldsAreGood(q: Quoting, fields: seq<FieldConfig>)
    requires OneLine(q) && GoodFields(fields)
    ensures GoodDoc(FieldsDoc(q, fields))
  {
    if fields != [] {
      WrittenIsText(q, fields[0].value);
      FieldsAreGood(q, fields[1..]);
    }
  }

  lemma {:induction false} ConfigIsGood(q: Quoting, cfg: Config)
    requires OneLine(q) && GoodConfig(cfg)
    ensures GoodDoc(ConfigDoc(q, cfg))
  {
    if cfg != [] {
      FieldsAreGood(q, cfg[0].fields);
      ConfigIsGood(q, cfg[1..]);
    }
  }

  // ---------------------------------------------------------------- what the file means

  lemma {:induction false} FieldsMean(q: Quoting, scalar: Reader, t: Tree, fields: seq<FieldConfig>, key: string)
    requires forall i, j :: 0 <= i < j < |fields| ==> fields[i].key != fields[j].key
    ensures var r := Meaning(scalar, t, FieldsDoc(q, fields));
            && (forall i :: 0 <= i < |fields| && fields[i].key == key ==>
                  key in r && r[key] == Leaf(scalar(WriteValue(q, fields[i].value))))
            && ((forall i :: 0 <= i < |fields| ==> fields[i].key != key) ==>
                  (key in r <==> key in t) && (key in r ==> r[key] == t[key]))
    decreases fields
  {
    if fields != [] {
      FieldsMean(q, scalar, t[fields[0].key := Leaf(scalar(WriteValue(q, fields[0].value)))], fields[1..], key);
      forall i | 0 <= i < |fields| && fields[i].key == key
        ensures var r := Meaning(scalar, t, FieldsDoc(q, fields));
                key in r && r[key] == Leaf(scalar(WriteValue(q, fields[i].value)))
      {
        assert i > 0 ==> fields[1..][i - 1] == fields[i];
      }
    }
  }

  lemma {:induction false} SectionsMean(q: Quoting, scalar: Reader, t: Tree, cfg: Config, name: string)
    requires forall i, j :: 0 <= i < j < |cfg| ==> cfg[i].name != cfg[j].name
    ensures var r := Meaning(scalar, t, ConfigDoc(q, cfg));
            && (forall i :: 0 <= i < |cfg| && cfg[i].name == name ==>
                  name in r && r[name] == Node(Meaning(scalar, map[], FieldsDoc(q, cfg[i].fields))))
            && ((forall i :: 0 <= i < |cfg| ==> cfg[i].name != name) ==>
                  (name in r <==> name in t) && (name in r ==> r[name] == t[name]))
    decreases cfg
  {
    if cfg != [] {
      var first := Node(Meaning(scalar, map[], FieldsDoc(q, cfg[0].fields)));
      SectionsMean(q, scalar, t[cfg[0].name := first], cfg[1..], name);
      forall i | 0 <= i < |cfg| && cfg[i].name == name
        ensures var r := Meaning(scalar, t, ConfigDoc(q, cfg));
                name in r && r[name] == Node(Meaning(scalar, map[], FieldsDoc(q, cfg[i].fields)))
      {
        assert i > 0 ==> cfg[1..][i - 1] == cfg[i];
      }
    }
  }

  /** Every field is found in the file under its section, as the text written for it. */
  lemma FieldInFile(q: Quoting, scalar: Reader, cfg: Config, i: nat, j: nat)
    requires GoodConfig(cfg) && i < |cfg| && j < |cfg[i].fields|
    ensures LeafAt(Meaning(scalar, map[], ConfigDoc(q, cfg)), [cfg[i].name, cfg[i].fields[j].key])
         == Some(scalar(WriteValue(q, cfg[i].fields[j].value)))
  {
    var path := [cfg[i].name, cfg[i].fields[j].key];
    SectionsMean(q, scalar, map[], cfg, cfg[i].name);
    FieldsMean(q, scalar, map[], cfg[i].fields, cfg[i].fields[j].key);
    assert path[1..] == [cfg[i].fields[j].key];
  }

  // ---------------------------------------------------------------- loading

  /** setField: how a field of the kind of `kind` takes a scalar; None is an error. */
  function SetField(kind: FieldValue, raw: Scalar): Option<FieldValue> {
    match kind
    case Text(_) => Some(Text(Sprint(raw)))
    case Number(_) =>
      (match raw
       case Int(n) => Some(Number(n))
       case Str(s) => if Atoi(s).Some? then Some(Number(Atoi(s).value)) else None
       case Bool(_) => None)
    case Flag(_) =>
      (match raw
       case Bool(b) => Some(Flag(b))
       case Str(s) => if ParseBool(s).Some? then Some(Flag(ParseBool(s).value)) else None
       case Int(_) => None)
  }

  /** What the struct field of a section receives from a tree, if a scalar is there. */
  function Loaded(t: Tree, section: string, f: FieldConfig): Option<FieldValue> {
    var raw := LeafAt(t, [section, f.key]);
    if raw.None? then None else SetField(f.value, raw.value)
  }

  lemma UnquotedTrim(s: string)
    requires NoQuoteEnds(s)
    ensures ParseScalar(s) == Retype(s)
  {
    TrimIdentity(s, IsQuote);
  }

  /** Numbers and truth values always survive; a string exactly when nothing in it is escaped,
      stripped or retyped. */
  lemma ValueLoads(q: Quoting, v: FieldValue)
    requires v.Number? ==> InRange(v.n)
    ensures SetField(v, ParseScalar(WriteValue(q, v))) == Some(v) <==> (v.Text? ==> Survives(q, v.s))
  {
    match v
    case Text(s) =>
      QuotedStringSurvives(q, s);
    case Number(n) =>
      AtoiItoa(n);
      SprintEnds(Int(n));
      UnquotedTrim(Itoa(n));
    case Flag(b) =>
      BoolText(b);
      SprintEnds(Bool(b));
      UnquotedTrim(FormatBool(b));
  }

  /** The text that an environment variable has to hold for a value. */
  function EnvText(v: FieldValue): string {
    match v
    case Text(s) => s
    case Number(n) => Itoa(n)
    case Flag(b) => FormatBool(b)
  }

  /** A field that is written anywhere takes the value of its variable: a string any text at all, a
      number or truth value exactly a spelling of it, and any other text is an error. */
  lemma EnvironmentLoads(env: Environment, defaults: Tree, file: Value, section: string, f: FieldConfig, v: FieldValue)
    requires file.Node? && WrittenAt(defaults, file, [section, f.key]).Some? && Overrides(env, [section, f.key]).Some?
    ensures var text := Overrides(env, [section, f.key]).value;
            Loaded(Load(env, defaults, file), section, f) == Some(v) <==>
              || (f.value.Text? && v == Text(text))
              || (f.value.Number? && v.Number? && Atoi(text) == Some(v.n))
              || (f.value.Flag? && v.Flag? && ParseBool(text) == Some(v.b))
  {
    Precedence(env, defaults, file, [section, f.key]);
  }

  /** So, unlike through a file, every value gets through: no string is lost on the way. */
  lemma EnvironmentRoundTrip(env: Environment, defaults: Tree, file: Value, section: string, f: FieldConfig)
    requires file.Node? && WrittenAt(defaults, file, [section, f.key]).Some?
    requires f.value.Number? ==> InRange(f.value.n)
    requires Overrides(env, [section, f.key]) == Some(EnvText(f.value))
    ensures Loaded(Load(env, defaults, file), section, f) == Some(f.value)
  {
    EnvironmentLoads(env, defaults, file, section, f, f.value);
    match f.value
    case Text(_) =>
    case Number(n) => AtoiItoa(n);
    case Flag(b) => BoolText(b);
  }

  /** What a scalar of each type does to a field of each kind: anything becomes a string, but a
      number is no truth value and a truth value no number. So `1` in a file is refused for a flag
      that takes it from the environment. */
  lemma KindsAreKept(kind: FieldValue, raw: Scalar)
    ensures kind.Text? ==> SetField(kind, raw) == Some(Text(Sprint(raw)))
    ensures kind.Number? ==> (SetField(kind, raw).Some? <==> raw.Int? || (raw.Str? && Atoi(raw.s).Some?))
    ensures kind.Flag? ==> (SetField(kind, raw).Some? <==> raw.Bool? || (raw.Str? && ParseBool(raw.s).Some?))
    ensures SetField(Flag(false), ParseScalar("1")) == None && SetField(Flag(false), Str("1")) == Some(Flag(true))
  {
    assert "1"[..0] == "" && Signed("1") == (false, "1") && AllDigits("1");
    TrimIdentity("1", IsQuote);
  }

  /** The configuration read back from its own file, over any defaults and with no environment
      override, field by field. */
  ghost predicate LoadsBack(q: Quoting, t: Tree, cfg: Config) {
    forall i, j :: 0 <= i < |cfg| && 0 <= j < |cfg[i].fields| ==>
      Loaded(t, cfg[i].name, cfg[i].fields[j]) == Some(cfg[i].fields[j].value)
  }

  ghost predicate AllSurvive(q: Quoting, cfg: Config) {
    forall i, j :: 0 <= i < |cfg| && 0 <= j < |cfg[i].fields| && cfg[i].fields[j].value.Text? ==>
      Survives(q, cfg[i].fields[j].value.s)
  }

  lemma FieldLoads(q: Quoting, env: Environment, defaults: Tree, cfg: Config, i: nat, j: nat)
    requires GoodConfig(cfg) && i < |cfg| && j < |cfg[i].fields|
    requires forall path :: Overrides(env, path).None?
    ensures var f := cfg[i].fields[j];
            var t := Load(env, defaults, Node(Meaning(ParseScalar, map[], ConfigDoc(q, cfg))));
            Loaded(t, cfg[i].name, f) == Some(f.value) <==> (f.value.Text? ==> Survives(q, f.value.s))
  {
    var f := cfg[i].fields[j];
    FieldInFile(q, ParseScalar, cfg, i, j);
    Precedence(env, defaults, Node(Meaning(ParseScalar, map[], ConfigDoc(q, cfg))), [cfg[i].name, f.key]);
    ValueLoads(q, f.value);
  }

  /** The rendered file always parses, and loading it gives back the configuration if and only
      if every string in it survives. */
  lemma AgentConfigRoundTrip(q: Quoting, env: Environment, defaults: Tree, cfg: Config)
    requires OneLine(q) && GoodConfig(cfg) && forall path :: Overrides(env, path).None?
    ensures var file := Parse(ParseScalar, RenderAgentYAML(q, cfg));
            file.Some? && (LoadsBack(q, Load(env, defaults, Node(file.value)), cfg) <==> AllSurvive(q, cfg))
  {
    ConfigIsGood(q, cfg);
    RoundTrip(ParseScalar, ConfigDoc(q, cfg));
    var t := Load(env, defaults, Node(Meaning(ParseScalar, map[], ConfigDoc(q, cfg))));
    forall i, j | 0 <= i < |cfg| && 0 <= j < |cfg[i].fields|
      ensures var f := cfg[i].fields[j];
              Loaded(t, cfg[i].name, f) == Some(f.value) <==> (f.value.Text? ==> Survives(q, f.value.s))
    {
      FieldLoads(q, env, defaults, cfg, i, j);
    }
  }
}
