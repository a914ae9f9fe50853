/** Scalars as the agent's YAML subset writes and reads them: Go's quoting and number formatting
    on one side, parseScalar and setField on the other (internal/config/vipercompat/viper.go,
    internal/bootstrap/linux_package.go). */
module Scalars {
  import opened Text

  datatype Scalar = Int(n: int) | Bool(b: bool) | Str(s: string)

  // ---------------------------------------------------------------- numbers

  predicate InRange(n: int) { -MAX_INT64 - 1 <= n <= MAX_INT64 }

  predicate IsDigit(c: char) { '0' <= c <= '9' }

  function DigitOf(n: nat): char
    requires n < 10
  {
    '0' + n as char
  }

  function Digits(n: nat): string {
    if n < 10 then [DigitOf(n)] else Digits(n / 10) + [DigitOf(n % 10)]
  }

  function Itoa(n: int): string {
    if n < 0 then "-" + Digits(-n) else Digits(n)
  }

  predicate AllDigits(s: string) {
    forall i :: 0 <= i < |s| ==> IsDigit(s[i])
  }

  function Numeral(s: string): nat
    requires AllDigits(s)
  {
    if s == "" then 0 else Numeral(s[..|s| - 1]) * 10 + (s[|s| - 1] - '0') as int
  }

  function Signed(s: string): (bool, string) {
    if s != "" && s[0] == '-' then (true, s[1..])
    else if s != "" && s[0] == '+' then (false, s[1..])
    else (false, s)
  }

  /** strconv.Atoi: an optional sign and decimal digits, within 64 bits. */
  function Atoi(s: string): Option<int> {
    var (negative, digits) := Signed(s);
    if digits == "" || !AllDigits(digits) then None else
    var n: int := if negative then 0 - Numeral(digits) else Numeral(digits);
    if InRange(n) then Some(n) else None
  }

  lemma {:induction false} DigitsRead(n: nat)
    ensures Digits(n) != "" && AllDigits(Digits(n)) && Numeral(Digits(n)) == n
    ensures Digits(n)[0] == '0' ==> n == 0
  {
    if n < 10 {
      assert Digits(n)[..0] == "";
    } else {
      DigitsRead(n / 10);
      assert Digits(n)[..|Digits(n)| - 1] == Digits(n / 10);
    }
  }

  /** Digits without a superfluous leading zero are what the formatter prints. */
  lemma {:induction false} DigitsWritten(s: string)
    requires s != "" && AllDigits(s) && (s[0] == '0' ==> |s| == 1)
    ensures Digits(Numeral(s)) == s
    ensures Numeral(s) == 0 ==> s[0] == '0'
  {
    var front, last := s[..|s| - 1], (s[|s| - 1] - '0') as int;
    if front == "" {
      assert Numeral(front) == 0;
    } else {
      DigitsWritten(front);
      assert Numeral(s) / 10 == Numeral(front) && Numeral(s) % 10 == last;
    }
  }

  lemma DigitsAlone(n: nat)
    ensures Signed(Digits(n)) == (false, Digits(n)) && Signed("-" + Digits(n)) == (true, Digits(n))
  {
    DigitsRead(n);
    assert IsDigit(Digits(n)[0]);
    assert ("-" + Digits(n))[1..] == Digits(n);
  }

  /** Numbers survive being written and read. */
  lemma AtoiItoa(n: int)
    requires InRange(n)
    ensures Atoi(Itoa(n)) == Some(n)
  {
    var m := if n < 0 then -n else n;
    DigitsAlone(m);
    DigitsRead(m);
  }

  lemma {:induction false} LeadingZero(s: string)
    requires AllDigits(s)
    ensures AllDigits("0" + s) && Numeral("0" + s) == Numeral(s)
  {
    var t := "0" + s;
    if s == "" {
      assert t[..0] == "";
    } else {
      LeadingZero(s[..|s| - 1]);
      assert t[..|t| - 1] == "0" + s[..|s| - 1] && AllDigits(t);
    }
  }

  /** Other spellings are read too: a plus sign, and zeros in front. */
  lemma OtherSpellings(n: nat, s: string)
    requires InRange(n) && s != "" && AllDigits(s)
    ensures Atoi("+" + Digits(n)) == Some(n)
    ensures Atoi("0" + s) == Atoi(s)
  {
    DigitsRead(n);
    assert ("+" + Digits(n))[1..] == Digits(n);
    LeadingZero(s);
    assert IsDigit(s[0]) && Signed(s) == (false, s) && Signed("0" + s) == (false, "0" + s);
  }

  /** A numeral the formatter would print the same way: no plus sign, no superfluous zero. */
  predicate PlainNumeral(s: string) {
    var (negative, digits) := Signed(s);
    && (s != "" ==> s[0] != '+')
    && (digits != "" && digits[0] == '0' ==> |digits| == 1 && !negative)
  }

  lemma ItoaAtoi(s: string)
    requires Atoi(s).Some?
    ensures Itoa(Atoi(s).value) == s <==> PlainNumeral(s)
  {
    var (negative, digits) := Signed(s);
    DigitsRead(Numeral(digits));
    if PlainNumeral(s) {
      DigitsWritten(digits);
      if negative {
        assert s == "-" + digits;
      }
    }
  }

  // ---------------------------------------------------------------- reading scalars

  /** strconv.ParseBool. */
  function ParseBool(s: string): Option<bool> {
    if s == "1" || s == "t" || s == "T" || s == "TRUE" || s == "true" || s == "True" then Some(true)
    else if s == "0" || s == "f" || s == "F" || s == "FALSE" || s == "false" || s == "False" then Some(false)
    else None
  }

  function FormatBool(b: bool): string {
    if b then "true" else "false"
  }

  predicate IsQuote(c: char) { c == '"' || c == '\'' }

  function Retype(s: string): Scalar {
    if Atoi(s).Some? then Int(Atoi(s).value)
    else if ParseBool(s).Some? then Bool(ParseBool(s).value)
    else Str(s)
  }

  /** parseScalar: strip the quotes, then guess the type. */
  function ParseScalar(value: string): Scalar {
    Retype(Trim(value, IsQuote))
  }

  /** fmt.Sprint, which is how a string field receives a value of any type. */
  function Sprint(v: Scalar): string {
    match v
    case Int(n) => Itoa(n)
    case Bool(b) => FormatBool(b)
    case Str(s) => s
  }

  /** A string that type guessing leaves readable as itself. */
  predicate KeepsItsText(s: string) {
    if Atoi(s).Some? then PlainNumeral(s)
    else ParseBool(s).Some? ==> s == "true" || s == "false"
  }

  lemma BoolText(b: bool)
    ensures Atoi(FormatBool(b)) == None && ParseBool(FormatBool(b)) == Some(b)
  {
    var s := FormatBool(b);
    assert !IsDigit(s[1]) && Signed(s) == (false, s);
  }

  lemma RetypeKeepsText(s: string)
    ensures Sprint(Retype(s)) == s <==> KeepsItsText(s)
  {
    if Atoi(s).Some? {
      ItoaAtoi(s);
    } else if ParseBool(s).Some? {
      BoolText(true);
      BoolText(false);
    }
  }

  // ---------------------------------------------------------------- quoting

  /** What strconv knows about characters: which ones %q prints as they are, and how it writes
      the others after the backslash. */
  datatype Quoting = Quoting(printable: char -> bool, tail: char -> string)

  ghost predicate OneLine(q: Quoting) {
    forall c :: (q.printable(c) ==> c != '\n') && '\n' !in q.tail(c)
  }

  predicate Plain(q: Quoting, c: char) {
    q.printable(c) && c != '"' && c != '\\'
  }

  function EscapeChar(q: Quoting, c: char): string {
    if Plain(q, c) then [c]
    else if c == '"' || c == '\\' then ['\\', c]
    else ['\\'] + q.tail(c)
  }

  function Escape(q: Quoting, s: string): string {
    if s == "" then "" else Escape(q, s[..|s| - 1]) + EscapeChar(q, s[|s| - 1])
  }

  /** %q. */
  function Quote(q: Quoting, s: string): string {
    ['"'] + Escape(q, s) + ['"']
  }

  ghost predicate AllPlain(q: Quoting, s: string) {
    forall i :: 0 <= i < |s| ==> Plain(q, s[i])
  }

  function Slashes(s: string): nat {
    if s == "" then 0 else Slashes(s[..|s| - 1]) + if s[|s| - 1] == '\\' then 1 else 0
  }

  lemma {:induction false} SlashesConcat(a: string, b: string)
    ensures Slashes(a + b) == Slashes(a) + Slashes(b)
  {
    if b == "" {
      assert a + b == a;
    } else {
      SlashesConcat(a, b[..|b| - 1]);
      assert (a + b)[..|a + b| - 1] == a + b[..|b| - 1];
    }
  }

  lemma SlashesHead(c: char, s: string)
    ensures Slashes([c] + s) == Slashes(s) + if c == '\\' then 1 else 0
  {
    SlashesConcat([c], s);
    assert [c][..0] == "";
  }

  lemma EscapeCharAdds(q: Quoting, c: char)
    ensures Plain(q, c) ==> Slashes(EscapeChar(q, c)) == 0 && c != '\\'
    ensures !Plain(q, c) ==> Slashes(EscapeChar(q, c)) > if c == '\\' then 1 else 0
  {
    SlashesHead(c, "");
    assert [c] + "" == [c];
    if c == '"' || c == '\\' {
      SlashesHead('\\', [c]);
      assert ['\\'] + [c] == ['\\', c];
    } else {
      SlashesHead('\\', q.tail(c));
    }
  }

  lemma {:induction false} EscapePlain(q: Quoting, s: string)
    requires AllPlain(q, s)
    ensures Escape(q, s) == s
  {
    if s != "" {
      EscapePlain(q, s[..|s| - 1]);
    }
  }

  lemma {:induction false} EscapeKeepsSlashes(q: Quoting, s: string)
    ensures Slashes(Escape(q, s)) >= Slashes(s)
  {
    if s != "" {
      EscapeKeepsSlashes(q, s[..|s| - 1]);
      EscapeCharAdds(q, s[|s| - 1]);
      SlashesConcat(Escape(q, s[..|s| - 1]), EscapeChar(q, s[|s| - 1]));
    }
  }

  /** Escaping a character adds a backslash. */
  lemma {:induction false} EscapeAdds(q: Quoting, s: string, i: nat)
    requires i < |s| && !Plain(q, s[i])
    ensures Slashes(Escape(q, s)) > Slashes(s)
  {
    var front := s[..|s| - 1];
    EscapeKeepsSlashes(q, front);
    EscapeCharAdds(q, s[|s| - 1]);
    SlashesConcat(Escape(q, front), EscapeChar(q, s[|s| - 1]));
    if i < |s| - 1 {
      EscapeAdds(q, front, i);
    }
  }

  lemma {:induction false} TrimLeftSlashes(s: string)
    ensures Slashes(TrimLeft(s, IsQuote)) == Slashes(s)
  {
    if s != "" && IsQuote(s[0]) {
      TrimLeftSlashes(s[1..]);
      SlashesHead(s[0], s[1..]);
      assert s == [s[0]] + s[1..];
    }
  }

  lemma {:induction false} TrimRightSlashes(s: string)
    ensures Slashes(TrimRight(s, IsQuote)) == Slashes(s)
  {
    if s != "" && IsQuote(s[|s| - 1]) {
      TrimRightSlashes(s[..|s| - 1]);
    }
  }

  lemma {:induction false} SlashIndex(s: string) returns (i: nat)
    requires Slashes(s) > 0
    ensures i < |s| && s[i] == '\\'
  {
    if s[|s| - 1] == '\\' {
      i := |s| - 1;
    } else {
      i := SlashIndex(s[..|s| - 1]);
    }
  }

  lemma SlashIsNoNumber(s: string, i: nat)
    requires i < |s| && s[i] == '\\'
    ensures Atoi(s) == None
  {
    var (_, digits) := Signed(s);
    assert digits == s || (i > 0 && digits[i - 1] == s[i]);
  }

  lemma SlashIsNoTruthValue(s: string, i: nat)
    requires i < |s| && s[i] == '\\'
    ensures ParseBool(s) == None
  {
  }

  /** Text with a backslash is neither a number nor a truth value. */
  lemma SlashIsText(s: string)
    requires Slashes(s) > 0
    ensures Retype(s) == Str(s)
  {
    var i := SlashIndex(s);
    SlashIsNoNumber(s, i);
    SlashIsNoTruthValue(s, i);
  }

  predicate NoQuoteEnds(s: string) {
    s != "" ==> !IsQuote(s[0]) && !IsQuote(s[|s| - 1])
  }

  lemma {:induction false} TrimLeftShorter(s: string)
    ensures |TrimLeft(s, IsQuote)| <= |s|
    ensures s != "" && IsQuote(s[0]) ==> |TrimLeft(s, IsQuote)| < |s|
    ensures TrimLeft(s, IsQuote) != "" ==> TrimLeft(s, IsQuote)[|TrimLeft(s, IsQuote)| - 1] == s[|s| - 1]
  {
    if s != "" && IsQuote(s[0]) {
      TrimLeftShorter(s[1..]);
    }
  }

  lemma {:induction false} TrimRightShorter(s: string)
    ensures |TrimRight(s, IsQuote)| <= |s|
    ensures s != "" && IsQuote(s[|s| - 1]) ==> |TrimRight(s, IsQuote)| < |s|
  {
    if s != "" && IsQuote(s[|s| - 1]) {
      TrimRightShorter(s[..|s| - 1]);
    }
  }

  /** The quotes added by quoting are stripped again, with any the string had at its ends. */
  lemma TrimQuoted(s: string)
    ensures Trim(['"'] + s + ['"'], IsQuote) == Trim(s, IsQuote)
  {
    assert (['"'] + s + ['"'])[1..] == s + ['"'];
    TrimLeftAppend(s);
  }

  lemma {:induction false} TrimLeftAppend(s: string)
    ensures TrimRight(TrimLeft(s + ['"'], IsQuote), IsQuote) == TrimRight(TrimLeft(s, IsQuote), IsQuote)
  {
    var t := s + ['"'];
    if s == "" {
      assert t[1..] == "";
    } else if IsQuote(s[0]) {
      TrimLeftAppend(s[1..]);
      assert t[1..] == s[1..] + ['"'];
    } else {
      assert t[..|t| - 1] == s;
    }
  }

  lemma TrimShortens(s: string)
    ensures NoQuoteEnds(s) ==> Trim(s, IsQuote) == s
    ensures !NoQuoteEnds(s) ==> |Trim(s, IsQuote)| < |s|
  {
    if NoQuoteEnds(s) {
      TrimIdentity(s, IsQuote);
    } else {
      TrimLeftShorter(s);
      TrimRightShorter(TrimLeft(s, IsQuote));
    }
  }

  /** Numbers and truth values print without quote characters at their ends. */
  lemma SprintEnds(v: Scalar)
    requires !v.Str?
    ensures NoQuoteEnds(Sprint(v))
  {
    match v
    case Int(n) =>
      DigitsRead(if n < 0 then -n else n);
    case Bool(b) =>
  }

  /** The strings that survive being written by the renderer and read by the loader are exactly
      those with nothing to escape, no quote at either end, and no other spelling of a number
      or a truth value. */
  predicate Survives(q: Quoting, s: string) {
    (forall i :: 0 <= i < |s| ==> Plain(q, s[i])) && NoQuoteEnds(s) && KeepsItsText(s)
  }

  lemma QuotedStringSurvives(q: Quoting, s: string)
    ensures Sprint(ParseScalar(Quote(q, s))) == s <==> Survives(q, s)
  {
    var e := Escape(q, s);
    var t := Trim(e, IsQuote);
    TrimQuoted(e);
    if i :| 0 <= i < |s| && !Plain(q, s[i]) {
      EscapeAdds(q, s, i);
      TrimLeftSlashes(e);
      TrimRightSlashes(TrimLeft(e, IsQuote));
      SlashIsText(t);
    } else {
      EscapePlain(q, s);
      TrimShortens(s);
      RetypeKeepsText(s);
      if !NoQuoteEnds(s) && !Retype(t).Str? {
        SprintEnds(Retype(t));
      }
    }
  }
}
