/** Secret redaction (internal/security/security.go). Strings are byte strings. */
module Redaction {

  const WORD := "REDACTED"
  const PLACEHOLDER := "[" + WORD + "]"

  predicate Contains(s: string, w: string) {
    w <= s || (s != "" && Contains(s[1..], w))
  }

  /** strings.ReplaceAll with a nonempty pattern: leftmost, non-overlapping. */
  function ReplaceAll(s: string, pattern: string, replacement: string): string
    requires pattern != ""
  {
    if |s| < |pattern| then s
    else if pattern <= s then replacement + ReplaceAll(s[|pattern|..], pattern, replacement)
    else [s[0]] + ReplaceAll(s[1..], pattern, replacement)
  }

  function Blank(s: string, secret: string): string
    requires secret != ""
  {
    ReplaceAll(s, secret, PLACEHOLDER)
  }

  ghost predicate NoBracket(w: string) {
    forall i :: 0 <= i < |w| ==> w[i] != '[' && w[i] != ']'
  }

  // ---------------------------------------------------------------- occurrences

  lemma {:induction false} ContainsTail(s: string, k: nat, w: string)
    requires k <= |s| && Contains(s[k..], w)
    ensures Contains(s, w)
  {
    if k == 0 {
      assert s[0..] == s;
    } else {
      assert s[1..][k - 1..] == s[k..];
      ContainsTail(s[1..], k - 1, w);
    }
  }

  lemma {:induction false} ContainsLonger(s: string, w: string)
    requires Contains(s, w)
    ensures |w| <= |s|
  {
    if !(w <= s) {
      ContainsLonger(s[1..], w);
    }
  }

  lemma {:induction false} ContainsAt(s: string, w: string) returns (i: nat)
    requires Contains(s, w)
    ensures i <= |s| && w <= s[i..]
  {
    if w <= s {
      i := 0;
    } else {
      var k := ContainsAt(s[1..], w);
      i := k + 1;
    }
  }

  lemma {:induction false} Absent(s: string, w: string)
    requires forall i :: 0 <= i <= |s| ==> !(w <= s[i..])
    ensures !Contains(s, w)
  {
    assert s[0..] == s;
    if s != "" {
      assert forall i :: 0 <= i <= |s[1..]| ==> s[1..][i..] == s[i + 1..];
      Absent(s[1..], w);
    }
  }

  // ---------------------------------------------------------------- overlapping the placeholder

  /** One of the two begins with the other. */
  predicate Touch(a: string, b: string) {
    a <= b || b <= a
  }

  /** `b` can be laid over `a`, starting inside it, so that the two agree where both are. */
  ghost predicate Meets(a: string, b: string) {
    exists k :: 0 <= k < |a| && Touch(a[k..], b)
  }

  /** No end of the secret looks like the beginning of the placeholder or the other way round,
      and neither lies within the other. */
  ghost predicate NoOverlap(w: string) {
    !Meets(w, PLACEHOLDER) && !Meets(PLACEHOLDER, w)
  }

  lemma StartsInside(rest: string, w: string, i: nat)
    requires i < |PLACEHOLDER| && w <= (PLACEHOLDER + rest)[i..]
    ensures Meets(PLACEHOLDER, w)
  {
    assert (PLACEHOLDER + rest)[i..] == PLACEHOLDER[i..] + rest;
    assert Touch(PLACEHOLDER[i..], w);
  }

  /** A word that does not overlap the placeholder occurs only after it. */
  lemma PastPlaceholder(rest: string, w: string)
    requires !Meets(PLACEHOLDER, w) && Contains(PLACEHOLDER + rest, w)
    ensures Contains(rest, w)
  {
    var t, n := PLACEHOLDER + rest, |PLACEHOLDER|;
    var i := ContainsAt(t, w);
    if i < n {
      StartsInside(rest, w, i);
    } else {
      assert t[i..] == rest[i - n..];
      assert Contains(rest[i - n..], w);
      ContainsTail(rest, i - n, w);
    }
  }

  /** The word `w` agrees with the text `s` up to `k`, where the first `v` stands and `w` runs into
      the placeholder that replaces it. */
  ghost predicate RunsInto(s: string, v: string, w: string, k: nat) {
    && k < |w| && k <= |s| && s[..k] == w[..k] && v <= s[k..] && Touch(w[k..], PLACEHOLDER)
    && forall j :: 0 <= j < k ==> !(v <= s[j..])
  }

  lemma RunsIntoLater(s: string, v: string, w: string, k: nat)
    requires s != "" && w != "" && s[0] == w[0] && !(v <= s) && RunsInto(s[1..], v, w[1..], k)
    ensures RunsInto(s, v, w, k + 1)
  {
    assert w == [w[0]] + w[1..] && s == [s[0]] + s[1..];
    assert w[k + 1..] == w[1..][k..] && s[k + 1..] == s[1..][k..];
    assert s[..k + 1] == [s[0]] + s[1..][..k] && w[..k + 1] == [w[0]] + w[1..][..k];
    assert s[0..] == s;
    assert forall j :: 0 < j <= k ==> s[j..] == s[1..][j - 1..];
  }

  /** A word at the beginning of the output was there in the input, or runs into the first
      placeholder. */
  lemma {:induction false} PrefixFrom(s: string, v: string, w: string) returns (k: nat)
    requires v != "" && w <= Blank(s, v) && !(w <= s)
    ensures RunsInto(s, v, w, k)
  {
    var r := Blank(s, v);
    assert |s| >= |v|;
    if v <= s {
      k := 0;
      assert s[0..] == s && w[0..] == w;
    } else {
      assert w[0] == r[0] == s[0] && r[1..] == Blank(s[1..], v) && w[1..] <= r[1..];
      assert w == [w[0]] + w[1..] && s == [s[0]] + s[1..];
      var n := PrefixFrom(s[1..], v, w[1..]);
      RunsIntoLater(s, v, w, n);
      k := n + 1;
    }
  }

  // ---------------------------------------------------------------- one replacement

  /** Replacing one secret never creates an occurrence of another that does not overlap the
      placeholder. */
  lemma {:induction false} NothingCreated(s: string, v: string, w: string)
    requires v != "" && NoOverlap(w) && Contains(Blank(s, v), w)
    ensures Contains(s, w)
  {
    if |s| >= |v| {
      if v <= s {
        PastPlaceholder(Blank(s[|v|..], v), w);
        NothingCreated(s[|v|..], v, w);
        ContainsTail(s, |v|, w);
      } else if w <= Blank(s, v) {
        if !(w <= s) {
          var k := PrefixFrom(s, v, w);
          assert Meets(w, PLACEHOLDER);
        }
      } else {
        assert Blank(s, v)[1..] == Blank(s[1..], v);
        NothingCreated(s[1..], v, w);
      }
    }
  }

  /** The secret would have been found earlier in its own first `k` letters followed by itself. */
  ghost predicate Shadowed(v: string, k: nat)
    requires k <= |v|
  {
    exists j :: 0 <= j < k && v <= (v[..k] + v)[j..]
  }

  /** The secrets that one replacement can put together again: a placeholder followed by some text
      shows it, or its own beginning followed by a placeholder does. */
  ghost predicate Leaky(v: string) {
    || Meets(PLACEHOLDER, v)
    || exists k :: 0 < k < |v| && Touch(v[k..], PLACEHOLDER) && !Shadowed(v, k)
  }

  lemma NoOverlapIsTight(v: string)
    requires NoOverlap(v)
    ensures !Leaky(v)
  {
  }

  lemma PrefixOfFront(v: string, a: string, t: string)
    requires |v| <= |a|
    ensures v <= a + t <==> v <= a
  {
  }

  lemma FoundEarlier(s: string, v: string, k: nat, j: nat)
    requires j < k <= |v| && k <= |s| && s[..k] == v[..k] && v <= s[k..] && v <= (v[..k] + v)[j..]
    ensures v <= s[j..]
  {
    var t := s[k + |v|..];
    assert s[k..] == v + t;
    assert s == v[..k] + v + t;
    assert s[j..] == (v[..k] + v)[j..] + t;
    PrefixOfFront(v, (v[..k] + v)[j..], t);
  }

  /** A leak at the front of the output. */
  lemma {:induction false} FrontLeak(s: string, v: string)
    requires v != "" && v <= Blank(s, v) && !(v <= s)
    ensures Leaky(v)
  {
    var k := PrefixFrom(s, v, v);
    assert s[0..] == s;
    forall j | 0 <= j < k ensures !(v <= (v[..k] + v)[j..]) {
      if v <= (v[..k] + v)[j..] {
        FoundEarlier(s, v, k, j);
      }
    }
    assert !Shadowed(v, k);
  }

  /** Replacing a secret leaves no occurrence of it. */
  lemma {:induction false} Removed(s: string, v: string)
    requires v != "" && !Leaky(v)
    ensures !Contains(Blank(s, v), v)
  {
    if |s| < |v| {
      if Contains(s, v) {
        ContainsLonger(s, v);
      }
    } else if v <= s {
      Removed(s[|v|..], v);
      if Contains(Blank(s, v), v) {
        PastPlaceholder(Blank(s[|v|..], v), v);
      }
    } else {
      Removed(s[1..], v);
      assert Blank(s, v)[1..] == Blank(s[1..], v);
      if v <= Blank(s, v) {
        FrontLeak(s, v);
      }
    }
  }

  /** Text in which the secret does not begin stays as it is. */
  lemma {:induction false} Untouched(h: string, rest: string, v: string)
    requires v != "" && |rest| >= |v| && forall j :: 0 <= j < |h| ==> !(v <= (h + rest)[j..])
    ensures Blank(h + rest, v) == h + Blank(rest, v)
  {
    var s := h + rest;
    if h == "" {
      assert s == rest;
    } else {
      assert s[0..] == s && s[1..] == h[1..] + rest && s[0] == h[0];
      forall j | 0 <= j < |h[1..]| ensures !(v <= (h[1..] + rest)[j..]) {
        assert (h[1..] + rest)[j..] == s[j + 1..];
      }
      Untouched(h[1..], rest, v);
      assert h == [h[0]] + h[1..];
    }
  }

  function Joined(pieces: seq<string>, between: string): string
    requires pieces != []
  {
    if |pieces| == 1 then pieces[0] else pieces[0] + (between + Joined(pieces[1..], between))
  }

  /** The text before the first occurrence of `v`. */
  ghost predicate UpTo(piece: string, v: string) {
    forall j :: 0 <= j < |piece| ==> !(v <= (piece + v)[j..])
  }

  ghost predicate CutAt(pieces: seq<string>, v: string) {
    && pieces != [] && !Contains(pieces[|pieces| - 1], v)
    && forall i :: 0 <= i < |pieces| - 1 ==> UpTo(pieces[i], v)
  }

  lemma JoinedMore(piece: string, pieces: seq<string>, between: string)
    requires pieces != []
    ensures Joined([piece] + pieces, between) == piece + (between + Joined(pieces, between))
  {
    assert ([piece] + pieces)[1..] == pieces;
  }

  lemma LongerHead(c: char, pieces: seq<string>, between: string)
    requires pieces != []
    ensures Joined([[c] + pieces[0]] + pieces[1..], between) == [c] + Joined(pieces, between)
  {
    if |pieces| > 1 {
      assert ([[c] + pieces[0]] + pieces[1..])[1..] == pieces[1..];
      assert [c] + pieces[0] + (between + Joined(pieces[1..], between)) == [c] + (pieces[0] + (between + Joined(pieces[1..], between)));
    }
  }

  lemma LongerUpTo(c: char, piece: string, v: string, rest: string)
    requires v != "" && UpTo(piece, v) && !(v <= [c] + (piece + (v + rest)))
    ensures UpTo([c] + piece, v)
  {
    var longer := [c] + piece;
    assert [c] + (piece + (v + rest)) == longer + v + rest;
    PrefixOfFront(v, longer + v, rest);
    forall j | 0 <= j < |longer| ensures !(v <= (longer + v)[j..]) {
      if j == 0 {
        assert (longer + v)[0..] == longer + v;
      } else {
        assert (longer + v)[j..] == (piece + v)[j - 1..];
      }
    }
  }

  lemma LongerCut(s: string, v: string, pieces: seq<string>)
    requires v != "" && s != "" && !(v <= s) && CutAt(pieces, v) && Joined(pieces, v) == s[1..]
    ensures CutAt([[s[0]] + pieces[0]] + pieces[1..], v)
  {
    var longer := [[s[0]] + pieces[0]] + pieces[1..];
    assert s == [s[0]] + Joined(pieces, v);
    if |pieces| > 1 {
      LongerUpTo(s[0], pieces[0], v, Joined(pieces[1..], v));
    } else {
      assert longer == [s] && s[1..] == pieces[0];
    }
  }

  lemma CutMore(pieces: seq<string>, v: string)
    requires CutAt(pieces, v)
    ensures CutAt([""] + pieces, v)
  {
    var more := [""] + pieces;
    assert forall i :: 0 < i < |more| ==> more[i] == pieces[i - 1];
  }

  /** Replacement takes the text apart at the pattern, from the left, and puts it together again with
      the other text in its place: everything else stays. */
  lemma {:induction false} ReplaceKeepsRest(s: string, v: string, x: string) returns (pieces: seq<string>)
    requires v != ""
    ensures CutAt(pieces, v) && Joined(pieces, v) == s && Joined(pieces, x) == ReplaceAll(s, v, x)
  {
    if |s| < |v| {
      pieces := [s];
      if Contains(s, v) {
        ContainsLonger(s, v);
      }
    } else if v <= s {
      var more := ReplaceKeepsRest(s[|v|..], v, x);
      pieces := [""] + more;
      CutMore(more, v);
      JoinedMore("", more, v);
      JoinedMore("", more, x);
      assert s == "" + (v + s[|v|..]);
      assert ReplaceAll(s, v, x) == "" + (x + ReplaceAll(s[|v|..], v, x));
    } else {
      var more := ReplaceKeepsRest(s[1..], v, x);
      pieces := [[s[0]] + more[0]] + more[1..];
      LongerHead(s[0], more, v);
      LongerHead(s[0], more, x);
      LongerCut(s, v, more);
      assert s == [s[0]] + s[1..];
    }
  }

  /** A secret's occurrences become placeholders, and everything else stays. */
  lemma BlankKeepsRest(s: string, v: string) returns (pieces: seq<string>)
    requires v != ""
    ensures CutAt(pieces, v) && Joined(pieces, v) == s && Joined(pieces, "[REDACTED]") == Blank(s, v)
  {
    pieces := ReplaceKeepsRest(s, v, PLACEHOLDER);
    assert PLACEHOLDER == "[REDACTED]";
  }

  /** What follows the placeholder in a word that runs into it. */
  function Beyond(w: string, shown: string): (t: string)
    requires Touch(shown, w)
    ensures w <= shown + t
    ensures shown != "" && w != "" ==> |t| < |w|
  {
    if |w| <= |shown| then "" else
    assert w == shown + w[|shown|..];
    w[|shown|..]
  }

  /** The text `h`, an occurrence of `v` and the text `t` become `h`, a placeholder and `t`. */
  lemma BlankAround(h: string, v: string, t: string)
    requires v != "" && |t| < |v| && forall j :: 0 <= j < |h| ==> !(v <= (h + v)[j..])
    ensures Blank(h + (v + t), v) == h + (PLACEHOLDER + t)
  {
    forall j | 0 <= j < |h| ensures !(v <= (h + (v + t))[j..]) {
      assert (h + (v + t))[j..] == (h + v)[j..] + t;
      PrefixOfFront(v, (h + v)[j..], t);
    }
    Untouched(h, v + t, v);
    assert (v + t)[|v|..] == t && Blank(t, v) == t;
  }

  lemma ShownAfter(w: string, k: nat, t: string)
    requires k < |PLACEHOLDER| && w <= PLACEHOLDER[k..] + t
    ensures Contains(PLACEHOLDER + t, w)
  {
    var r := PLACEHOLDER + t;
    assert r[k..] == PLACEHOLDER[k..] + t;
    assert Contains(r[k..], w);
    ContainsTail(r, k, w);
  }

  /** A placeholder and the text after it show the secret. */
  lemma LeakAfter(v: string, k: nat) returns (input: string)
    requires v != "" && k < |PLACEHOLDER| && Touch(PLACEHOLDER[k..], v)
    ensures Contains(Blank(input, v), v)
  {
    var t := Beyond(v, PLACEHOLDER[k..]);
    input := "" + (v + t);
    BlankAround("", v, t);
    ShownAfter(v, k, t);
    assert "" + (PLACEHOLDER + t) == PLACEHOLDER + t;
  }

  /** The beginning of the secret and a placeholder, with some text after it, show it. */
  lemma LeakBefore(v: string, k: nat) returns (input: string)
    requires 0 < k < |v| && Touch(v[k..], PLACEHOLDER) && !Shadowed(v, k)
    ensures Contains(Blank(input, v), v)
  {
    var h, t := v[..k], Beyond(v[k..], PLACEHOLDER);
    input := h + (v + t);
    BlankAround(h, v, t);
    SamePrefix(h, v[k..], PLACEHOLDER + t);
    assert v == h + v[k..];
  }

  lemma SamePrefix(h: string, a: string, b: string)
    requires a <= b
    ensures h + a <= h + b
  {
  }

  /** An input from which a leaky secret is not removed. */
  lemma Leak(v: string) returns (input: string)
    requires v != "" && Leaky(v)
    ensures Contains(Blank(input, v), v)
  {
    if Meets(PLACEHOLDER, v) {
      var k :| 0 <= k < |PLACEHOLDER| && Touch(PLACEHOLDER[k..], v);
      input := LeakAfter(v, k);
    } else {
      var k :| 0 < k < |v| && Touch(v[k..], PLACEHOLDER) && !Shadowed(v, k);
      input := LeakBefore(v, k);
    }
  }

  /** A secret is removed from every input if and only if it is not leaky. */
  lemma RemovedIffNotLeaky(v: string)
    requires v != ""
    ensures (forall input :: !Contains(Blank(input, v), v)) <==> !Leaky(v)
  {
    if Leaky(v) {
      var input := Leak(v);
    } else {
      forall input ensures !Contains(Blank(input, v), v) {
        Removed(input, v);
      }
    }
  }

  /** Overlapping the placeholder is not enough to leak: this secret ends like the placeholder
      begins, but where its beginning precedes a placeholder it would itself have been found. */
  lemma OverlapWithoutLeak()
    ensures !NoOverlap("[[[[") && !Leaky("[[[[")
  {
    var v := "[[[[";
    assert v[3..] == "[" && "[" <= PLACEHOLDER;
    assert Touch(v[3..], PLACEHOLDER);
    assert v <= (v[..3] + v)[2..];
    forall k | 0 <= k < |PLACEHOLDER| ensures !Touch(PLACEHOLDER[k..], v) {
      assert PLACEHOLDER[k..][0] == PLACEHOLDER[k];
      assert k == 0 ==> PLACEHOLDER[k..][1] == 'R';
    }
    forall k | 0 < k < 3 ensures !Touch(v[k..], PLACEHOLDER) {
      assert v[k..][1] == '[' && PLACEHOLDER[1] == 'R';
    }
  }

  /** A text in which `w` does not occur, and a secret just as long whose replacement puts a
      placeholder between `h` and `t`. */
  lemma Create(h: string, t: string, w: string) returns (s: string, v: string)
    requires |h| + |t| < |w| && w[|h|] in PLACEHOLDER
    ensures |v| == |w| && Blank(s, v) == h + (PLACEHOLDER + t) && !Contains(s, w)
  {
    var c := if h != "" && h[|h| - 1] == 'x' then 'y' else 'x';
    assert c !in PLACEHOLDER;
    v := seq(|w|, _ => c);
    s := h + (v + t);
    forall j | 0 <= j < |h| ensures !(v <= (h + v)[j..]) {
      assert (h + v)[j..][|h| - 1 - j] == h[|h| - 1] && v[|h| - 1 - j] == c;
    }
    BlankAround(h, v, t);
    forall i | 0 <= i <= |s| ensures !(w <= s[i..]) {
      if i + |w| <= |s| {
        assert s[i..][|h|] == v[i];
      }
    }
    Absent(s, w);
  }

  lemma CreatedAfter(w: string, k: nat) returns (s: string, v: string)
    requires w != "" && k < |PLACEHOLDER| && Touch(PLACEHOLDER[k..], w)
    ensures |v| == |w| && Contains(Blank(s, v), w) && !Contains(s, w)
  {
    var t := Beyond(w, PLACEHOLDER[k..]);
    assert w[0] == PLACEHOLDER[k..][0] == PLACEHOLDER[k];
    s, v := Create("", t, w);
    ShownAfter(w, k, t);
    assert "" + (PLACEHOLDER + t) == PLACEHOLDER + t;
  }

  lemma CreatedBefore(w: string, k: nat) returns (s: string, v: string)
    requires k < |w| && Touch(w[k..], PLACEHOLDER)
    ensures |v| == |w| && Contains(Blank(s, v), w) && !Contains(s, w)
  {
    var h, t := w[..k], Beyond(w[k..], PLACEHOLDER);
    assert w[k] == w[k..][0] == PLACEHOLDER[0];
    s, v := Create(h, t, w);
    SamePrefix(h, w[k..], PLACEHOLDER + t);
    assert w == h + w[k..];
  }

  /** A text and a secret whose replacement creates a word that overlaps the placeholder. */
  lemma Created(w: string) returns (s: string, v: string)
    requires w != "" && !NoOverlap(w)
    ensures |v| == |w| && Contains(Blank(s, v), w) && !Contains(s, w)
  {
    if Meets(PLACEHOLDER, w) {
      var k :| 0 <= k < |PLACEHOLDER| && Touch(PLACEHOLDER[k..], w);
      s, v := CreatedAfter(w, k);
    } else {
      var k :| 0 <= k < |w| && Touch(w[k..], PLACEHOLDER);
      s, v := CreatedBefore(w, k);
    }
  }

  /** Replacements of other secrets, no longer than a word, never create it if and only if it does
      not overlap the placeholder. */
  lemma CreatedIffOverlap(w: string)
    requires w != ""
    ensures (forall s, v :: 0 < |v| <= |w| && Contains(Blank(s, v), w) ==> Contains(s, w)) <==> NoOverlap(w)
  {
    if NoOverlap(w) {
      forall s, v | 0 < |v| <= |w| && Contains(Blank(s, v), w) ensures Contains(s, w) {
        NothingCreated(s, v, w);
      }
    } else {
      var s, v := Created(w);
    }
  }

  /** A replacement puts a placeholder in, or changes nothing. */
  lemma {:induction false} Effect(s: string, v: string)
    requires v != ""
    ensures if Contains(s, v) then Contains(Blank(s, v), PLACEHOLDER) else Blank(s, v) == s
  {
    if |s| < |v| {
      if Contains(s, v) {
        ContainsLonger(s, v);
      }
    } else if !(v <= s) {
      Effect(s[1..], v);
      assert Blank(s, v)[1..] == Blank(s[1..], v);
      assert s == [s[0]] + s[1..];
    }
  }

  // ---------------------------------------------------------------- all the secrets

  ghost predicate Usable(values: seq<string>) {
    forall i :: 0 <= i < |values| ==> values[i] != ""
  }

  /** The secrets replaced one after the other. */
  ghost function RedactAll(values: seq<string>, input: string): string
    requires Usable(values)
  {
    if values == [] then input else Blank(RedactAll(values[..|values| - 1], input), values[|values| - 1])
  }

  ghost predicate BracketFree(values: seq<string>) {
    forall i :: 0 <= i < |values| ==> values[i] != "" && NoBracket(values[i])
  }

  ghost predicate Clean(values: seq<string>, output: string) {
    forall i :: 0 <= i < |values| ==> !Contains(output, values[i])
  }

  /** No secret is part of the word the placeholder shows. */
  ghost predicate Distinguishable(values: seq<string>) {
    forall i :: 0 <= i < |values| ==> !Contains(WORD, values[i])
  }

  /** A secret that does not overlap the placeholder is removed from every input, whatever the
      other secrets are and in whatever order they are replaced: later replacements never
      recreate it. */
  lemma {:induction false} RemovedAmongOthers(values: seq<string>, input: string, w: string)
    requires Usable(values) && w in values && NoOverlap(w)
    ensures !Contains(RedactAll(values, input), w)
  {
    var front, last := values[..|values| - 1], values[|values| - 1];
    var before := RedactAll(front, input);
    if last == w {
      NoOverlapIsTight(w);
      Removed(before, w);
    } else {
      assert values == front + [last];
      RemovedAmongOthers(front, input, w);
      if Contains(RedactAll(values, input), w) {
        NothingCreated(before, last, w);
      }
    }
  }

  /** The order in which Redact replaces the secrets it considers. */
  ghost predicate InOrder(values: seq<string>) {
    LongerFirst(values) && forall i :: 0 <= i < |values| ==> |values[i]| >= 4
  }

  /** Two secrets of the same length, one replaced after the other, show the first one again. */
  lemma SurvivesWith(w: string) returns (values: seq<string>, input: string)
    requires |w| >= 4 && !NoOverlap(w)
    ensures InOrder(values) && w in values && Usable(values) && Contains(RedactAll(values, input), w)
  {
    var v;
    input, v := Created(w);
    values := [w, v];
    Effect(input, w);
    assert values[..1] == [w] && [w][..0] == [];
    assert RedactAll([], input) == input;
    assert RedactAll([w], input) == input;
  }

  ghost predicate AlwaysRemoved(w: string) {
    forall values, input :: InOrder(values) && w in values && Usable(values) ==> !Contains(RedactAll(values, input), w)
  }

  /** Among whatever other secrets, a secret is removed from every input if and only if it does not
      overlap the placeholder. */
  lemma AlwaysRemovedIff(w: string)
    requires |w| >= 4
    ensures AlwaysRemoved(w) <==> NoOverlap(w)
  {
    if NoOverlap(w) {
      forall values, input | InOrder(values) && w in values && Usable(values) ensures !Contains(RedactAll(values, input), w) {
        RemovedAmongOthers(values, input, w);
      }
    } else {
      var values, input := SurvivesWith(w);
      assert InOrder(values) && Contains(RedactAll(values, input), w);
    }
  }

  /** So a secret that is always removed when it is the only one may survive beside another. */
  lemma AloneIsNotEnough()
    ensures !Leaky("[[[[") && !AlwaysRemoved("[[[[")
  {
    OverlapWithoutLeak();
    AlwaysRemovedIff("[[[[");
  }

  // ---------------------------------------------------------------- why the longest goes first

  lemma {:induction false} LongerBefore(values: seq<string>, i: nat, j: nat)
    requires LongerFirst(values) && i <= j < |values|
    ensures |values[i]| >= |values[j]|
  {
    if i < j {
      LongerBefore(values, i, j - 1);
    }
  }

  lemma {:induction false} OnlyItself(s: string, v: string)
    requires Contains(s, v) && |v| >= |s|
    ensures s == v
  {
    if !(v <= s) {
      ContainsLonger(s[1..], v);
    }
  }

  /** No secret is found in the placeholder. */
  ghost predicate Apart(values: seq<string>) {
    forall i :: 0 <= i < |values| ==> !Contains(PLACEHOLDER, values[i])
  }

  lemma BlankWhole(v: string)
    requires v != ""
    ensures Blank(v, v) == PLACEHOLDER
  {
    assert v[|v|..] == "" && Blank("", v) == "";
    assert PLACEHOLDER + "" == PLACEHOLDER;
  }

  predicate Alone(shown: string, v: string, replaced: bool) {
    shown == if replaced then PLACEHOLDER else v
  }

  /** One replacement on a secret that stands alone, or on its placeholder. */
  lemma AloneStep(shown: string, v: string, last: string, seen: bool)
    requires v != "" && last != "" && !Contains(PLACEHOLDER, last) && (seen || last == v || |last| >= |v|)
    requires Alone(shown, v, seen)
    ensures Alone(Blank(shown, last), v, seen || last == v)
  {
    if seen {
      Effect(PLACEHOLDER, last);
    } else if last == v {
      BlankWhole(v);
    } else {
      if Contains(v, last) {
        OnlyItself(v, last);
      }
      Effect(v, last);
    }
  }

  /** Nothing shorter is replaced before `v`. */
  ghost predicate InTime(values: seq<string>, v: string) {
    forall i :: 0 <= i < |values| && |values[i]| < |v| ==> v in values[..i]
  }

  lemma InTimeFront(values: seq<string>, v: string)
    requires values != [] && InTime(values, v)
    ensures InTime(values[..|values| - 1], v)
    ensures |values[|values| - 1]| < |v| ==> v in values[..|values| - 1]
    ensures v in values <==> v in values[..|values| - 1] || v == values[|values| - 1]
  {
    var front := values[..|values| - 1];
    forall i | 0 <= i < |front| && |front[i]| < |v| ensures v in front[..i] {
      assert front[..i] == values[..i];
    }
    assert values == front + [values[|values| - 1]];
  }

  lemma {:induction false} AloneSoFar(values: seq<string>, v: string)
    requires Usable(values) && Apart(values) && v != "" && InTime(values, v)
    ensures Alone(RedactAll(values, v), v, v in values)
  {
    if values != [] {
      var front, last := values[..|values| - 1], values[|values| - 1];
      InTimeFront(values, v);
      AloneSoFar(front, v);
      AloneStep(RedactAll(front, v), v, last, v in front);
    }
  }

  /** Longest first, every secret that stands alone is replaced as a whole, even one that contains
      another. */
  lemma {:induction false} HiddenWhole(values: seq<string>, v: string)
    requires Usable(values) && LongerFirst(values) && Apart(values) && v in values
    ensures RedactAll(values, v) == PLACEHOLDER
  {
    var m :| 0 <= m < |values| && values[m] == v;
    forall i | 0 <= i < |values| && |values[i]| < |v| ensures v in values[..i] {
      if i <= m {
        LongerBefore(values, i, m);
      }
      assert values[..i][m] == v;
    }
    AloneSoFar(values, v);
  }

  /** The other way round the longer secret would show its end. */
  lemma ShorterFirstShows()
    ensures RedactAll(["abcd", "abcdef"], "abcdef") == PLACEHOLDER + "ef"
  {
    var short, long := "abcd", "abcdef";
    assert [short, long][..1] == [short] && [short][..0] == [];
    assert RedactAll([], long) == long;
    assert short <= long && long[4..] == "ef" && Blank("ef", short) == "ef";
    assert RedactAll([short], long) == PLACEHOLDER + "ef";
    Unlike(PLACEHOLDER + "ef", long);
    Effect(PLACEHOLDER + "ef", long);
  }

  lemma Unlike(s: string, w: string)
    requires w != "" && forall i :: 0 <= i < |s| ==> s[i] != w[0]
    ensures !Contains(s, w)
  {
    forall i | 0 <= i <= |s| ensures !(w <= s[i..]) {
      if i < |s| {
        assert s[i..][0] == s[i];
      }
    }
    Absent(s, w);
  }

  /** The text of a secret is replaced by a placeholder that no later replacement removes. */
  lemma {:induction false} SecretShows(values: seq<string>, v: string)
    requires Usable(values)
    ensures var r := RedactAll(values, v);
            Contains(r, PLACEHOLDER) || (r == v && forall i :: 0 <= i < |values| ==> values[i] != v)
  {
    if values == [] {
    } else {
      var front, last := values[..|values| - 1], values[|values| - 1];
      SecretShows(front, v);
      var r := RedactAll(front, v);
      Effect(r, last);
      if r == v && last == v {
        assert Contains(v, v);
      }
      assert forall i :: 0 <= i < |front| ==> values[i] == front[i];
    }
  }

  lemma {:induction false} ContainsTransitive(s: string, m: string, w: string)
    requires Contains(s, m) && Contains(m, w)
    ensures Contains(s, w)
  {
    if m <= s {
      ContainsExtend(m, s[|m|..], w);
      assert s == m + s[|m|..];
    } else {
      ContainsTransitive(s[1..], m, w);
    }
  }

  lemma {:induction false} ContainsExtend(m: string, t: string, w: string)
    requires Contains(m, w)
    ensures Contains(m + t, w)
  {
    if !(w <= m) {
      ContainsExtend(m[1..], t, w);
      assert (m + t)[1..] == m[1..] + t;
    }
  }

  lemma WithinWord(w: string, k: nat)
    requires w != "" && NoBracket(w) && k < |PLACEHOLDER| && w <= PLACEHOLDER[k..]
    ensures Contains(WORD, w)
  {
    assert w[0] == PLACEHOLDER[k] && PLACEHOLDER[0] == '[';
    var tail := WORD[k - 1..];
    assert PLACEHOLDER[k..] == tail + "]";
    assert PLACEHOLDER[k..][|tail|] == ']';
    assert |w| <= |tail|;
    PrefixOfFront(w, tail, "]");
    assert Contains(tail, w);
    ContainsTail(WORD, k - 1, w);
  }

  /** A word without brackets overlaps the placeholder only within its letters. */
  lemma BracketFreeOverlap(w: string)
    requires w != "" && NoBracket(w) && !Contains(WORD, w)
    ensures NoOverlap(w)
  {
    forall k | 0 <= k < |w| ensures !Touch(w[k..], PLACEHOLDER) {
      assert w[k..][0] != PLACEHOLDER[0];
    }
    var last := |PLACEHOLDER| - 1;
    forall k | 0 <= k <= last ensures !Touch(PLACEHOLDER[k..], w) {
      assert PLACEHOLDER[k..][last - k] == PLACEHOLDER[last] == ']';
      if w <= PLACEHOLDER[k..] {
        WithinWord(w, k);
      }
    }
  }

  /** Bracket-free secrets are redacted completely from every input, in whatever order they are
      replaced, exactly when none of them is part of the placeholder's word. */
  lemma RedactionComplete(values: seq<string>)
    requires BracketFree(values)
    ensures (forall input :: Clean(values, RedactAll(values, input))) <==> Distinguishable(values)
  {
    if Distinguishable(values) {
      forall input, i | 0 <= i < |values| ensures !Contains(RedactAll(values, input), values[i]) {
        BracketFreeOverlap(values[i]);
        RemovedAmongOthers(values, input, values[i]);
      }
    } else {
      var i :| 0 <= i < |values| && Contains(WORD, values[i]);
      var v := values[i];
      SecretShows(values, v);
      assert PLACEHOLDER[1..] == WORD + "]";
      ContainsExtend(WORD, "]", v);
      ContainsTransitive(RedactAll(values, v), PLACEHOLDER, v);
      assert !Clean(values, RedactAll(values, v));
    }
  }

  /** A secret with a bracket can be put together from a placeholder and the text after it. */
  lemma BracketLeak()
    ensures Contains(RedactAll(["]abc"], "]abcabc"), "]abc")
  {
    var v, input := "]abc", "]abcabc";
    assert v <= input && input[4..] == "abc";
    assert Blank(input, v) == PLACEHOLDER + Blank("abc", v);
    assert RedactAll([], input) == input && [v][..0] == [];
    var r := RedactAll([v], input);
    assert r == "[" + WORD + "]abc";
    assert r[1 + |WORD|..] == v;
    assert Contains(v, v);
    ContainsTail(r, 1 + |WORD|, v);
  }

  // ---------------------------------------------------------------- the method

  predicate LongerFirst(values: seq<string>) {
    forall i :: 0 < i < |values| ==> |values[i]| <= |values[i - 1]|
  }

  function InsertByLength(v: string, values: seq<string>): seq<string> {
    if values == [] || |v| > |values[0]| then [v] + values
    else [values[0]] + InsertByLength(v, values[1..])
  }

  lemma {:induction false} Inserted(v: string, values: seq<string>)
    ensures var r := InsertByLength(v, values);
            && multiset(r) == multiset{v} + multiset(values)
            && (LongerFirst(values) ==> LongerFirst(r))
            && r != [] && (r[0] == v || (values != [] && r[0] == values[0]))
  {
    if values != [] && |v| <= |values[0]| {
      Inserted(v, values[1..]);
      assert values == [values[0]] + values[1..];
      if LongerFirst(values) {
        SortedTail(values);
        SortedHead(values[0], InsertByLength(v, values[1..]));
      }
    } else if LongerFirst(values) {
      SortedHead(v, values);
    }
  }

  lemma SortedTail(values: seq<string>)
    requires values != [] && LongerFirst(values)
    ensures LongerFirst(values[1..]) && (|values| > 1 ==> |values[1]| <= |values[0]|)
  {
    forall i | 0 < i < |values[1..]| ensures |values[1..][i]| <= |values[1..][i - 1]| {
      assert values[1..][i] == values[i + 1] && values[1..][i - 1] == values[i];
    }
  }

  lemma SortedHead(v: string, values: seq<string>)
    requires LongerFirst(values) && (values != [] ==> |values[0]| <= |v|)
    ensures LongerFirst([v] + values)
  {
    var all := [v] + values;
    forall i | 0 < i < |all| ensures |all[i]| <= |all[i - 1]| {
      assert all[i] == values[i - 1] && (i > 1 ==> all[i - 1] == values[i - 2]);
    }
  }

  /** The stored values that are long enough to be replaced. */
  function Considered(secrets: seq<string>): seq<string> {
    if secrets == [] then [] else
    var front, last := Considered(secrets[..|secrets| - 1]), secrets[|secrets| - 1];
    if |last| >= 4 then front + [last] else front
  }

  lemma {:induction false} ConsideredAre(secrets: seq<string>, v: string)
    ensures v in Considered(secrets) <==> v in secrets && |v| >= 4
  {
    if secrets != [] {
      ConsideredAre(secrets[..|secrets| - 1], v);
      assert secrets == secrets[..|secrets| - 1] + [secrets[|secrets| - 1]];
    }
  }

  method CollectSecrets(secrets: seq<string>) returns (values: seq<string>)
    ensures LongerFirst(values)
    ensures multiset(values) == multiset(Considered(secrets))
  {
    values := [];
    var i := 0;
    while i < |secrets|
      invariant i <= |secrets| && LongerFirst(values)
      invariant multiset(values) == multiset(Considered(secrets[..i]))
    {
      assert secrets[..i + 1][..i] == secrets[..i];
      if |secrets[i]| >= 4 {
        Inserted(secrets[i], values);
        values := InsertByLength(secrets[i], values);
      }
      i := i + 1;
    }
    assert secrets[..i] == secrets;
  }

  method ReplaceInTurn(values: seq<string>, input: string) returns (output: string)
    requires Usable(values)
    ensures output == RedactAll(values, input)
  {
    output := input;
    var n := 0;
    while n < |values|
      invariant n <= |values| && output == RedactAll(values[..n], input)
    {
      assert values[..n + 1][..n] == values[..n];
      output := Blank(output, values[n]);
      n := n + 1;
    }
    assert values[..n] == values;
  }

  lemma SameMembers(a: seq<string>, b: seq<string>, v: string)
    requires multiset(a) == multiset(b)
    ensures v in a <==> v in b
  {
    assert v in multiset(a) <==> v in multiset(b);
  }

  /** Redact collects the secrets of at least four bytes, sorts them longest first and replaces
      them in turn. `secrets` lists the stored values in whatever order the map yields them. */
  method Redact(secrets: seq<string>, input: string) returns (output: string, ghost order: seq<string>)
    ensures multiset(order) == multiset(Considered(secrets))
    ensures LongerFirst(order) && Usable(order)
    ensures forall i, j :: 0 <= i < j < |order| ==> |order[i]| >= |order[j]|
    ensures output == RedactAll(order, input)
    ensures forall v :: v in secrets && |v| >= 4 && NoOverlap(v) ==> !Contains(output, v)
  {
    var values := CollectSecrets(secrets);
    forall v ensures v in values <==> v in secrets && |v| >= 4 {
      SameMembers(values, Considered(secrets), v);
      ConsideredAre(secrets, v);
    }
    forall i | 0 <= i < |values| ensures values[i] != "" {
      assert values[i] in values;
    }
    order := values;
    forall i, j | 0 <= i < j < |order| ensures |order[i]| >= |order[j]| {
      LongerBefore(order, i, j);
    }
    output := ReplaceInTurn(values, input);
    forall v | v in secrets && |v| >= 4 && NoOverlap(v) ensures !Contains(output, v) {
      RemovedAmongOthers(order, input, v);
    }
  }
}
