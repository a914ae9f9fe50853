/** Strings as the Go standard library handles them: the trimming functions the agent calls
    everywhere, a result type for operations that can refuse their input, and 64-bit limits. */
module Text {

  datatype Option<+T> = None | Some(value: T)

  /** Instants are integers and 0 is Go's zero time. A reading of a real clock is never zero. */
  type Clock = t: int | t != 0 witness 1

  const MAX_INT64 := 0x7FFF_FFFF_FFFF_FFFF

  function Min(a: nat, b: nat): nat { if a < b then a else b }

  /** White space as defined by Unicode's White_Space property, which is what TrimSpace removes. */
  predicate IsSpace(c: char) {
    || '\t' <= c <= '\r'
    || c == ' ' || c == '\U{85}' || c == '\U{A0}' || c == '\U{1680}'
    || '\U{2000}' <= c <= '\U{200A}'
    || c == '\U{2028}' || c == '\U{2029}' || c == '\U{202F}' || c == '\U{205F}' || c == '\U{3000}'
  }

  function TrimLeft(s: string, cut: char -> bool): (r: string) {
    if s != "" && cut(s[0]) then TrimLeft(s[1..], cut) else s
  }

  function TrimRight(s: string, cut: char -> bool): (r: string) {
    if s != "" && cut(s[|s| - 1]) then TrimRight(s[..|s| - 1], cut) else s
  }

  function Trim(s: string, cut: char -> bool): (r: string) {
    TrimRight(TrimLeft(s, cut), cut)
  }

  function TrimSpace(s: string): (r: string) {
    Trim(s, IsSpace)
  }

  /** Text with nothing to cut at either end is left alone. */
  lemma TrimIdentity(s: string, cut: char -> bool)
    requires s != "" ==> !cut(s[0]) && !cut(s[|s| - 1])
    ensures Trim(s, cut) == s
  {
  }

  lemma {:induction false} TrimLeftEnds(s: string, cut: char -> bool)
    ensures TrimLeft(s, cut) != "" ==> !cut(TrimLeft(s, cut)[0])
  {
    if s != "" && cut(s[0]) {
      TrimLeftEnds(s[1..], cut);
    }
  }

  lemma {:induction false} TrimRightEnds(s: string, cut: char -> bool)
    ensures TrimRight(s, cut) <= s
    ensures TrimRight(s, cut) != "" ==> !cut(TrimRight(s, cut)[|TrimRight(s, cut)| - 1])
  {
    if s != "" && cut(s[|s| - 1]) {
      TrimRightEnds(s[..|s| - 1], cut);
    }
  }

  lemma TrimIdempotent(s: string, cut: char -> bool)
    ensures Trim(Trim(s, cut), cut) == Trim(s, cut)
  {
    TrimLeftEnds(s, cut);
    TrimRightEnds(TrimLeft(s, cut), cut);
    TrimIdentity(Trim(s, cut), cut);
  }

  /** `r` is `s` between the positions `i` and `j`, and only what is to be cut lies outside. */
  predicate CutTo(s: string, cut: char -> bool, i: nat, j: nat, r: string) {
    && i <= j <= |s| && r == s[i..j]
    && (forall k :: 0 <= k < i ==> cut(s[k])) && (forall k :: j <= k < |s| ==> cut(s[k]))
    && (r != "" ==> !cut(r[0]) && !cut(r[|r| - 1]))
  }

  lemma {:induction false} TrimLeftCuts(s: string, cut: char -> bool) returns (i: nat)
    ensures i <= |s| && TrimLeft(s, cut) == s[i..] && forall k :: 0 <= k < i ==> cut(s[k])
  {
    if s != "" && cut(s[0]) {
      var n := TrimLeftCuts(s[1..], cut);
      i := n + 1;
      assert s[1..][n..] == s[i..];
      assert forall k :: 0 < k < i ==> s[k] == s[1..][k - 1];
    } else {
      i := 0;
      assert s[0..] == s;
    }
  }

  lemma {:induction false} TrimRightCuts(s: string, cut: char -> bool) returns (j: nat)
    ensures j <= |s| && TrimRight(s, cut) == s[..j] && forall k :: j <= k < |s| ==> cut(s[k])
  {
    if s != "" && cut(s[|s| - 1]) {
      j := TrimRightCuts(s[..|s| - 1], cut);
    } else {
      j := |s|;
      assert s[..|s|] == s;
    }
  }

  /** Trimming removes what is to be cut from both ends, all of it and nothing else. */
  lemma TrimCuts(s: string, cut: char -> bool) returns (i: nat, j: nat)
    ensures CutTo(s, cut, i, j, Trim(s, cut))
  {
    i := TrimLeftCuts(s, cut);
    var left := s[i..];
    var n := TrimRightCuts(left, cut);
    j := i + n;
    assert left[..n] == s[i..j];
    assert forall k :: j <= k < |s| ==> s[k] == left[k - i];
    TrimLeftEnds(s, cut);
    TrimRightEnds(left, cut);
    if n > 0 {
      assert left[..n][0] == left[0];
    }
  }
}
