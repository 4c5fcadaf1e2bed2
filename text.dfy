/** String helpers with the semantics the bot relies on: `String.prototype.replace`
    with a string pattern and a replacement without `$` patterns, as at every call
    in the bot (only the FIRST occurrence is replaced), and the decimal
    rendering of a non-negative integer inside a template literal. */
module Text {

  /** `pat` occurs in `s` starting at position `i`. */
  predicate OccursAt(s: string, pat: string, i: int) {
    0 <= i && i + |pat| <= |s| && s[i..i + |pat|] == pat
  }

  /** `pat` occurs somewhere in `s`. */
  predicate Occurs(s: string, pat: string) {
    exists i :: 0 <= i <= |s| && OccursAt(s, pat, i)
  }

  /** `i` is the leftmost position at which `pat` occurs in `s`. */
  predicate IsFirstOccurrence(s: string, pat: string, i: int) {
    OccursAt(s, pat, i) && forall j :: 0 <= j < i ==> !OccursAt(s, pat, j)
  }

  /** An occurrence one character further into `s` is an occurrence in `s[1..]`. */
  lemma ShiftOccurrence(s: string, pat: string, i: int)
    requires |s| > 0 && i >= 1
    ensures OccursAt(s, pat, i) <==> OccursAt(s[1..], pat, i - 1)
  {
    if i + |pat| <= |s| {
      assert s[1..][i - 1..i - 1 + |pat|] == s[i..i + |pat|];
    }
  }

  /** Without a match at 0, the occurrences of `pat` in `s` are those of `s[1..]`
      moved one place right, and so is the leftmost one. */
  lemma ShiftFirstOccurrence(s: string, pat: string)
    requires |s| > 0 && !OccursAt(s, pat, 0)
    ensures !Occurs(s, pat) ==> !Occurs(s[1..], pat)
    ensures forall i :: IsFirstOccurrence(s, pat, i) ==>
      i >= 1 && IsFirstOccurrence(s[1..], pat, i - 1)
      && s[..i] == [s[0]] + s[1..][..i - 1] && s[i + |pat|..] == s[1..][i - 1 + |pat|..]
  {
    if Occurs(s[1..], pat) {
      var k :| 0 <= k && OccursAt(s[1..], pat, k);
      ShiftOccurrence(s, pat, k + 1);
    }
    forall i | IsFirstOccurrence(s, pat, i)
      ensures i >= 1 && IsFirstOccurrence(s[1..], pat, i - 1)
      ensures s[..i] == [s[0]] + s[1..][..i - 1] && s[i + |pat|..] == s[1..][i - 1 + |pat|..]
    {
      ShiftOccurrence(s, pat, i);
      forall j | 0 <= j < i - 1 ensures !OccursAt(s[1..], pat, j) {
        ShiftOccurrence(s, pat, j + 1);
      }
    }
  }

  /** `s.replace(pat, rep)` for a string `pat` and a `rep` without `$` patterns
      (`$&`, `$$`, ...), which JavaScript would expand: the leftmost occurrence of `pat`
      is replaced by `rep`; without an occurrence `s` comes back unchanged. An
      empty `pat` occurs at 0, so `rep` is then put in front. */
  function ReplaceFirst(s: string, pat: string, rep: string): (r: string)
    ensures !Occurs(s, pat) ==> r == s
    ensures forall i :: IsFirstOccurrence(s, pat, i) ==> r == s[..i] + rep + s[i + |pat|..]
    decreases |s|
  {
    if |pat| <= |s| && s[..|pat|] == pat then
      assert OccursAt(s, pat, 0);
      rep + s[|pat|..]
    else if s == [] then
      s
    else
      ShiftFirstOccurrence(s, pat);
      var tail := ReplaceFirst(s[1..], pat, rep);
      [s[0]] + tail
  }

  /** Whenever `pat` occurs, it has a leftmost occurrence. */
  lemma {:induction false} FirstOccurrenceExists(s: string, pat: string, i: int)
    requires OccursAt(s, pat, i)
    ensures exists k :: 0 <= k <= i && IsFirstOccurrence(s, pat, k)
    decreases i
  {
    if exists j :: 0 <= j < i && OccursAt(s, pat, j) {
      var j :| 0 <= j < i && OccursAt(s, pat, j);
      FirstOccurrenceExists(s, pat, j);
    } else {
      assert IsFirstOccurrence(s, pat, i);
    }
  }

  /** When `pat` occurs, one copy of it is exchanged for `rep`, so the length
      changes by exactly `|rep| - |pat|`. */
  lemma ReplaceFirstLength(s: string, pat: string, rep: string)
    requires Occurs(s, pat)
    ensures |ReplaceFirst(s, pat, rep)| == |s| - |pat| + |rep|
  {
    var i :| OccursAt(s, pat, i);
    FirstOccurrenceExists(s, pat, i);
  }

  /** A string that starts with `pat` loses exactly that leading copy. */
  lemma ReplaceLeading(pat: string, rep: string, rest: string)
    ensures ReplaceFirst(pat + rest, pat, rep) == rep + rest
  {
    var s := pat + rest;
    assert s[..|pat|] == pat;
    assert IsFirstOccurrence(s, pat, 0);
  }

  /** The character for a decimal digit. */
  function DigitChar(d: nat): (c: char)
    requires d < 10
    ensures '0' <= c <= '9'
  {
    "0123456789"[d]
  }

  /** The value of a decimal digit character. */
  function DigitValue(c: char): (d: nat)
    requires '0' <= c <= '9'
    ensures d < 10
  {
    (c as int - '0' as int) as nat
  }

  /** All characters of `s` are decimal digits. */
  predicate IsDigits(s: string) {
    forall k :: 0 <= k < |s| ==> '0' <= s[k] <= '9'
  }

  /** How a template literal renders a non-negative integer: its decimal digits,
      most significant first, with no leading zero. */
  function NatToString(n: nat): (r: string)
    ensures |r| >= 1 && IsDigits(r)
    ensures |r| > 1 ==> r[0] != '0'
    decreases n
  {
    if n < 10 then [DigitChar(n)] else NatToString(n / 10) + [DigitChar(n % 10)]
  }

  /** The number a string of decimal digits denotes. */
  function DigitsValue(s: string): (n: nat)
    requires IsDigits(s)
  {
    if s == [] then 0 else 10 * DigitsValue(s[..|s| - 1]) + DigitValue(s[|s| - 1])
  }

  /** Reading the rendered digits back gives the number: the rendering loses nothing. */
  lemma {:induction false} NatToStringRoundTrip(n: nat)
    ensures DigitsValue(NatToString(n)) == n
    decreases n
  {
    var r := NatToString(n);
    if n >= 10 {
      NatToStringRoundTrip(n / 10);
      assert r[..|r| - 1] == NatToString(n / 10);
    }
  }

  /** Distinct numbers are rendered differently. */
  lemma NatToStringInjective(m: nat, n: nat)
    requires NatToString(m) == NatToString(n)
    ensures m == n
  {
    NatToStringRoundTrip(m);
    NatToStringRoundTrip(n);
  }
}
