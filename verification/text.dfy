/** The handful of Python `str` operations the modelled code relies on:
    `strip()`, `startswith`, the substring test `in`, `lower()`, and the
    decimal rendering of an integer in an f-string. */
module Text {

  /** The characters for which Python's `str.isspace()` holds: the ones
      `strip()` removes when called without arguments. */
  const SpaceChars: set<char> := {
    '\t', '\n', '\U{0B}', '\U{0C}', '\r',
    '\U{1C}', '\U{1D}', '\U{1E}', '\U{1F}', ' ',
    '\U{85}', '\U{A0}', '\U{1680}',
    '\U{2000}', '\U{2001}', '\U{2002}', '\U{2003}', '\U{2004}', '\U{2005}',
    '\U{2006}', '\U{2007}', '\U{2008}', '\U{2009}', '\U{200A}',
    '\U{2028}', '\U{2029}', '\U{202F}', '\U{205F}', '\U{3000}'
  }

  predicate IsSpace(c: char) {
    c in SpaceChars
  }

  /** True when every character is whitespace; such a string is falsy after `strip()`. */
  predicate IsBlank(s: string) {
    forall i :: 0 <= i < |s| ==> IsSpace(s[i])
  }

  /** The first index at or after `i` that does not hold whitespace, or `|s|`. */
  function SkipSpaces(s: string, i: nat): (k: nat)
    requires i <= |s|
    ensures i <= k <= |s|
    ensures forall j :: i <= j < k ==> IsSpace(s[j])
    ensures k < |s| ==> !IsSpace(s[k])
    decreases |s| - i
  {
    if i < |s| && IsSpace(s[i]) then SkipSpaces(s, i + 1) else i
  }

  /** The end of `s[lo..hi]` once trailing whitespace is dropped. */
  function BackOverSpaces(s: string, lo: nat, hi: nat): (k: nat)
    requires lo <= hi <= |s|
    ensures lo <= k <= hi
    ensures forall j :: k <= j < hi ==> IsSpace(s[j])
    ensures k > lo ==> !IsSpace(s[k - 1])
    decreases hi
  {
    if hi > lo && IsSpace(s[hi - 1]) then BackOverSpaces(s, lo, hi - 1) else hi
  }

  /** `r` sits in `s` at index `i` with nothing but whitespace around it. */
  predicate BlankAround(s: string, r: string, i: int) {
    0 <= i <= |s| - |r| && r == s[i..i + |r|] && IsBlank(s[..i]) && IsBlank(s[i + |r|..])
  }

  /** Neither end of `r` is whitespace. */
  predicate Trimmed(r: string) {
    r == [] || (!IsSpace(r[0]) && !IsSpace(r[|r| - 1]))
  }

  /** Python's `s.strip()`: the infix that neither starts nor ends with
      whitespace, everything around it being whitespace. */
  function Strip(s: string): (r: string)
    ensures BlankAround(s, r, SkipSpaces(s, 0))
    ensures Trimmed(r)
  {
    var a := SkipSpaces(s, 0);
    var b := BackOverSpaces(s, a, |s|);
    assert forall j :: 0 <= j < a ==> s[..a][j] == s[j];
    assert forall j :: 0 <= j < |s| - b ==> s[b..][j] == s[b + j];
    s[a..b]
  }

  /** Those two properties pin the stripped text down: any trimmed infix
      with whitespace around it is what `strip()` returns. */
  lemma StripUnique(s: string, r: string, i: int)
    requires BlankAround(s, r, i) && Trimmed(r)
    ensures Strip(s) == r
  {
    var a := SkipSpaces(s, 0);
    var b := BackOverSpaces(s, a, |s|);
    assert forall j :: 0 <= j < i ==> s[j] == s[..i][j];
    assert forall j :: i + |r| <= j < |s| ==> s[j] == s[i + |r|..][j - i - |r|];
    if r == [] {
      assert a == |s|;
    } else {
      assert s[i] == r[0] && s[i + |r| - 1] == r[|r| - 1];
      assert a == i;
      assert b == i + |r|;
    }
  }

  /** Whitespace on both sides of a join is whitespace. */
  lemma BlankJoin(a: string, b: string)
    requires IsBlank(a) && IsBlank(b)
    ensures IsBlank(a + b)
  {
    assert forall j :: 0 <= j < |a + b| ==> (a + b)[j] == if j < |a| then a[j] else b[j - |a|];
  }

  /** Adding whitespace on both sides keeps an infix surrounded by whitespace. */
  lemma BlankAroundWiden(lead: string, s: string, trail: string, r: string, i: int)
    requires IsBlank(lead) && IsBlank(trail) && BlankAround(s, r, i)
    ensures BlankAround(lead + s + trail, r, |lead| + i)
  {
    var t := lead + s + trail;
    var k := |lead| + i;
    assert t[..k] == lead + s[..i];
    assert t[k + |r|..] == s[i + |r|..] + trail;
    assert t[k..k + |r|] == s[i..i + |r|];
    BlankJoin(lead, s[..i]);
    BlankJoin(s[i + |r|..], trail);
  }

  /** Surrounding whitespace never changes the stripped text: two strings
      that differ only in outer whitespace strip to the same value. */
  lemma StripIgnoresOuterBlanks(lead: string, s: string, trail: string)
    requires IsBlank(lead) && IsBlank(trail)
    ensures Strip(lead + s + trail) == Strip(s)
  {
    var r := Strip(s);
    var i := SkipSpaces(s, 0);
    BlankAroundWiden(lead, s, trail, r, i);
    StripUnique(lead + s + trail, r, |lead| + i);
  }

  /** A string strips to "" exactly when it is blank, which is how Python's
      `if s.strip():` reads. */
  lemma StripEmptyIffBlank(s: string)
    ensures Strip(s) == [] <==> IsBlank(s)
  {
    var r := Strip(s);
    var i := SkipSpaces(s, 0);
    if r == [] {
      assert i == |s|;
      assert s[..i] == s;
    } else {
      assert s[i] == r[0];
    }
  }

  /** Python's `s.startswith(p)`. */
  predicate StartsWith(s: string, p: string) {
    |p| <= |s| && s[..|p|] == p
  }

  /** `sub` occurs in `s` starting at index `i`. */
  predicate OccursAt(s: string, sub: string, i: int) {
    0 <= i && i + |sub| <= |s| && s[i..i + |sub|] == sub
  }

  /** Python's substring test `sub in s`, scanning start positions left to right. */
  predicate Contains(s: string, sub: string)
    decreases |s|
  {
    StartsWith(s, sub) || (|s| > 0 && Contains(s[1..], sub))
  }

  lemma {:induction false} ContainsIffOccurs(s: string, sub: string)
    ensures Contains(s, sub) <==> exists i :: OccursAt(s, sub, i)
    decreases |s|
  {
    if StartsWith(s, sub) {
      assert OccursAt(s, sub, 0);
    } else if |s| > 0 {
      ContainsIffOccurs(s[1..], sub);
      if Contains(s[1..], sub) {
        var i :| OccursAt(s[1..], sub, i);
        assert s[1..][i..i + |sub|] == s[i + 1..i + 1 + |sub|];
        assert OccursAt(s, sub, i + 1);
      }
      if exists i :: OccursAt(s, sub, i) {
        var i :| OccursAt(s, sub, i);
        assert i != 0;
        assert s[1..][i - 1..i - 1 + |sub|] == s[i..i + |sub|];
        assert OccursAt(s[1..], sub, i - 1);
      }
    }
  }

  /** An occurrence inside a piece is an occurrence in any string built around it. */
  lemma ContainsInContext(pre: string, s: string, post: string, sub: string)
    requires Contains(s, sub)
    ensures Contains(pre + s + post, sub)
  {
    ContainsIffOccurs(s, sub);
    var i :| OccursAt(s, sub, i);
    var t := pre + s + post;
    assert t[|pre| + i..|pre| + i + |sub|] == s[i..i + |sub|];
    assert OccursAt(t, sub, |pre| + i);
    ContainsIffOccurs(t, sub);
  }

  /** A string lacking one of the characters of `sub` does not contain `sub`. */
  lemma MissingCharRulesOut(s: string, sub: string, k: int)
    requires 0 <= k < |sub| && sub[k] !in s
    ensures !Contains(s, sub)
  {
    forall i | 0 <= i
      ensures !OccursAt(s, sub, i)
    {
      if i + |sub| <= |s| {
        assert s[i..i + |sub|][k] == s[i + k];
      }
    }
    ContainsIffOccurs(s, sub);
  }

  /** When the first character of `sub` occurs exactly once in a string, and
      is not followed there by the second character of `sub`, the string
      does not contain `sub`. */
  lemma FalseStartRulesOut(pre: string, post: string, sub: string)
    requires |sub| >= 2 && sub[0] !in pre && sub[0] !in post
    requires post == [] || post[0] != sub[1]
    ensures !Contains(pre + [sub[0]] + post, sub)
  {
    var s := pre + [sub[0]] + post;
    forall i | 0 <= i
      ensures !OccursAt(s, sub, i)
    {
      if i + |sub| <= |s| {
        assert s[i..i + |sub|][0] == s[i] && s[i..i + |sub|][1] == s[i + 1];
        if i < |pre| {
          assert s[i] == pre[i];
        } else if i > |pre| {
          assert s[i] == post[i - |pre| - 1];
        } else {
          assert s[i + 1] == post[0];
        }
      }
    }
    ContainsIffOccurs(s, sub);
  }

  /** A string without upper-case ASCII letters is its own lower-case form. */
  lemma LowerOfLowercase(s: string)
    requires forall c :: c in s ==> !('A' <= c <= 'Z')
    ensures Lower(s) == s
  {
    assert forall i :: 0 <= i < |s| ==> s[i] in s;
  }

  function LowerChar(c: char): char {
    if 'A' <= c <= 'Z' then (c as int + 32) as char else c
  }

  function UpperChar(c: char): char {
    if 'a' <= c <= 'z' then (c as int - 32) as char else c
  }

  /** Python's `s.lower()` on the ASCII letters. */
  function Lower(s: string): (r: string)
    ensures |r| == |s|
    ensures forall i :: 0 <= i < |s| ==> r[i] == LowerChar(s[i])
  {
    seq(|s|, i requires 0 <= i < |s| => LowerChar(s[i]))
  }

  /** Python's `s.upper()` on the ASCII letters. */
  function Upper(s: string): (r: string)
    ensures |r| == |s|
    ensures forall i :: 0 <= i < |s| ==> r[i] == UpperChar(s[i])
  {
    seq(|s|, i requires 0 <= i < |s| => UpperChar(s[i]))
  }

  /** Lower-casing forgets the case a string was written in. */
  lemma LowerForgetsCase(s: string)
    ensures Lower(Upper(s)) == Lower(s)
    ensures Lower(Lower(s)) == Lower(s)
  {
    assert forall i :: 0 <= i < |s| ==> LowerChar(UpperChar(s[i])) == LowerChar(s[i]);
  }

  function DigitChar(d: nat): char
    requires d < 10
  {
    ('0' as int + d) as char
  }

  function DigitValue(c: char): int {
    c as int - '0' as int
  }

  /** The decimal text of a non-negative integer, as an f-string renders it. */
  function NatToString(n: nat): (r: string)
    ensures |r| >= 1
    ensures forall i :: 0 <= i < |r| ==> '0' <= r[i] <= '9'
    ensures |r| > 1 ==> r[0] != '0'
  {
    if n < 10 then [DigitChar(n)] else NatToString(n / 10) + [DigitChar(n % 10)]
  }

  /** Reads a string of decimal digits back into a number. */
  function ParseDecimal(s: string): int {
    if |s| == 0 then 0 else ParseDecimal(s[..|s| - 1]) * 10 + DigitValue(s[|s| - 1])
  }

  /** The decimal rendering loses nothing: reading it back gives the number. */
  lemma {:induction false} NatToStringRoundTrip(n: nat)
    ensures ParseDecimal(NatToString(n)) == n
  {
    if n >= 10 {
      var prefix := NatToString(n / 10);
      var s := prefix + [DigitChar(n % 10)];
      assert s[..|s| - 1] == prefix;
      NatToStringRoundTrip(n / 10);
    }
  }

  /** Different numbers render as different text. */
  lemma NatToStringInjective(a: nat, b: nat)
    requires NatToString(a) == NatToString(b)
    ensures a == b
  {
    NatToStringRoundTrip(a);
    NatToStringRoundTrip(b);
  }
}
