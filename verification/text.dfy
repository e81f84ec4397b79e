/** String helpers the engine's log lines need: decimal rendering of
    integers (JavaScript template interpolation), the 【name】 prefix
    rule, and global literal replacement. The replacement models
    `String.prototype.replace` with a `/g` pattern for replacement strings
    without `$`; JavaScript would expand `$` patterns in them. Numerals are
    those of unbounded integers, not of JavaScript doubles. */
module Text {

  /** `pat` occurs as a contiguous slice of `s`. */
  ghost predicate Occurs(pat: string, s: string) {
    exists k :: OccursAt(pat, s, k)
  }

  /** `pat` occurs in `s` starting at index `k`. */
  predicate OccursAt(pat: string, s: string, k: int) {
    0 <= k && k + |pat| <= |s| && s[k..k + |pat|] == pat
  }

  /** A string occurs at the end of anything it is appended to. */
  lemma OccursAtEnd(s: string, x: string)
    ensures Occurs(x, s + x)
  {
    assert OccursAt(x, s + x, |s|);
  }

  /** An occurrence in a prefix is an occurrence in the whole. */
  lemma OccursInPrefix(x: string, s: string, t: string)
    requires Occurs(x, s) && s <= t
    ensures Occurs(x, t)
  {
    var k :| OccursAt(x, s, k);
    assert t[k..k + |x|] == s[k..k + |x|];
    assert OccursAt(x, t, k);
  }

  /** An occurrence in the tail of `s` is an occurrence in `s`. */
  lemma OccursInTail(pat: string, s: string)
    requires |s| > 0
    requires Occurs(pat, s[1..])
    ensures Occurs(pat, s)
  {
    var k :| OccursAt(pat, s[1..], k);
    assert s[k + 1..k + 1 + |pat|] == s[1..][k..k + |pat|];
    assert OccursAt(pat, s, k + 1);
  }

  // ---------------------------------------------------------------------
  // Decimal rendering

  predicate IsDigit(c: char) { '0' <= c <= '9' }

  predicate AllDigits(s: string) {
    forall i :: 0 <= i < |s| ==> IsDigit(s[i])
  }

  function DigitChar(d: int): (c: char)
    requires 0 <= d < 10
    ensures IsDigit(c)
  {
    (48 + d) as char
  }

  function DigitValue(c: char): int
    requires IsDigit(c)
  {
    c as int - 48
  }

  /** The decimal numeral of `n`, without leading zeros. */
  function NatToString(n: nat): (s: string)
    ensures |s| > 0 && AllDigits(s)
    ensures |s| > 1 ==> s[0] != '0'
    decreases n
  {
    if n < 10 then [DigitChar(n)] else NatToString(n / 10) + [DigitChar(n % 10)]
  }

  /** `${i}` for an integer: a leading '-' for negatives, then the numeral. */
  function IntToString(i: int): (s: string)
    ensures |s| > 0
    ensures i < 0 <==> s[0] == '-'
  {
    if i < 0 then "-" + NatToString(-i) else NatToString(i)
  }

  /** Reads a string of decimal digits (the inverse of `NatToString`). */
  function ParseDigits(s: string): nat
    requires AllDigits(s)
    decreases |s|
  {
    if |s| == 0 then 0 else ParseDigits(s[..|s| - 1]) * 10 + DigitValue(s[|s| - 1])
  }

  /** Reads an optionally '-'-signed decimal numeral. */
  function ParseSigned(s: string): int
    requires |s| > 0
    requires if s[0] == '-' then AllDigits(s[1..]) else AllDigits(s)
  {
    if s[0] == '-' then 0 - ParseDigits(s[1..]) else ParseDigits(s)
  }

  lemma {:induction false} ParseNatToString(n: nat)
    ensures ParseDigits(NatToString(n)) == n
    decreases n
  {
    if n >= 10 {
      var s := NatToString(n);
      assert s[..|s| - 1] == NatToString(n / 10);
      ParseNatToString(n / 10);
    }
  }

  /** Rendering an integer and reading it back gives the integer. */
  lemma IntToStringRoundTrip(i: int)
    ensures var s := IntToString(i);
      && (if s[0] == '-' then AllDigits(s[1..]) else AllDigits(s))
      && ParseSigned(s) == i
  {
    if i < 0 {
      assert IntToString(i)[1..] == NatToString(-i);
      ParseNatToString(-i);
    } else {
      ParseNatToString(i);
    }
  }

  /** Distinct integers render as distinct strings. */
  lemma IntToStringInjective(i: int, j: int)
    requires IntToString(i) == IntToString(j)
    ensures i == j
  {
    IntToStringRoundTrip(i);
    IntToStringRoundTrip(j);
  }

  // ---------------------------------------------------------------------
  // The 【name】 prefix

  function Tag(name: string): string {
    "【" + name + "】"
  }

  /** `text`, prefixed with 【name】 unless it already starts with it. */
  function WithTag(name: string, text: string): (r: string)
    ensures Tag(name) <= r
    ensures r == text || r == Tag(name) + text
    ensures r == text <==> Tag(name) <= text
  {
    if Tag(name) <= text then text else Tag(name) + text
  }

  /** Prefixing twice is prefixing once. */
  lemma WithTagIdempotent(name: string, text: string)
    ensures WithTag(name, WithTag(name, text)) == WithTag(name, text)
  {
  }

  // ---------------------------------------------------------------------
  // Global literal replacement

  /** Replaces every non-overlapping occurrence of `pat`, scanning left to right. */
  function ReplaceAll(s: string, pat: string, rep: string): string
    requires |pat| > 0
    decreases |s|
  {
    if |s| < |pat| then s
    else if s[..|pat|] == pat then rep + ReplaceAll(s[|pat|..], pat, rep)
    else [s[0]] + ReplaceAll(s[1..], pat, rep)
  }

  /** Without an occurrence of the pattern the text is returned unchanged. */
  lemma {:induction false} ReplaceAllAbsent(s: string, pat: string, rep: string)
    requires |pat| > 0
    requires !Occurs(pat, s)
    ensures ReplaceAll(s, pat, rep) == s
    decreases |s|
  {
    if |s| >= |pat| {
      assert !OccursAt(pat, s, 0);
      assert !Occurs(pat, s[1..]) by {
        if Occurs(pat, s[1..]) {
          OccursInTail(pat, s);
        }
      }
      ReplaceAllAbsent(s[1..], pat, rep);
    }
  }

  /** The pattern's first character appears nowhere else in it, as in
      `{Sect}`, `{Location}` and `{Weather}`; two occurrences then never
      overlap. */
  predicate HeadUnique(pat: string) {
    |pat| > 0 && forall i :: 0 < i < |pat| ==> pat[i] != pat[0]
  }

  /** `parts` glued together with `sep` between neighbours. */
  function Join(parts: seq<string>, sep: string): string
    requires |parts| > 0
    decreases |parts|
  {
    if |parts| == 1 then parts[0] else parts[0] + sep + Join(parts[1..], sep)
  }

  /** A pattern-free prefix followed by the pattern does not start with the
      pattern. */
  lemma NoMatchAtHead(p: string, pat: string, rest: string)
    requires HeadUnique(pat)
    requires |p| > 0
    requires !Occurs(pat, p)
    ensures (p + pat + rest)[..|pat|] != pat
  {
    var s := p + pat + rest;
    if |p| >= |pat| {
      assert s[..|pat|] == p[0..0 + |pat|];
      assert !OccursAt(pat, p, 0);
    } else {
      assert s[..|pat|][|p|] == pat[0] != pat[|p|];
    }
  }

  lemma {:induction false} ReplaceAllAfterPlain(p: string, pat: string, rep: string, rest: string)
    requires HeadUnique(pat)
    requires !Occurs(pat, p)
    ensures ReplaceAll(p + pat + rest, pat, rep) == p + rep + ReplaceAll(rest, pat, rep)
    decreases |p|
  {
    var s := p + pat + rest;
    if |p| == 0 {
      assert s == pat + rest;
      assert s[..|pat|] == pat;
      assert s[|pat|..] == rest;
    } else {
      NoMatchAtHead(p, pat, rest);
      assert ReplaceAll(s, pat, rep) == [s[0]] + ReplaceAll(s[1..], pat, rep);
      assert !Occurs(pat, p[1..]) by {
        if Occurs(pat, p[1..]) {
          OccursInTail(pat, p);
        }
      }
      assert s[1..] == p[1..] + pat + rest;
      ReplaceAllAfterPlain(p[1..], pat, rep, rest);
      assert [p[0]] + p[1..] == p;
    }
  }

  /** Replacement substitutes exactly the separators: a text made of
      pattern-free pieces joined by the pattern comes out as the same pieces
      joined by the replacement. */
  lemma {:induction false} ReplaceAllJoin(parts: seq<string>, pat: string, rep: string)
    requires |parts| > 0
    requires HeadUnique(pat)
    requires forall i :: 0 <= i < |parts| ==> !Occurs(pat, parts[i])
    ensures ReplaceAll(Join(parts, pat), pat, rep) == Join(parts, rep)
    decreases |parts|
  {
    if |parts| == 1 {
      ReplaceAllAbsent(parts[0], pat, rep);
    } else {
      ReplaceAllAfterPlain(parts[0], pat, rep, Join(parts[1..], pat));
      ReplaceAllJoin(parts[1..], pat, rep);
    }
  }
}
