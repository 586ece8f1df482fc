/** String helpers with Python's semantics: `str.split`, `str.find`, `in`,
    `str.endswith`, `str.lower` (ASCII letters) and decimal formatting. */
module Text {
  import opened Wrappers

  /** Number of occurrences of `c` in `s`. */
  function Count(s: string, c: char): nat {
    if |s| == 0 then 0 else (if s[0] == c then 1 else 0) + Count(s[1..], c)
  }

  /** `sep.join(parts)`. */
  function Join(parts: seq<string>, sep: char): string {
    if |parts| == 0 then ""
    else if |parts| == 1 then parts[0]
    else parts[0] + [sep] + Join(parts[1..], sep)
  }

  /** `s.split(sep)` for a one-character separator: one part more than there
      are separators, no part holds the separator, and joining gives `s` back. */
  function Split(s: string, sep: char): (parts: seq<string>)
    ensures |parts| == Count(s, sep) + 1
    ensures forall i :: 0 <= i < |parts| ==> sep !in parts[i]
    ensures Join(parts, sep) == s
  {
    if |s| == 0 then [""]
    else
      var tail := Split(s[1..], sep);
      if s[0] == sep then
        assert ([""] + tail)[1..] == tail;
        [""] + tail
      else
        var parts := [[s[0]] + tail[0]] + tail[1..];
        assert parts[1..] == tail[1..];
        assert s == [s[0]] + s[1..];
        parts
  }

  /** The first part of a split is the longest prefix of `s` free of `sep`:
      either it is all of `s` or the separator follows it. */
  lemma SplitHead(s: string, sep: char)
    ensures Split(s, sep)[0] == s[..|Split(s, sep)[0]|]
    ensures |Split(s, sep)[0]| == |s| || s[|Split(s, sep)[0]|] == sep
  {
    var parts := Split(s, sep);
    if |parts| > 1 {
      assert s == parts[0] + [sep] + Join(parts[1..], sep);
    }
  }

  /** A string that starts with a separator-free `p` keeps `p` in its first
      part. */
  lemma SplitHeadKeepsPrefix(s: string, p: string, sep: char)
    requires OccursAt(s, p, 0)
    requires forall i :: 0 <= i < |p| ==> p[i] != sep
    ensures |Split(s, sep)[0]| >= |p|
    ensures OccursAt(Split(s, sep)[0], p, 0)
  {
    SplitHead(s, sep);
    forall i | 0 <= i < |p|
      ensures s[i] != sep
    {
      assert s[i] == s[..|p|][i];
    }
    var h := Split(s, sep)[0];
    assert |h| >= |p|;
    assert h[..|p|] == s[..|p|];
  }

  /** Splitting a string free of the separator gives the string alone. */
  lemma {:induction false} SplitNoSeparator(a: string, sep: char)
    requires sep !in a
    ensures Split(a, sep) == [a]
    decreases |a|
  {
    if |a| > 0 {
      SplitNoSeparator(a[1..], sep);
      assert [a[0]] + a[1..] == a;
    }
  }

  /** A separator-free prefix followed by the separator splits off as the
      first part. */
  lemma {:induction false} SplitPrefix(a: string, sep: char, rest: string)
    requires sep !in a
    ensures Split(a + [sep] + rest, sep) == [a] + Split(rest, sep)
    decreases |a|
  {
    var s := a + [sep] + rest;
    if |a| == 0 {
      assert s[1..] == rest;
    } else {
      SplitPrefix(a[1..], sep, rest);
      assert s[1..] == a[1..] + [sep] + rest;
      assert [a[0]] + a[1..] == a;
    }
  }

  /** `p` occurs in `s` at offset `k`. */
  predicate OccursAt(s: string, p: string, k: nat) {
    k + |p| <= |s| && s[k..k + |p|] == p
  }

  /** The first occurrence of `p` in `s` at or after offset `i`. */
  function FindFrom(s: string, p: string, i: nat): (r: Option<nat>)
    ensures r.Some? ==> i <= r.value && OccursAt(s, p, r.value)
    ensures r.Some? ==> forall k :: i <= k < r.value ==> !OccursAt(s, p, k)
    ensures r.None? ==> forall k :: i <= k ==> !OccursAt(s, p, k)
    decreases |s| - i
  {
    if i + |p| > |s| then None
    else if s[i..i + |p|] == p then Some(i)
    else FindFrom(s, p, i + 1)
  }

  /** `s.find(p)`, with `None` for Python's -1. */
  function Find(s: string, p: string): Option<nat> {
    FindFrom(s, p, 0)
  }

  /** `p in s`. */
  predicate Contains(s: string, p: string) {
    Find(s, p).Some?
  }

  /** An occurrence with none before it is the one `Find` reports. */
  lemma FindIsFirst(s: string, p: string, k: nat)
    requires OccursAt(s, p, k)
    requires forall j :: 0 <= j < k ==> !OccursAt(s, p, j)
    ensures Find(s, p) == Some(k)
  {
  }

  /** Appending text after the first occurrence does not move it. */
  lemma FindExtend(a: string, b: string, p: string, k: nat)
    requires Find(a, p) == Some(k)
    ensures Find(a + b, p) == Some(k)
  {
    assert (a + b)[k..k + |p|] == a[k..k + |p|];
    forall j | 0 <= j < k
      ensures !OccursAt(a + b, p, j)
    {
      assert !OccursAt(a, p, j);
    }
    FindIsFirst(a + b, p, k);
  }

  /** `s.endswith(suffix)`. */
  predicate EndsWith(s: string, suffix: string) {
    |suffix| <= |s| && s[|s| - |suffix|..] == suffix
  }

  /** `c.lower()` for ASCII letters; other characters are left alone. */
  function LowerChar(c: char): char {
    if 'A' <= c <= 'Z' then (c as int + 32) as char else c
  }

  /** `s.lower()` restricted to ASCII letters. */
  function Lower(s: string): (r: string)
    ensures |r| == |s|
    ensures forall i :: 0 <= i < |s| ==> r[i] == LowerChar(s[i])
  {
    seq(|s|, i requires 0 <= i < |s| => LowerChar(s[i]))
  }

  predicate IsDigit(c: char) {
    '0' <= c <= '9'
  }

  predicate AllDigits(s: string) {
    forall i :: 0 <= i < |s| ==> IsDigit(s[i])
  }

  /** The ASCII digit for `d`. */
  function DigitChar(d: nat): (c: char)
    requires d < 10
    ensures IsDigit(c) && c as int - '0' as int == d
  {
    (d + '0' as int) as char
  }

  /** `int(s)` for a string of ASCII digits. */
  function DecimalValue(s: string): nat
    requires AllDigits(s)
    decreases |s|
  {
    if |s| == 0 then 0
    else 10 * DecimalValue(s[..|s| - 1]) + (s[|s| - 1] as int - '0' as int)
  }

  /** `str(n)`: a non-empty run of digits whose value is `n`, with no leading
      zero unless `n` is zero. */
  function NatToDecimal(n: nat): (r: string)
    ensures |r| >= 1 && AllDigits(r)
    ensures DecimalValue(r) == n
    ensures r[0] == '0' <==> n == 0
    ensures |r| > 1 ==> r[0] != '0'
    decreases n
  {
    if n < 10 then [DigitChar(n)]
    else
      var r := NatToDecimal(n / 10) + [DigitChar(n % 10)];
      assert r[..|r| - 1] == NatToDecimal(n / 10);
      r
  }
  /** A digit run that starts with a non-zero digit has a positive value. */
  lemma {:induction false} LeadingDigitPositive(s: string)
    requires s != "" && AllDigits(s) && s[0] != '0'
    ensures DecimalValue(s) > 0
    decreases |s|
  {
    if |s| > 1 {
      LeadingDigitPositive(s[..|s| - 1]);
    }
  }

  /** The other direction of `NatToDecimal`: a non-empty digit run without a
      leading zero is exactly `str` of its value. */
  lemma {:induction false} DecimalCanonical(s: string)
    requires s != "" && AllDigits(s)
    requires |s| > 1 ==> s[0] != '0'
    ensures NatToDecimal(DecimalValue(s)) == s
    decreases |s|
  {
    var n := DecimalValue(s);
    if |s| > 1 {
      var front := s[..|s| - 1];
      var d := s[|s| - 1] as int - '0' as int;
      LeadingDigitPositive(front);
      DecimalCanonical(front);
      assert n / 10 == DecimalValue(front) && n % 10 == d;
      assert s == front + [s[|s| - 1]];
    }
  }

}
