/** The Python `str` operations the validation code relies on, over `string`
    (a `seq<char>`): `split` on one character, `split(sep, 1)`, `startswith`,
    `endswith`, `replace(pat, "")` and `int()`. */
module Strings {
  import opened Results

  predicate StartsWith(s: string, prefix: string) {
    |prefix| <= |s| && s[..|prefix|] == prefix
  }

  predicate EndsWith(s: string, suffix: string) {
    |suffix| <= |s| && s[|s| - |suffix|..] == suffix
  }

  /** `sep.join(parts)`: the inverse of `Split`. */
  function Join(parts: seq<string>, sep: char): string
  {
    if |parts| == 0 then ""
    else if |parts| == 1 then parts[0]
    else parts[0] + [sep] + Join(parts[1..], sep)
  }

  /** A character other than the separator occurs in a join only through a part. */
  lemma {:induction false} JoinAvoids(parts: seq<string>, sep: char, c: char)
    requires c != sep
    requires forall i :: 0 <= i < |parts| ==> c !in parts[i]
    ensures c !in Join(parts, sep)
    decreases |parts|
  {
    if |parts| > 1 {
      JoinAvoids(parts[1..], sep, c);
    }
  }

  /** `s.split(sep)`: the maximal runs between separators, so there is always at
      least one part (`"".split(",") == [""]`) and one more part than separators. */
  function Split(s: string, sep: char): (parts: seq<string>)
    ensures |parts| >= 1
    ensures forall i :: 0 <= i < |parts| ==> sep !in parts[i]
    ensures |parts| == 1 <==> sep !in s
    ensures Join(parts, sep) == s
    decreases |s|
  {
    if |s| == 0 then [""]
    else
      var rest := Split(s[1..], sep);
      assert s == [s[0]] + s[1..];
      if s[0] == sep then
        [""] + rest
      else if |rest| == 1 then
        [[s[0]] + rest[0]]
      else
        assert Join(rest, sep) == rest[0] + [sep] + Join(rest[1..], sep);
        var parts := [[s[0]] + rest[0]] + rest[1..];
        assert parts[1..] == rest[1..];
        parts
  }

  lemma {:induction false} SplitNoSeparator(s: string, sep: char)
    requires sep !in s
    ensures Split(s, sep) == [s]
  {
    var parts := Split(s, sep);
    assert |parts| == 1;
    assert Join(parts, sep) == parts[0];
  }

  lemma {:induction false} SplitAfterSeparator(a: string, sep: char, b: string)
    requires sep !in a
    ensures Split(a + [sep] + b, sep) == [a] + Split(b, sep)
    decreases |a|
  {
    var s := a + [sep] + b;
    if |a| == 0 {
      assert s[1..] == b;
    } else {
      assert s[1..] == a[1..] + [sep] + b;
      SplitAfterSeparator(a[1..], sep, b);
      assert [a[0]] + a[1..] == a;
    }
  }

  /** Splitting a join gives the parts back, provided no part contains the separator. */
  lemma {:induction false} SplitJoin(parts: seq<string>, sep: char)
    requires |parts| >= 1
    requires forall i :: 0 <= i < |parts| ==> sep !in parts[i]
    ensures Split(Join(parts, sep), sep) == parts
    decreases |parts|
  {
    if |parts| == 1 {
      SplitNoSeparator(parts[0], sep);
    } else {
      SplitJoin(parts[1..], sep);
      SplitAfterSeparator(parts[0], sep, Join(parts[1..], sep));
      assert [parts[0]] + parts[1..] == parts;
    }
  }

  /** `s.split(sep, 1)` unpacked into two names: `None` where Python's unpack raises. */
  function SplitOnce(s: string, sep: char): (r: Option<(string, string)>)
    ensures r.None? <==> sep !in s
    ensures r.Some? ==> s == r.value.0 + [sep] + r.value.1 && sep !in r.value.0
  {
    var parts := Split(s, sep);
    if |parts| == 1 then None
    else
      assert s == parts[0] + [sep] + Join(parts[1..], sep);
      Some((parts[0], s[|parts[0]| + 1..]))
  }

  /** `s.replace(pattern, "")`: occurrences are removed left to right without
      rescanning what the removal joins together. */
  function RemoveAll(s: string, pattern: string): (r: string)
    requires |pattern| > 0
    ensures |r| <= |s|
    ensures StartsWith(s, pattern) ==> |r| <= |s| - |pattern|
    ensures pattern[0] !in s ==> r == s
    decreases |s|
  {
    if |s| == 0 then ""
    else if StartsWith(s, pattern) then RemoveAll(s[|pattern|..], pattern)
    else
      assert s == [s[0]] + s[1..];
      [s[0]] + RemoveAll(s[1..], pattern)
  }

  /** An occurrence of `pattern` starts at position `k` of `s`. */
  predicate OccursAt(s: string, k: int, pattern: string) {
    0 <= k && k + |pattern| <= |s| && s[k..k + |pattern|] == pattern
  }

  lemma OccursAtStartsWith(s: string, k: nat, pattern: string)
    requires k <= |s|
    ensures OccursAt(s, k, pattern) <==> StartsWith(s[k..], pattern)
  {
    if k + |pattern| <= |s| {
      assert s[k..][..|pattern|] == s[k..k + |pattern|];
    }
  }

  /** Text in which no occurrence of the pattern starts is kept as it is. */
  lemma {:induction false} RemoveAllKeeps(s: string, n: nat, pattern: string)
    requires |pattern| > 0 && n <= |s|
    requires forall k :: 0 <= k < n ==> !OccursAt(s, k, pattern)
    ensures RemoveAll(s, pattern) == s[..n] + RemoveAll(s[n..], pattern)
    decreases n
  {
    if n == 0 {
      assert s[0..] == s;
    } else {
      var u := s[n - 1..];
      var rest := RemoveAll(s[n..], pattern);
      OccursAtStartsWith(s, n - 1, pattern);
      RemoveAllSkip(u, pattern);
      assert u[1..] == s[n..];
      calc {
        RemoveAll(s, pattern);
        { RemoveAllKeeps(s, n - 1, pattern); }
        s[..n - 1] + RemoveAll(u, pattern);
        s[..n - 1] + ([s[n - 1]] + rest);
        { AppendAssoc(s[..n - 1], [s[n - 1]], rest); }
        (s[..n - 1] + [s[n - 1]]) + rest;
        { TakeLast(s, n); }
        s[..n] + rest;
      }
    }
  }

  lemma AppendAssoc(a: string, b: string, c: string)
    ensures a + (b + c) == (a + b) + c
  {
  }

  lemma TakeLast(s: string, n: nat)
    requires 0 < n <= |s|
    ensures s[..n - 1] + [s[n - 1]] == s[..n]
  {
  }

  /** A position where the pattern does not start is copied to the output. */
  lemma RemoveAllSkip(s: string, pattern: string)
    requires |pattern| > 0 && |s| > 0 && !StartsWith(s, pattern)
    ensures RemoveAll(s, pattern) == [s[0]] + RemoveAll(s[1..], pattern)
  {
  }

  /** The first occurrence is removed, and the text before it is kept. */
  lemma RemoveAllFirst(a: string, pattern: string, b: string)
    requires |pattern| > 0
    requires forall k :: 0 <= k < |a| ==> !OccursAt(a + pattern + b, k, pattern)
    ensures RemoveAll(a + pattern + b, pattern) == a + RemoveAll(b, pattern)
  {
    var s := a + pattern + b;
    RemoveAllKeeps(s, |a|, pattern);
    assert s[..|a|] == a;
    assert s[|a|..] == pattern + b;
    RemoveAllLeading(pattern, b);
  }

  /** An occurrence at the very start is dropped. */
  lemma RemoveAllLeading(pattern: string, b: string)
    requires |pattern| > 0
    ensures RemoveAll(pattern + b, pattern) == RemoveAll(b, pattern)
  {
    var t := pattern + b;
    assert t[..|pattern|] == pattern;
    assert t[|pattern|..] == b;
  }

  predicate IsDigit(c: char) {
    '0' <= c <= '9'
  }

  predicate AllDigits(s: string) {
    forall i :: 0 <= i < |s| ==> IsDigit(s[i])
  }

  function DigitsValue(s: string): nat
    requires AllDigits(s)
    decreases |s|
  {
    if |s| == 0 then 0
    else 10 * DigitsValue(s[..|s| - 1]) + ((s[|s| - 1] as int) - ('0' as int))
  }

  /** `int(s)` for an optionally signed run of ASCII digits; `None` where it raises. */
  function ParseInt(s: string): Option<int>
  {
    if |s| == 0 then None
    else if s[0] == '-' || s[0] == '+' then
      var digits := s[1..];
      if |digits| > 0 && AllDigits(digits) then
        var magnitude: int := DigitsValue(digits);
        Some(if s[0] == '-' then -magnitude else magnitude)
      else None
    else if AllDigits(s) then Some(DigitsValue(s))
    else None
  }

  /** `str(n)` for a natural number: its decimal digits, most significant first. */
  function ShowNat(n: nat): (r: string)
    ensures |r| >= 1 && AllDigits(r) && DigitsValue(r) == n
  {
    if n < 10 then [(('0' as int) + n) as char]
    else
      var r := ShowNat(n / 10) + [(('0' as int) + n % 10) as char];
      assert r[..|r| - 1] == ShowNat(n / 10);
      r
  }

  /** Reading back a printed natural number gives the number. */
  lemma ParseShow(n: nat)
    ensures ParseInt(ShowNat(n)) == Some(n)
  {
    var s := ShowNat(n);
    assert s[0] != '-' && s[0] != '+' by { assert IsDigit(s[0]); }
  }
}
