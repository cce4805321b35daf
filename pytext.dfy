/** The pieces of Python's string semantics the scripts rely on: `str.split`,
    `str.join`, slicing with `[:n]` and `[-n:]`, `in`, `re.match`/`re.search`
    with a literal pattern, `str.replace`, `filter` over characters, and
    `int()` applied to a string. */
module PyText {
  import opened Wrappers

  // ---------------------------------------------------------------- search

  /** `sub in s`; also `re.search(p, s)` for a pattern `p` with no
      metacharacters. */
  predicate Contains(s: string, sub: string)
    decreases |s|
  {
    |sub| <= |s| && (s[..|sub|] == sub || Contains(s[1..], sub))
  }

  /** `re.match(p, s)` for a literal pattern `p`: a match at the start only. */
  predicate StartsWith(s: string, prefix: string)
    ensures StartsWith(s, prefix) <==> |prefix| <= |s| && s[..|prefix|] == prefix
    decreases |prefix|
  {
    |prefix| == 0 || (|s| > 0 && s[0] == prefix[0] && StartsWith(s[1..], prefix[1..]))
  }

  lemma {:induction false} ContainsAt(s: string, sub: string, i: nat)
    requires i + |sub| <= |s| && s[i..i + |sub|] == sub
    ensures Contains(s, sub)
    decreases i
  {
    if i > 0 {
      assert s[1..][i - 1..i - 1 + |sub|] == s[i..i + |sub|];
      ContainsAt(s[1..], sub, i - 1);
    } else {
      assert s[..|sub|] == s[0..|sub|];
    }
  }

  lemma {:induction false} ContainsWitness(s: string, sub: string) returns (i: nat)
    requires Contains(s, sub)
    ensures i + |sub| <= |s| && s[i..i + |sub|] == sub
    decreases |s|
  {
    if s[..|sub|] == sub {
      i := 0;
    } else {
      var j := ContainsWitness(s[1..], sub);
      assert s[1..][j..j + |sub|] == s[j + 1..j + 1 + |sub|];
      i := j + 1;
    }
  }

  // ---------------------------------------------------------------- slices

  /** `s[:n]`: the first `n` characters, or all of `s` when it is shorter. */
  function Head(s: string, n: nat): (r: string)
    ensures |r| == if |s| < n then |s| else n
    ensures r <= s
  {
    if |s| <= n then s else s[..n]
  }

  /** `s[-n:]` for `n > 0`: the last `n` characters, or all of `s`. */
  function Tail(s: string, n: nat): (r: string)
    requires n > 0
    ensures |r| == if |s| < n then |s| else n
    ensures r == s[|s| - |r|..]
  {
    if |s| <= n then s else s[|s| - n..]
  }

  function Last<T>(s: seq<T>): T
    requires |s| > 0
  {
    s[|s| - 1]
  }

  // ---------------------------------------------------------------- split / join

  /** `s.split(sep)` for a one-character separator: never empty; `""` splits
      to `[""]`, and two adjacent separators give an empty token. */
  function Split(s: string, sep: char): (r: seq<string>)
    ensures |r| >= 1
    ensures forall k :: 0 <= k < |r| ==> sep !in r[k]
    decreases |s|
  {
    if |s| == 0 then [""]
    else if s[0] == sep then [""] + Split(s[1..], sep)
    else
      var t := Split(s[1..], sep);
      [[s[0]] + t[0]] + t[1..]
  }

  /** `sep.join(parts)`. */
  function Join(sep: string, parts: seq<string>): string
    decreases |parts|
  {
    if |parts| == 0 then ""
    else if |parts| == 1 then parts[0]
    else parts[0] + sep + Join(sep, parts[1..])
  }

  /** Splitting and joining back with the same separator gives the input. */
  lemma {:induction false} JoinSplit(s: string, sep: char)
    ensures Join([sep], Split(s, sep)) == s
    decreases |s|
  {
    if |s| == 0 {
    } else if s[0] == sep {
      JoinSplit(s[1..], sep);
      var rest := Split(s[1..], sep);
      assert ([""] + rest)[1..] == rest;
      assert s == [sep] + s[1..];
    } else {
      JoinSplit(s[1..], sep);
      var t := Split(s[1..], sep);
      var r := [[s[0]] + t[0]] + t[1..];
      if |t| == 1 {
        assert s == [s[0]] + s[1..];
      } else {
        assert r[1..] == t[1..];
        assert Join([sep], t) == t[0] + [sep] + Join([sep], t[1..]);
        assert s == [s[0]] + s[1..];
      }
    }
  }

  /** A string without the separator is its own only token. */
  lemma {:induction false} SplitWithoutSep(s: string, sep: char)
    requires sep !in s
    ensures Split(s, sep) == [s]
    decreases |s|
  {
    if |s| > 0 {
      SplitWithoutSep(s[1..], sep);
      assert s == [s[0]] + s[1..];
    }
  }

  /** Appending one more part to a non-empty join adds the separator and the part. */
  lemma {:induction false} JoinSnoc(sep: string, parts: seq<string>, p: string)
    requires |parts| >= 1
    ensures Join(sep, parts + [p]) == Join(sep, parts) + sep + p
    decreases |parts|
  {
    if |parts| == 1 {
      assert (parts + [p])[1..] == [p];
    } else {
      assert (parts + [p])[1..] == parts[1..] + [p];
      JoinSnoc(sep, parts[1..], p);
    }
  }

  // ---------------------------------------------------------------- filtering

  /** `r` is `s` with some characters deleted, the rest in their order. */
  predicate IsSubsequence(r: string, s: string)
    decreases |s|
  {
    if |r| == 0 then true
    else if |s| == 0 then false
    else if r[0] == s[0] then IsSubsequence(r[1..], s[1..])
    else IsSubsequence(r, s[1..])
  }

  /** `''.join(filter(keep, s))`. The result keeps, in order, exactly the
      characters of `s` that `keep` accepts: it is a subsequence of `s`, holds
      every accepted character as often as `s` does, and no other. */
  function FilterChars(s: string, keep: char -> bool): (r: string)
    ensures forall i :: 0 <= i < |r| ==> keep(r[i])
    ensures |r| <= |s|
    decreases |s|
  {
    if |s| == 0 then ""
    else
      var rest := FilterChars(s[1..], keep);
      if keep(s[0]) then [s[0]] + rest else rest
  }

  /** The filter keeps, in order, exactly the characters of `s` that `keep`
      accepts: its result is a subsequence of `s`, holds every accepted
      character as often as `s` does, and no other character. */
  lemma {:induction false} FilterCharsExact(s: string, keep: char -> bool)
    ensures IsSubsequence(FilterChars(s, keep), s)
    ensures forall c :: keep(c) ==> multiset(FilterChars(s, keep))[c] == multiset(s)[c]
    ensures forall c :: !keep(c) ==> multiset(FilterChars(s, keep))[c] == 0
    decreases |s|
  {
    if |s| > 0 {
      FilterCharsExact(s[1..], keep);
      assert s == [s[0]] + s[1..];
      assert multiset(s) == multiset{s[0]} + multiset(s[1..]);
    }
  }

  /** Filtering with the same test twice changes nothing the second time. */
  lemma {:induction false} FilterCharsIdempotent(s: string, keep: char -> bool)
    ensures FilterChars(FilterChars(s, keep), keep) == FilterChars(s, keep)
  {
    FilterCharsKeepsAll(FilterChars(s, keep), keep);
  }

  /** A string whose every character is accepted passes through unchanged. */
  lemma {:induction false} FilterCharsKeepsAll(s: string, keep: char -> bool)
    requires forall i :: 0 <= i < |s| ==> keep(s[i])
    ensures FilterChars(s, keep) == s
    decreases |s|
  {
    if |s| > 0 {
      FilterCharsKeepsAll(s[1..], keep);
      assert s == [s[0]] + s[1..];
    }
  }

  /** `s.replace(pat, repl)`: leftmost, non-overlapping occurrences. */
  function Replace(s: string, pat: string, repl: string): string
    requires |pat| > 0
    decreases |s|
  {
    if |s| < |pat| then s
    else if s[..|pat|] == pat then repl + Replace(s[|pat|..], pat, repl)
    else [s[0]] + Replace(s[1..], pat, repl)
  }

  /** Deleting occurrences of a pattern whose characters are all rejected by
      `keep` does not change what a later filter by `keep` keeps. */
  lemma {:induction false} FilterAfterDelete(s: string, pat: string, keep: char -> bool)
    requires |pat| > 0
    requires forall i :: 0 <= i < |pat| ==> !keep(pat[i])
    ensures FilterChars(Replace(s, pat, ""), keep) == FilterChars(s, keep)
    decreases |s|
  {
    if |s| < |pat| {
    } else if s[..|pat|] == pat {
      FilterAfterDelete(s[|pat|..], pat, keep);
      assert Replace(s, pat, "") == Replace(s[|pat|..], pat, "");
      assert forall i :: 0 <= i < |pat| ==> s[i] == s[..|pat|][i];
      FilterRejectedPrefix(s, |pat|, keep);
    } else {
      FilterAfterDelete(s[1..], pat, keep);
      assert ([s[0]] + Replace(s[1..], pat, ""))[1..] == Replace(s[1..], pat, "");
    }
  }

  /** A prefix of rejected characters contributes nothing to the filter. */
  lemma {:induction false} FilterRejectedPrefix(s: string, n: nat, keep: char -> bool)
    requires n <= |s|
    requires forall i :: 0 <= i < n ==> !keep(s[i])
    ensures FilterChars(s, keep) == FilterChars(s[n..], keep)
    decreases n
  {
    if n > 0 {
      FilterRejectedPrefix(s[1..], n - 1, keep);
      assert s[1..][n - 1..] == s[n..];
    }
  }

  /** Two tests that agree on every character filter alike. */
  lemma {:induction false} FilterCharsSameTest(s: string, a: char -> bool, b: char -> bool)
    requires forall c :: a(c) == b(c)
    ensures FilterChars(s, a) == FilterChars(s, b)
    decreases |s|
  {
    if |s| > 0 {
      FilterCharsSameTest(s[1..], a, b);
    }
  }

  /** Deleting a pattern leaves only characters the text already had. */
  lemma {:induction false} DeleteKeepsChars(s: string, pat: string)
    requires |pat| > 0
    ensures forall c :: c in Replace(s, pat, "") ==> c in s
    decreases |s|
  {
    if |s| >= |pat| {
      if s[..|pat|] == pat {
        DeleteKeepsChars(s[|pat|..], pat);
        assert forall c :: c in s[|pat|..] ==> c in s;
      } else {
        DeleteKeepsChars(s[1..], pat);
        assert forall c :: c in s[1..] ==> c in s;
      }
    }
  }

  /** Deleting a one-character pattern removes every occurrence of it. */
  lemma {:induction false} DeleteRemovesChar(s: string, c: char)
    ensures c !in Replace(s, [c], "")
    decreases |s|
  {
    if |s| >= 1 {
      if s[..1] == [c] {
        DeleteRemovesChar(s[1..], c);
      } else {
        assert s[0] != c by { assert s[..1][0] == s[0]; }
        DeleteRemovesChar(s[1..], c);
      }
    }
  }

  /** Filtering by `a` and then by `b` is filtering by both. */
  lemma {:induction false} FilterTwice(s: string, a: char -> bool, b: char -> bool)
    ensures FilterChars(FilterChars(s, a), b) == FilterChars(s, c => a(c) && b(c))
    decreases |s|
  {
    if |s| > 0 {
      FilterTwice(s[1..], a, b);
    }
  }

  // ---------------------------------------------------------------- integers

  predicate IsDigit(c: char) { '0' <= c <= '9' }

  /** The characters Python's `str.strip()` and `int()` skip, within ASCII. */
  predicate IsSpace(c: char) {
    c == ' ' || 9 <= c as int <= 13 || 28 <= c as int <= 31
  }

  function StripLeft(s: string): (r: string)
    ensures |r| == 0 || !IsSpace(r[0])
    ensures |r| <= |s| && r == s[|s| - |r|..]
    decreases |s|
  {
    if |s| > 0 && IsSpace(s[0]) then StripLeft(s[1..]) else s
  }

  function StripRight(s: string): (r: string)
    ensures |r| == 0 || !IsSpace(r[|r| - 1])
    ensures r <= s
    decreases |s|
  {
    if |s| > 0 && IsSpace(s[|s| - 1]) then StripRight(s[..|s| - 1]) else s
  }

  function DigitValue(c: char): nat
    requires IsDigit(c)
  {
    (c as int) - ('0' as int)
  }

  /** The value of a string of decimal digits. */
  function DigitsValue(s: string): nat
    requires forall i :: 0 <= i < |s| ==> IsDigit(s[i])
    decreases |s|
  {
    if |s| == 0 then 0 else 10 * DigitsValue(s[..|s| - 1]) + DigitValue(s[|s| - 1])
  }

  /** The digit body `int()` accepts: digits, with single underscores allowed
      between two digits. */
  predicate WellFormedDigits(s: string) {
    && |s| > 0
    && IsDigit(s[0]) && IsDigit(s[|s| - 1])
    && (forall i :: 0 <= i < |s| ==> IsDigit(s[i]) || s[i] == '_')
    && (forall i :: 0 <= i < |s| - 1 ==> !(s[i] == '_' && s[i + 1] == '_'))
  }

  function ParseDigits(s: string): (r: Option<nat>)
    ensures r.Some? <==> WellFormedDigits(s)
  {
    if WellFormedDigits(s) then Some(DigitsValue(FilterChars(s, IsDigit))) else None
  }

  /** `int(s)` for a string: surrounding whitespace, an optional sign, digits.
      `None` stands for the `ValueError` Python raises otherwise. */
  function ParseInt(s: string): Option<int> {
    var t := StripRight(StripLeft(s));
    if |t| > 0 && (t[0] == '+' || t[0] == '-') then
      match ParseDigits(t[1..])
      case None => None
      case Some(n) => Some(if t[0] == '-' then -(n as int) else n)
    else
      match ParseDigits(t)
      case None => None
      case Some(n) => Some(n)
  }

  function DigitChar(d: nat): (c: char)
    requires d < 10
    ensures IsDigit(c) && DigitValue(c) == d
  {
    ('0' as int + d) as char
  }

  /** `str(n)` for a natural number. */
  function NatToStr(n: nat): (r: string)
    ensures |r| > 0
    ensures forall i :: 0 <= i < |r| ==> IsDigit(r[i])
    decreases n
  {
    if n < 10 then [DigitChar(n)] else NatToStr(n / 10) + [DigitChar(n % 10)]
  }

  /** `str(i)` for an integer. */
  function IntToStr(i: int): string {
    if i < 0 then "-" + NatToStr(-i) else NatToStr(i)
  }

  lemma {:induction false} NatToStrValue(n: nat)
    ensures DigitsValue(NatToStr(n)) == n
    decreases n
  {
    if n >= 10 {
      NatToStrValue(n / 10);
      var s := NatToStr(n);
      assert s[..|s| - 1] == NatToStr(n / 10);
    }
  }

  /** The digits written for `n` parse back as `n`. */
  lemma ParseNatToStr(n: nat)
    ensures ParseDigits(NatToStr(n)) == Some(n)
  {
    var d := NatToStr(n);
    FilterCharsKeepsAll(d, IsDigit);
    NatToStrValue(n);
  }

  /** `int(str(i)) == i`: the text written for an integer reads back as it. */
  lemma ParseIntToStr(i: int)
    ensures ParseInt(IntToStr(i)) == Some(i)
  {
    var s := IntToStr(i);
    var n: nat := if i < 0 then -i else i;
    var d := NatToStr(n);
    assert s == if i < 0 then "-" + d else d;
    assert !IsSpace(s[0]) && !IsSpace(s[|s| - 1]);
    assert StripLeft(s) == s;
    assert StripRight(s) == s;
    ParseNatToStr(n);
    if i < 0 {
      assert s[1..] == d;
    } else {
      assert s[0] != '+' && s[0] != '-';
    }
  }
}
