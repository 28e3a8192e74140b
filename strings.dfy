/** String helpers shared by the Rust and JavaScript parts of the model:
    decimal conversion, `str::replace`, `str::find`, JavaScript `split`
    and `parseInt`, and ASCII lower-casing. */
module Strings {
  import opened Wrappers

  predicate IsDigit(c: char) { '0' <= c <= '9' }

  function DigitValue(c: char): (d: nat)
    requires IsDigit(c)
    ensures d < 10
  {
    c as int - '0' as int
  }

  function DigitChar(d: nat): (c: char)
    requires d < 10
    ensures IsDigit(c) && DigitValue(c) == d
  {
    ('0' as int + d) as char
  }

  predicate AllDigits(s: string) { forall i :: 0 <= i < |s| ==> IsDigit(s[i]) }

  /** Decimal rendering of a natural number, without leading zeros. */
  function NatToString(n: nat): (s: string)
    ensures 1 <= |s| && AllDigits(s)
    ensures n > 0 ==> s[0] != '0'
    decreases n
  {
    if n < 10 then [DigitChar(n)] else NatToString(n / 10) + [DigitChar(n % 10)]
  }

  /** Value of a string of decimal digits (the digit part of Rust's `parse`
      and JavaScript's `parseInt`). */
  function DigitsValue(s: string): nat
    requires AllDigits(s)
  {
    if s == [] then 0 else DigitsValue(s[..|s| - 1]) * 10 + DigitValue(s[|s| - 1])
  }

  lemma {:induction false} NatToStringRoundTrip(n: nat)
    ensures DigitsValue(NatToString(n)) == n
    decreases n
  {
    if n >= 10 {
      var s := NatToString(n);
      assert s[..|s| - 1] == NatToString(n / 10);
      NatToStringRoundTrip(n / 10);
    }
  }

  lemma NatToStringInjective(a: nat, b: nat)
    requires NatToString(a) == NatToString(b)
    ensures a == b
  {
    NatToStringRoundTrip(a);
    NatToStringRoundTrip(b);
  }

  /** `i.to_string()` in Rust and `String(i)` in JavaScript. */
  function IntToString(i: int): string
  {
    if i < 0 then "-" + NatToString(-i) else NatToString(i)
  }

  /** Length of the longest run of decimal digits starting at position `j`. */
  function DigitRun(s: string, j: nat): (r: nat)
    ensures j <= |s| ==> j + r <= |s|
    ensures j > |s| ==> r == 0
    ensures forall k :: j <= k < j + r ==> IsDigit(s[k])
    ensures j + r < |s| ==> !IsDigit(s[j + r])
    decreases |s| - j
  {
    if j < |s| && IsDigit(s[j]) then 1 + DigitRun(s, j + 1) else 0
  }

  /** Rust's `str::replace`: every non-overlapping occurrence of `pat`,
      found left to right, is replaced by `rep`. */
  function ReplaceAll(s: string, pat: string, rep: string): (r: string)
    requires |pat| > 0
    ensures forall c :: c in r ==> c in s || c in rep
    decreases |s|
  {
    if |s| < |pat| then s
    else if s[..|pat|] == pat then rep + ReplaceAll(s[|pat|..], pat, rep)
    else [s[0]] + ReplaceAll(s[1..], pat, rep)
  }

  /** Replacing one character by one character rewrites the string pointwise. */
  lemma {:induction false} ReplaceCharPointwise(s: string, a: char, b: char)
    ensures |ReplaceAll(s, [a], [b])| == |s|
    ensures forall i :: 0 <= i < |s| ==>
      ReplaceAll(s, [a], [b])[i] == (if s[i] == a then b else s[i])
    decreases |s|
  {
    if |s| > 0 {
      ReplaceCharPointwise(s[1..], a, b);
      assert s[..1] == [s[0]];
    }
  }

  /** Replacing a single character distributes over concatenation. */
  lemma {:induction false} ReplaceCharAppend(a: string, b: string, c: char, rep: string)
    ensures ReplaceAll(a + b, [c], rep) == ReplaceAll(a, [c], rep) + ReplaceAll(b, [c], rep)
    decreases |a|
  {
    if |a| > 0 {
      var head := if a[0] == c then rep else [a[0]];
      assert (a + b)[1..] == a[1..] + b;
      assert (a + b)[..1] == a[..1] == [a[0]];
      assert ReplaceAll(a + b, [c], rep) == head + ReplaceAll(a[1..] + b, [c], rep);
      assert ReplaceAll(a, [c], rep) == head + ReplaceAll(a[1..], [c], rep);
      ReplaceCharAppend(a[1..], b, c, rep);
    } else {
      assert a + b == b;
    }
  }

  /** A character that does not occur is not replaced. */
  lemma {:induction false} ReplaceCharAbsent(s: string, c: char, rep: string)
    requires c !in s
    ensures ReplaceAll(s, [c], rep) == s
    decreases |s|
  {
    if |s| > 0 {
      assert s[..1] == [s[0]];
      ReplaceCharAbsent(s[1..], c, rep);
    }
  }

  /** Removing one character keeps every other character, in order. */
  function WithoutChar(s: string, c: char): string
  {
    if s == [] then [] else (if s[0] == c then [] else [s[0]]) + WithoutChar(s[1..], c)
  }

  lemma {:induction false} RemoveCharIsFilter(s: string, c: char)
    ensures ReplaceAll(s, [c], "") == WithoutChar(s, c)
    ensures c !in ReplaceAll(s, [c], "")
    decreases |s|
  {
    if |s| > 0 {
      RemoveCharIsFilter(s[1..], c);
      assert s[..1] == [s[0]];
    }
  }

  lemma {:induction false} WithoutCharKeeps(s: string, c: char, d: char)
    requires d != c
    ensures (d in WithoutChar(s, c)) == (d in s)
    ensures c !in WithoutChar(s, c)
    decreases |s|
  {
    if |s| > 0 { WithoutCharKeeps(s[1..], c, d); }
  }

  predicate OccursAt(s: string, pat: string, k: nat)
  {
    k + |pat| <= |s| && s[k..k + |pat|] == pat
  }

  /** An occurrence in a text is an occurrence in any extension of it. */
  lemma OccursInPrefix(s: string, more: string, pat: string, k: nat)
    requires OccursAt(s, pat, k)
    ensures OccursAt(s + more, pat, k)
  {
    assert (s + more)[k..k + |pat|] == s[k..k + |pat|];
  }

  /** An occurrence after a prefix moves by the prefix's length. */
  lemma OccursAfterPrefix(prefix: string, s: string, pat: string, k: nat)
    requires OccursAt(s, pat, k)
    ensures OccursAt(prefix + s, pat, |prefix| + k)
  {
    assert (prefix + s)[|prefix| + k..|prefix| + k + |pat|] == s[k..k + |pat|];
  }

  lemma OccursAtShift(s: string, pat: string, k: nat)
    requires |s| > 0
    ensures OccursAt(s, pat, k + 1) == OccursAt(s[1..], pat, k)
  {
    if k + 1 + |pat| <= |s| {
      assert s[k + 1..k + 1 + |pat|] == s[1..][k..k + |pat|];
    }
  }

  /** Rust's `str::find`: index of the first occurrence of a non-empty `pat`. */
  function Find(s: string, pat: string): (r: Option<nat>)
    requires |pat| > 0
    ensures r.Some? ==> OccursAt(s, pat, r.value)
    ensures r.Some? ==> forall k :: 0 <= k < r.value ==> !OccursAt(s, pat, k)
    ensures r.None? ==> forall k: nat :: !OccursAt(s, pat, k)
    decreases |s|
  {
    if |s| < |pat| then None
    else if s[..|pat|] == pat then Some(0)
    else
      match Find(s[1..], pat)
      case None =>
        assert forall k: nat :: !OccursAt(s, pat, k) by {
          forall k: nat ensures !OccursAt(s, pat, k) {
            if k > 0 { OccursAtShift(s, pat, k - 1); }
          }
        }
        None
      case Some(k) =>
        OccursAtShift(s, pat, k);
        assert forall m :: 0 <= m < k + 1 ==> !OccursAt(s, pat, m) by {
          forall m | 0 <= m < k + 1 ensures !OccursAt(s, pat, m) {
            if m > 0 { OccursAtShift(s, pat, m - 1); }
          }
        }
        Some(k + 1)
  }

  /** Number of occurrences of a character (`matches(".").count()`). */
  function CountChar(s: string, c: char): (n: nat)
    ensures n <= |s|
    ensures n == 0 <==> c !in s
  {
    if s == [] then 0 else (if s[0] == c then 1 else 0) + CountChar(s[1..], c)
  }

  /** `to_ascii_lowercase`: only 'A'..'Z' change. */
  function AsciiLower(s: string): (r: string)
    ensures |r| == |s|
    ensures forall i :: 0 <= i < |s| ==>
      r[i] == (if 'A' <= s[i] <= 'Z' then (s[i] as int + 32) as char else s[i])
  {
    if s == [] then [] else
      [if 'A' <= s[0] <= 'Z' then (s[0] as int + 32) as char else s[0]] + AsciiLower(s[1..])
  }

  /** JavaScript `s.split(sep)` for a one-character separator. */
  function Split(s: string, sep: char): (parts: seq<string>)
    ensures |parts| >= 1
    ensures forall p :: p in parts ==> sep !in p
  {
    if s == [] then [""]
    else
      var rest := Split(s[1..], sep);
      if s[0] == sep then [""] + rest else [[s[0]] + rest[0]] + rest[1..]
  }

  lemma {:induction false} SplitNoSep(s: string, sep: char)
    requires sep !in s
    ensures Split(s, sep) == [s]
    decreases |s|
  {
    if s != [] {
      SplitNoSep(s[1..], sep);
      assert [s[0]] + s[1..] == s;
    }
  }

  lemma {:induction false} SplitAppend(a: string, sep: char, b: string)
    requires sep !in a
    ensures Split(a + [sep] + b, sep) == [a] + Split(b, sep)
    decreases |a|
  {
    if a == [] {
      assert a + [sep] + b == [sep] + b;
      assert ([sep] + b)[1..] == b;
    } else {
      SplitAppend(a[1..], sep, b);
      assert (a + [sep] + b)[1..] == a[1..] + [sep] + b;
      assert [a[0]] + a[1..] == a;
    }
  }

  /** JavaScript `parseInt(s)` on the forms the model meets: an optional sign
      followed by decimal digits, stopping at the first non-digit; `None` is NaN. */
  function ParseInt(s: string): (r: Option<int>)
  {
    var neg := |s| > 0 && s[0] == '-';
    var start := if |s| > 0 && (s[0] == '-' || s[0] == '+') then 1 else 0;
    var n := DigitRun(s, start);
    if n == 0 then None
    else
      var v: int := DigitsValue(s[start..start + n]);
      Some(if neg then -v else v)
  }

  lemma ParseIntOfNat(n: nat, rest: string)
    requires rest == [] || !IsDigit(rest[0])
    ensures ParseInt(NatToString(n) + rest) == Some(n)
  {
    var s := NatToString(n) + rest;
    var k := |NatToString(n)|;
    DigitRunFrom(s, 0, k);
    assert s[0..k] == NatToString(n);
    NatToStringRoundTrip(n);
  }

  lemma {:induction false} DigitRunFrom(s: string, j: nat, k: nat)
    requires j <= k <= |s|
    requires forall i :: j <= i < k ==> IsDigit(s[i])
    requires k == |s| || !IsDigit(s[k])
    ensures DigitRun(s, j) == k - j
    decreases k - j
  {
    if j < k { DigitRunFrom(s, j + 1, k); }
  }

  /** Lexicographic order on strings by code point: JavaScript's default
      `Array.prototype.sort` order for strings of the Basic Multilingual Plane. */
  predicate LessEq(a: string, b: string)
  {
    if a == [] then true
    else if b == [] then false
    else if a[0] != b[0] then a[0] < b[0]
    else LessEq(a[1..], b[1..])
  }

  lemma {:induction false} LessEqTotal(a: string, b: string)
    ensures LessEq(a, b) || LessEq(b, a)
    decreases |a|
  {
    if a != [] && b != [] && a[0] == b[0] { LessEqTotal(a[1..], b[1..]); }
  }

  lemma {:induction false} LessEqTransitive(a: string, b: string, c: string)
    requires LessEq(a, b) && LessEq(b, c)
    ensures LessEq(a, c)
    decreases |a|
  {
    if a != [] && b != [] && c != [] && a[0] == b[0] && b[0] == c[0] {
      LessEqTransitive(a[1..], b[1..], c[1..]);
    }
  }

  lemma {:induction false} LessEqAntisymmetric(a: string, b: string)
    requires LessEq(a, b) && LessEq(b, a)
    ensures a == b
    decreases |a|
  {
    if a != [] && b != [] {
      LessEqAntisymmetric(a[1..], b[1..]);
      assert a == [a[0]] + a[1..];
      assert b == [b[0]] + b[1..];
    }
  }
}
