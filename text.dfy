/** String helpers with the meaning JavaScript and SQLite give them. */
module Text {

  /** ECMAScript WhiteSpace or LineTerminator: what `String.prototype.trim` strips and what `\s` matches. */
  predicate IsWhitespace(c: char) {
    var n := c as int;
    n == 0x09 || n == 0x0A || n == 0x0B || n == 0x0C || n == 0x0D || n == 0x20 ||
    n == 0xA0 || n == 0x1680 || (0x2000 <= n <= 0x200A) || n == 0x2028 || n == 0x2029 ||
    n == 0x202F || n == 0x205F || n == 0x3000 || n == 0xFEFF
  }

  /** ECMAScript LineTerminator: where `^` and `$` match under the `m` flag, and what `.` does not match. */
  predicate IsLineTerminator(c: char) {
    var n := c as int;
    n == 0x0A || n == 0x0D || n == 0x2028 || n == 0x2029
  }

  predicate AllWhitespace(s: string) {
    forall i :: 0 <= i < |s| ==> IsWhitespace(s[i])
  }

  /** `s.trimStart()` */
  function TrimStart(s: string): string {
    if s == [] || !IsWhitespace(s[0]) then s else TrimStart(s[1..])
  }

  /** `s.trimEnd()` */
  function TrimEnd(s: string): string {
    if s == [] || !IsWhitespace(s[|s| - 1]) then s else TrimEnd(s[..|s| - 1])
  }

  /** `trimStart` removes exactly the longest all-whitespace prefix. */
  lemma {:induction false} TrimStartSpec(s: string)
    ensures var r := TrimStart(s);
      |r| <= |s| && r == s[|s| - |r|..] && (r == [] || !IsWhitespace(r[0])) && AllWhitespace(s[..|s| - |r|])
  {
    if s != [] && IsWhitespace(s[0]) {
      TrimStartSpec(s[1..]);
      var r := TrimStart(s);
      assert s[1..][|s| - 1 - |r|..] == s[|s| - |r|..];
      forall i | 0 <= i < |s| - |r| ensures IsWhitespace(s[i]) {
        if i > 0 { assert s[1..][..|s| - 1 - |r|][i - 1] == s[i]; }
      }
    }
  }

  /** `trimEnd` removes exactly the longest all-whitespace suffix. */
  lemma {:induction false} TrimEndSpec(s: string)
    ensures var r := TrimEnd(s);
      |r| <= |s| && r == s[..|r|] && (r == [] || !IsWhitespace(r[|r| - 1])) && AllWhitespace(s[|r|..])
  {
    if s != [] && IsWhitespace(s[|s| - 1]) {
      var p := s[..|s| - 1];
      TrimEndSpec(p);
      var r := TrimEnd(s);
      assert p[..|r|] == s[..|r|];
      forall i | |r| <= i < |s| ensures IsWhitespace(s[i]) {
        if i < |s| - 1 { assert p[|r|..][i - |r|] == s[i]; }
      }
    }
  }

  /** `s.trim()` */
  function Trim(s: string): string {
    TrimEnd(TrimStart(s))
  }

  /** `trim()` yields the empty string exactly when the input is all whitespace. */
  lemma TrimEmptyIff(s: string)
    ensures Trim(s) == [] <==> AllWhitespace(s)
  {
    var a := TrimStart(s);
    var k := |s| - |a|;
    TrimStartSpec(s);
    TrimEndSpec(a);
    if a == [] {
      assert s[..k] == s;
    } else {
      assert s[k] == a[0];
    }
  }

  /** A trimmed string that is not empty starts and ends with a non-whitespace character. */
  lemma TrimEnds(s: string)
    ensures var t := Trim(s); t == [] || (!IsWhitespace(t[0]) && !IsWhitespace(t[|t| - 1]))
  {
    var a := TrimStart(s);
    var t := TrimEnd(a);
    TrimStartSpec(s);
    TrimEndSpec(a);
    if t != [] { assert t[0] == a[0]; }
  }

  lemma TrimIdempotent(s: string)
    ensures Trim(Trim(s)) == Trim(s)
  {
    TrimEnds(s);
  }

  /** Leading text that is not all whitespace shields what follows from `trimStart`. */
  lemma {:induction false} TrimStartConcat(a: string, b: string)
    requires !AllWhitespace(a)
    ensures TrimStart(a + b) == TrimStart(a) + b
  {
    assert a != [];
    if IsWhitespace(a[0]) {
      assert (a + b)[1..] == a[1..] + b;
      assert !AllWhitespace(a[1..]) by {
        var i :| 0 <= i < |a| && !IsWhitespace(a[i]);
        assert a[1..][i - 1] == a[i];
      }
      TrimStartConcat(a[1..], b);
    }
  }

  lemma {:induction false} TrimStartSkip(a: string, b: string)
    requires AllWhitespace(a)
    ensures TrimStart(a + b) == TrimStart(b)
  {
    if a != [] {
      assert (a + b)[1..] == a[1..] + b;
      TrimStartSkip(a[1..], b);
    } else {
      assert a + b == b;
    }
  }

  /** Trailing whitespace is only removed up to the last non-whitespace character. */
  lemma {:induction false} TrimEndConcat(a: string, b: string)
    requires a != [] && !IsWhitespace(a[|a| - 1])
    ensures TrimEnd(a + b) == a + TrimEnd(b)
    decreases |b|
  {
    if b == [] {
      assert a + b == a;
    } else if IsWhitespace(b[|b| - 1]) {
      assert (a + b)[..|a + b| - 1] == a + b[..|b| - 1];
      TrimEndConcat(a, b[..|b| - 1]);
    }
  }

  lemma {:induction false} TrimEndPrefix(a: string, b: string)
    ensures TrimEnd(a) <= TrimEnd(a + b)
    decreases |b|
  {
    if b == [] {
      assert a + b == a;
    } else if IsWhitespace(b[|b| - 1]) {
      assert (a + b)[..|a + b| - 1] == a + b[..|b| - 1];
      TrimEndPrefix(a, b[..|b| - 1]);
    } else {
      TrimEndSpec(a);
      assert TrimEnd(a) <= a;
    }
  }

  /** What `trim()` keeps of a text stays a prefix of what it keeps of any extension of it. */
  lemma TrimKeepsPrefix(a: string, b: string)
    ensures Trim(a) <= Trim(a + b)
  {
    if !AllWhitespace(a) {
      TrimStartConcat(a, b);
      TrimEndPrefix(TrimStart(a), b);
    } else {
      TrimEmptyIff(a);
    }
  }

  lemma NotContainsWithoutChar(h: string, n: string)
    requires n != [] && forall i :: 0 <= i < |h| ==> h[i] != n[0]
    ensures !Contains(h, n)
  {
    forall i | 0 <= i <= |h| - |n| ensures !OccursAt(h, n, i) {
      assert h[i..i + |n|][0] == h[i];
    }
  }

  lemma ContainsInSuffix(a: string, b: string, needle: string)
    requires Contains(b, needle)
    ensures Contains(a + b, needle)
  {
    var i :| 0 <= i <= |b| - |needle| && OccursAt(b, needle, i);
    assert (a + b)[|a| + i..|a| + i + |needle|] == b[i..i + |needle|];
    assert OccursAt(a + b, needle, |a| + i);
  }

  /** ASCII-only case folding: exactly what SQLite's NOCASE collation does. */
  function LowerChar(c: char): (r: char)
    ensures 'A' <= c <= 'Z' ==> r as int == c as int + 32
    ensures !('A' <= c <= 'Z') ==> r == c
  {
    if 'A' <= c <= 'Z' then (c as int + 32) as char else c
  }

  function Lower(s: string): (r: string)
    ensures |r| == |s|
    ensures forall i :: 0 <= i < |s| ==> r[i] == LowerChar(s[i])
  {
    seq(|s|, i requires 0 <= i < |s| => LowerChar(s[i]))
  }

  /** Equality under `COLLATE NOCASE`. */
  predicate SameNoCase(a: string, b: string) {
    Lower(a) == Lower(b)
  }

  /** NOCASE equality is an equivalence. */
  lemma SameNoCaseIsEquivalence(a: string, b: string, c: string)
    ensures SameNoCase(a, a)
    ensures SameNoCase(a, b) ==> SameNoCase(b, a)
    ensures SameNoCase(a, b) && SameNoCase(b, c) ==> SameNoCase(a, c)
  {
  }

  /** `haystack.includes(needle)` */
  predicate Contains(haystack: string, needle: string) {
    exists i | 0 <= i <= |haystack| - |needle| :: OccursAt(haystack, needle, i)
  }

  predicate OccursAt(haystack: string, needle: string, i: int) {
    0 <= i <= |haystack| - |needle| && haystack[i..i + |needle|] == needle
  }

  lemma ContainsEmpty(s: string)
    ensures Contains(s, "")
  {
    assert OccursAt(s, "", 0);
  }

  lemma ContainsInPrefix(a: string, b: string, needle: string)
    requires Contains(a, needle)
    ensures Contains(a + b, needle)
  {
    var i :| 0 <= i <= |a| - |needle| && OccursAt(a, needle, i);
    assert (a + b)[i..i + |needle|] == a[i..i + |needle|];
    assert OccursAt(a + b, needle, i);
  }

  /** `s.slice(0, n)` */
  function Take(s: string, n: nat): (r: string)
    ensures |r| == if |s| < n then |s| else n
    ensures r == s[..|r|]
  {
    if |s| <= n then s else s[..n]
  }

  predicate IsDigit(c: char) { '0' <= c <= '9' }

  /** `String(n)` for a non-negative integer: its decimal digits without leading zeros. */
  function NatToString(n: nat): (r: string)
    ensures |r| >= 1
    ensures forall i :: 0 <= i < |r| ==> IsDigit(r[i])
    ensures |r| > 1 ==> r[0] != '0'
    decreases n
  {
    var d := ['0' + (n % 10) as char];
    if n < 10 then d else NatToString(n / 10) + d
  }

  /** Digit strings read back to the number they were written from. */
  function DigitsValue(s: string): int
    requires forall i :: 0 <= i < |s| ==> IsDigit(s[i])
  {
    if s == [] then 0 else DigitsValue(s[..|s| - 1]) * 10 + (s[|s| - 1] as int - '0' as int)
  }

  lemma {:induction false} NatToStringRoundTrip(n: nat)
    ensures DigitsValue(NatToString(n)) == n
    decreases n
  {
    var r := NatToString(n);
    if n >= 10 {
      NatToStringRoundTrip(n / 10);
      assert r[..|r| - 1] == NatToString(n / 10);
    }
  }

  /** Distinct ids print differently, so `String(p.id) === query` matches at most one id. */
  lemma NatToStringInjective(m: nat, n: nat)
    requires NatToString(m) == NatToString(n)
    ensures m == n
  {
    NatToStringRoundTrip(m);
    NatToStringRoundTrip(n);
  }

  /** Binary text order (SQLite's default collation; UTF-8 byte order is code-point order). */
  predicate StrLe(a: string, b: string)
    decreases |a|
  {
    a == [] || (b != [] && (a[0] < b[0] || (a[0] == b[0] && StrLe(a[1..], b[1..]))))
  }

  lemma {:induction false} StrLeTotal(a: string, b: string)
    ensures StrLe(a, b) || StrLe(b, a)
    decreases |a|
  {
    if a != [] && b != [] && a[0] == b[0] {
      StrLeTotal(a[1..], b[1..]);
    }
  }

  lemma {:induction false} StrLeTransitive(a: string, b: string, c: string)
    requires StrLe(a, b) && StrLe(b, c)
    ensures StrLe(a, c)
    decreases |a|
  {
    if a != [] && b != [] && c != [] && a[0] == b[0] && b[0] == c[0] {
      StrLeTransitive(a[1..], b[1..], c[1..]);
    }
  }
}
