/** The PHP string functions the modelled code relies on: `trim`, `ucfirst`,
    integer-to-string conversion, `explode`, `implode`, `strpos(...) === 0`,
    `substr`, `str_replace` with an empty replacement, and the binary string
    order MongoDB uses to sort by a string field. */
module Text {

  /** The characters PHP's `trim` removes by default. */
  predicate IsTrimmed(c: char) {
    c == ' ' || c == '\t' || c == '\n' || c == '\r' || c == '\0' || c == '\U{B}'
  }

  function TrimLeft(s: string): (r: string)
    ensures |r| <= |s| && r == s[|s| - |r|..]
    ensures r == [] || !IsTrimmed(r[0])
  {
    if s != [] && IsTrimmed(s[0]) then TrimLeft(s[1..]) else s
  }

  function TrimRight(s: string): (r: string)
    ensures |r| <= |s| && r == s[..|r|]
    ensures r == [] || !IsTrimmed(r[|r| - 1])
  {
    if s != [] && IsTrimmed(s[|s| - 1]) then TrimRight(s[..|s| - 1]) else s
  }

  function Trim(s: string): string {
    TrimRight(TrimLeft(s))
  }

  /** `trim` leaves a string with no removable character at either end. */
  lemma TrimEnds(s: string)
    ensures Trim(s) == [] || (!IsTrimmed(Trim(s)[0]) && !IsTrimmed(Trim(s)[|Trim(s)| - 1]))
  {
    var l := TrimLeft(s);
    var r := TrimRight(l);
    if r != [] {
      assert r == l[..|r|];
      assert r[0] == l[0];
    }
  }

  /** `ucfirst`: upper-cases an initial ASCII letter. */
  function Ucfirst(s: string): (r: string)
    ensures |r| == |s| && (s != [] ==> r[1..] == s[1..])
  {
    if s != [] && 'a' <= s[0] <= 'z' then [(s[0] as int - 32) as char] + s[1..] else s
  }

  function DigitChar(d: nat): (c: char)
    requires d < 10
    ensures '0' <= c <= '9'
  {
    ('0' as int + d) as char
  }

  /** PHP's decimal rendering of a non-negative integer. */
  function NatToString(n: nat): (s: string)
    ensures |s| >= 1
    ensures forall i :: 0 <= i < |s| ==> '0' <= s[i] <= '9'
    decreases n
  {
    if n < 10 then [DigitChar(n)] else NatToString(n / 10) + [DigitChar(n % 10)]
  }

  /** PHP's decimal rendering of an integer (`(string)$n`, `"" . $n`). */
  function IntToString(n: int): (s: string)
    ensures |s| >= 1
    ensures forall i :: 0 <= i < |s| ==> s[i] == '-' || '0' <= s[i] <= '9'
  {
    if n < 0 then "-" + NatToString(-n) else NatToString(n)
  }

  lemma SingleDigit(n: nat)
    ensures |NatToString(n)| == 1 <==> n < 10
  {
    if n >= 10 { assert |NatToString(n / 10)| >= 1; }
  }

  lemma {:induction false} NatToStringInjective(a: nat, b: nat)
    requires NatToString(a) == NatToString(b)
    ensures a == b
    decreases a
  {
    var s := NatToString(a);
    if a < 10 && b < 10 {
    } else if a < 10 || b < 10 {
      SingleDigit(a);
      SingleDigit(b);
      assert false;
    } else {
      var sa, sb := NatToString(a / 10), NatToString(b / 10);
      assert s == sa + [DigitChar(a % 10)];
      assert s == sb + [DigitChar(b % 10)];
      assert sa == s[..|s| - 1] == sb;
      NatToStringInjective(a / 10, b / 10);
      assert DigitChar(a % 10) == s[|s| - 1] == DigitChar(b % 10);
    }
  }

  lemma LeadingMinus(n: int)
    ensures IntToString(n)[0] == '-' <==> n < 0
  {
    if n >= 0 { assert '0' <= NatToString(n)[0] <= '9'; }
  }

  /** Distinct integers render as distinct strings. */
  lemma IntToStringInjective(a: int, b: int)
    requires IntToString(a) == IntToString(b)
    ensures a == b
  {
    if a < 0 && b < 0 {
      assert NatToString(-a) == IntToString(a)[1..] == NatToString(-b);
      NatToStringInjective(-a, -b);
    } else if a < 0 || b < 0 {
      LeadingMinus(a);
      LeadingMinus(b);
      assert false;
    } else {
      NatToStringInjective(a, b);
    }
  }

  /** `implode($sep, $parts)`. */
  function Join(parts: seq<string>, sep: string): string {
    if parts == [] then ""
    else if |parts| == 1 then parts[0]
    else parts[0] + sep + Join(parts[1..], sep)
  }

  lemma JoinCons(head: string, rest: seq<string>, sep: string)
    requires rest != []
    ensures Join([head] + rest, sep) == head + sep + Join(rest, sep)
  {
    assert ([head] + rest)[1..] == rest;
  }

  /** Prefixing a character to the first part prefixes it to the join. */
  lemma JoinGlue(c: char, rest: seq<string>, sep: string)
    requires rest != []
    ensures Join([[c] + rest[0]] + rest[1..], sep) == [c] + Join(rest, sep)
  {
    if |rest| > 1 {
      JoinCons(rest[0], rest[1..], sep);
      JoinCons([c] + rest[0], rest[1..], sep);
      assert rest == [rest[0]] + rest[1..];
    }
  }

  /** `explode($sep, $s)` for a one-character separator: every separator
      splits, so no part contains it. */
  function Explode(s: string, sep: char): (parts: seq<string>)
    ensures |parts| >= 1
    ensures forall i :: 0 <= i < |parts| ==> sep !in parts[i]
  {
    if s == [] then [""]
    else
      var rest := Explode(s[1..], sep);
      if s[0] == sep then [""] + rest
      else [[s[0]] + rest[0]] + rest[1..]
  }

  /** The result of `explode` has one more part than `s` has separators,
      and joining the parts with the separator gives `s` back. */
  lemma {:induction false} ExplodeParts(s: string, sep: char)
    ensures |Explode(s, sep)| == multiset(s)[sep] + 1
    ensures Join(Explode(s, sep), [sep]) == s
    decreases |s|
  {
    if s != [] {
      ExplodeParts(s[1..], sep);
      var rest := Explode(s[1..], sep);
      assert s == [s[0]] + s[1..];
      assert multiset(s) == multiset([s[0]]) + multiset(s[1..]);
      if s[0] == sep {
        JoinCons("", rest, [sep]);
      } else {
        JoinGlue(s[0], rest, [sep]);
      }
    }
  }

  lemma {:induction false} ExplodeNoSep(a: string, sep: char)
    requires sep !in a
    ensures Explode(a, sep) == [a]
  {
    if a != [] {
      ExplodeNoSep(a[1..], sep);
      assert [a[0]] + a[1..] == a;
    }
  }

  /** Splitting `a + sep + b`, where `a` has no separator, yields `a`
      followed by the parts of `b`. */
  lemma {:induction false} ExplodeCons(a: string, sep: char, b: string)
    requires sep !in a
    ensures Explode(a + [sep] + b, sep) == [a] + Explode(b, sep)
  {
    if a == [] {
      assert a + [sep] + b == [sep] + b;
      assert ([sep] + b)[1..] == b;
    } else {
      var s := a + [sep] + b;
      assert s[0] == a[0] && s[1..] == a[1..] + [sep] + b;
      ExplodeCons(a[1..], sep, b);
      var rest := Explode(s[1..], sep);
      assert rest == [a[1..]] + Explode(b, sep);
      assert Explode(s, sep) == [[a[0]] + rest[0]] + rest[1..];
      assert [a[0]] + a[1..] == a;
    }
  }

  /** `strpos($s, $prefix) === 0`. */
  predicate StartsWith(s: string, prefix: string) {
    |prefix| <= |s| && s[..|prefix|] == prefix
  }

  /** `substr($s, $n)`: PHP 8 returns "" once `$n` reaches the length. */
  function Substr(s: string, n: nat): string {
    if n <= |s| then s[n..] else ""
  }

  /** `str_replace($pat, '', $s)`: scans left to right and deletes every
      non-overlapping occurrence of `pat`. */
  function RemoveAll(s: string, pat: string): (r: string)
    requires |pat| > 0
    ensures |r| <= |s|
    decreases |s|
  {
    if |s| < |pat| then s
    else if s[..|pat|] == pat then RemoveAll(s[|pat|..], pat)
    else [s[0]] + RemoveAll(s[1..], pat)
  }

  /** A position where the pattern does not start keeps its character. */
  lemma RemoveAllHead(s: string, pat: string)
    requires |pat| > 0 && s != [] && !StartsWith(s, pat)
    ensures RemoveAll(s, pat) == [s[0]] + RemoveAll(s[1..], pat)
  {
    if |s| < |pat| {
      assert s == [s[0]] + s[1..];
    }
  }

  /** An occurrence at the front is deleted and the scan resumes after it. */
  lemma RemoveAllPrefix(s: string, pat: string)
    requires |pat| > 0
    ensures RemoveAll(pat + s, pat) == RemoveAll(s, pat)
  {
    var t := pat + s;
    assert t[..|pat|] == pat && t[|pat|..] == s;
  }

  /** A string in which the pattern occurs nowhere is returned unchanged. */
  lemma {:induction false} RemoveAllAbsent(s: string, pat: string)
    requires |pat| > 0
    requires forall k :: 0 <= k <= |s| ==> !StartsWith(s[k..], pat)
    ensures RemoveAll(s, pat) == s
    decreases |s|
  {
    if |s| >= |pat| {
      assert s[0..] == s;
      forall k | 0 <= k <= |s[1..]|
        ensures !StartsWith(s[1..][k..], pat)
      {
        assert s[1..][k..] == s[k + 1..];
      }
      RemoveAllAbsent(s[1..], pat);
      assert s == [s[0]] + s[1..];
    }
  }

  /** Binary (code point) order on strings, the order of a MongoDB sort on
      a string field without a collation. */
  predicate Less(a: string, b: string) {
    if a == [] then b != []
    else b != [] && (a[0] < b[0] || (a[0] == b[0] && Less(a[1..], b[1..])))
  }

  lemma {:induction false} LessIrreflexive(a: string)
    ensures !Less(a, a)
  {
    if a != [] { LessIrreflexive(a[1..]); }
  }

  lemma {:induction false} LessTransitive(a: string, b: string, c: string)
    requires Less(a, b) && Less(b, c)
    ensures Less(a, c)
  {
    if a != [] && b != [] && c != [] && a[0] == b[0] == c[0] {
      LessTransitive(a[1..], b[1..], c[1..]);
    }
  }

  lemma {:induction false} LessTotal(a: string, b: string)
    requires a != b
    ensures Less(a, b) || Less(b, a)
  {
    if a != [] && b != [] && a[0] == b[0] {
      assert a == [a[0]] + a[1..] && b == [b[0]] + b[1..];
      LessTotal(a[1..], b[1..]);
    }
  }
}
