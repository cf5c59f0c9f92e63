/**
 * The few string operations of the Java and TypeScript runtimes that the core relies on:
 * Java's `String.trim`, `startsWith`, `equalsIgnoreCase`, `split(",")` and `Long.toString`,
 * and JavaScript's `String.prototype.split`.
 */
module Strings {
  import Wrappers

  /** `String.trim()` removes every leading and trailing char whose code is at most U+0020. */
  predicate IsTrimmable(c: char) {
    c <= ' '
  }

  /** Java's first trim loop: from `i`, skip trimmable chars. */
  function TrimStartIndex(s: string, i: nat): (st: nat)
    requires i <= |s|
    ensures i <= st <= |s|
    ensures st == |s| || !IsTrimmable(s[st])
    decreases |s| - i
  {
    if i < |s| && IsTrimmable(s[i]) then TrimStartIndex(s, i + 1) else i
  }

  /** Java's second trim loop: move the end back over trimmable chars, never below `st`. */
  function TrimEndIndex(s: string, st: nat, len: nat): (e: nat)
    requires st <= len <= |s|
    ensures st <= e <= len
    ensures e == st || !IsTrimmable(s[e - 1])
    decreases len
  {
    if st < len && IsTrimmable(s[len - 1]) then TrimEndIndex(s, st, len - 1) else len
  }

  /** Everything the first loop skips is trimmable. */
  lemma {:induction false} TrimStartStrips(s: string, i: nat)
    requires i <= |s|
    ensures forall k :: i <= k < TrimStartIndex(s, i) ==> IsTrimmable(s[k])
    decreases |s| - i
  {
    if i < |s| && IsTrimmable(s[i]) {
      TrimStartStrips(s, i + 1);
    }
  }

  /** Everything the second loop skips is trimmable. */
  lemma {:induction false} TrimEndStrips(s: string, st: nat, len: nat)
    requires st <= len <= |s|
    ensures forall k :: TrimEndIndex(s, st, len) <= k < len ==> IsTrimmable(s[k])
    decreases len
  {
    if st < len && IsTrimmable(s[len - 1]) {
      TrimEndStrips(s, st, len - 1);
    }
  }

  /** Java's `s.trim()`: the substring between the two indices. */
  function Trim(s: string): string {
    var st := TrimStartIndex(s, 0);
    s[st..TrimEndIndex(s, st, |s|)]
  }

  /** Java's `s.trim().isEmpty()`, the "blank" test the core applies to usernames, ids and tokens. */
  predicate IsBlank(s: string) {
    Trim(s) == []
  }

  /**
   * Trimming keeps one contiguous slice of the string: every char before it and every char after
   * it is trimmable, and the slice itself neither starts nor ends with a trimmable char.
   */
  lemma TrimIsInfix(s: string)
    ensures var st := TrimStartIndex(s, 0);
      var e := TrimEndIndex(s, st, |s|);
      && Trim(s) == s[st..e]
      && (forall k :: 0 <= k < st ==> IsTrimmable(s[k]))
      && (forall k :: e <= k < |s| ==> IsTrimmable(s[k]))
      && (st < e ==> !IsTrimmable(s[st]) && !IsTrimmable(s[e - 1]))
  {
    var st := TrimStartIndex(s, 0);
    TrimStartStrips(s, 0);
    TrimEndStrips(s, st, |s|);
  }

  /** What trimming keeps neither starts nor ends with a trimmable char. */
  lemma TrimEdges(s: string)
    ensures Trim(s) == [] || (!IsTrimmable(Trim(s)[0]) && !IsTrimmable(Trim(s)[|Trim(s)| - 1]))
  {
    TrimIsInfix(s);
  }

  /** A string is blank exactly when every one of its chars is trimmable. */
  lemma BlankIffAllTrimmable(s: string)
    ensures IsBlank(s) <==> forall i :: 0 <= i < |s| ==> IsTrimmable(s[i])
  {
    TrimIsInfix(s);
    var st := TrimStartIndex(s, 0);
    if !IsBlank(s) {
      assert !IsTrimmable(s[st]);
    }
  }

  /** Java's `s.startsWith(prefix)`. */
  predicate StartsWith(s: string, prefix: string) {
    |prefix| <= |s| && s[..|prefix|] == prefix
  }

  // ----- splitting -----

  function IndexOf(s: string, c: char): (i: nat)
    requires c in s
    ensures i < |s| && s[i] == c && c !in s[..i]
  {
    if s[0] == c then 0 else 1 + IndexOf(s[1..], c)
  }

  /**
   * JavaScript's `s.split(sep)` for a one-char separator: every part, empty ones included,
   * and `[s]` when the separator does not occur.
   */
  function SplitOn(s: string, sep: char): (parts: seq<string>)
    ensures |parts| >= 1
    ensures forall p :: p in parts ==> sep !in p
    decreases |s|
  {
    if sep !in s then [s]
    else
      var i := IndexOf(s, sep);
      [s[..i]] + SplitOn(s[i + 1..], sep)
  }

  /** The inverse of SplitOn: the parts glued back together with the separator between them. */
  function Join(parts: seq<string>, sep: char): string
    requires |parts| >= 1
  {
    if |parts| == 1 then parts[0] else parts[0] + [sep] + Join(parts[1..], sep)
  }

  /** Two and three parts glued together. */
  lemma JoinSmall(a: string, b: string, c: string, sep: char)
    ensures Join([a, b], sep) == a + [sep] + b
    ensures Join([a, b, c], sep) == a + [sep] + b + [sep] + c
  {
    assert [a, b][1..] == [b];
    assert Join([b], sep) == b;
    assert [a, b, c][1..] == [b, c];
    assert Join([b, c], sep) == b + [sep] + c by {
      assert [b, c][1..] == [c];
    }
  }

  lemma {:induction false} JoinSplit(s: string, sep: char)
    ensures Join(SplitOn(s, sep), sep) == s
    decreases |s|
  {
    if sep in s {
      var i := IndexOf(s, sep);
      var rest := SplitOn(s[i + 1..], sep);
      JoinSplit(s[i + 1..], sep);
      JoinCons(s[..i], rest, sep);
      Reassemble(s, i);
    }
  }

  lemma JoinCons(first: string, rest: seq<string>, sep: char)
    requires |rest| >= 1
    ensures Join([first] + rest, sep) == first + [sep] + Join(rest, sep)
  {
    assert ([first] + rest)[1..] == rest;
  }

  lemma Reassemble(s: string, i: nat)
    requires i < |s|
    ensures s[..i] + [s[i]] + s[i + 1..] == s
  {
    assert s[..i] + [s[i]] == s[..i + 1];
  }

  lemma {:induction false} SplitJoin(parts: seq<string>, sep: char)
    requires |parts| >= 1
    requires forall p :: p in parts ==> sep !in p
    ensures SplitOn(Join(parts, sep), sep) == parts
  {
    if |parts| == 1 {
      assert parts[0] in parts;
    } else {
      var first, tail := parts[0], parts[1..];
      NoSeparatorInParts(parts, sep);
      SplitJoin(tail, sep);
      assert [first] + tail == parts;
      JoinCons(first, tail, sep);
      SplitFirst(first, sep, Join(tail, sep));
    }
  }

  lemma NoSeparatorInParts(parts: seq<string>, sep: char)
    requires |parts| >= 1
    requires forall p :: p in parts ==> sep !in p
    ensures sep !in parts[0]
    ensures forall p :: p in parts[1..] ==> sep !in p
  {
    assert parts[0] in parts;
    forall p | p in parts[1..] ensures sep !in p {
      assert p in parts;
    }
  }


  /** Splitting stops at the first separator. */
  lemma SplitFirst(first: string, sep: char, rest: string)
    requires sep !in first
    ensures SplitOn(first + [sep] + rest, sep) == [first] + SplitOn(rest, sep)
  {
    var s := first + [sep] + rest;
    assert s[|first|] == sep;
    var i := IndexOf(s, sep);
    assert s[..|first|] == first;
    assert i == |first|;
    assert s[..i] == first && s[i + 1..] == rest;
  }

  function DropTrailingEmpty(parts: seq<string>): (r: seq<string>)
    ensures |r| <= |parts| && r == parts[..|r|]
    ensures r == [] || r[|r| - 1] != []
    ensures forall i :: |r| <= i < |parts| ==> parts[i] == []
  {
    if parts == [] || parts[|parts| - 1] != [] then parts
    else DropTrailingEmpty(parts[..|parts| - 1])
  }

  /**
   * Java's `s.split(",")`-style split on a one-char separator: `[s]` when the separator does
   * not occur, otherwise every part with the trailing empty parts removed.
   */
  function JavaSplit(s: string, sep: char): seq<string> {
    if sep !in s then [s] else DropTrailingEmpty(SplitOn(s, sep))
  }

  /** For a non-empty string, Java's split and JavaScript's split agree on membership. */
  lemma JavaSplitMembership(s: string, sep: char, x: string)
    requires x != []
    ensures x in JavaSplit(s, sep) <==> x in SplitOn(s, sep)
  {
    if sep in s {
      var parts := SplitOn(s, sep);
      var r := DropTrailingEmpty(parts);
      if x in parts {
        var i :| 0 <= i < |parts| && parts[i] == x;
        assert i < |r|;
        assert r[i] == x;
      }
      if x in r {
        var i :| 0 <= i < |r| && r[i] == x;
        assert parts[i] == x;
      }
    }
  }

  // ----- case-insensitive comparison -----

  /**
   * `Character.toUpperCase` on every char whose upper case is an ASCII letter: 'a'..'z', the
   * dotless i (U+0131) and the long s (U+017F). Any other char is its own upper case here.
   */
  function ToUpper(c: char): char {
    if 'a' <= c <= 'z' then (c as int - 32) as char
    else if c == '\U{0131}' then 'I'
    else if c == '\U{017F}' then 'S'
    else c
  }

  /**
   * `Character.toLowerCase` on every char whose lower case is an ASCII letter: 'A'..'Z', the
   * dotted capital I (U+0130) and the Kelvin sign (U+212A). Any other char is its own lower case here.
   */
  function ToLower(c: char): char {
    if 'A' <= c <= 'Z' then (c as int + 32) as char
    else if c == '\U{0130}' then 'i'
    else if c == '\U{212A}' then 'k'
    else c
  }

  /**
   * Java's per-char rule in `equalsIgnoreCase`: the chars are equal, or their upper cases are,
   * or the lower cases of their upper cases are.
   */
  predicate CharEqualsIgnoreCase(a: char, b: char) {
    a == b || ToUpper(a) == ToUpper(b) || ToLower(ToUpper(a)) == ToLower(ToUpper(b))
  }

  /** Java's `a.equalsIgnoreCase(b)` for non-null strings. */
  predicate EqualsIgnoreCase(a: string, b: string) {
    |a| == |b| && forall i :: 0 <= i < |a| ==> CharEqualsIgnoreCase(a[i], b[i])
  }

  /** The key the per-char rule compares: two chars match exactly when their keys are equal. */
  function CaseKey(c: char): char {
    ToLower(ToUpper(c))
  }

  lemma CharEqualsIgnoreCaseIffKey(a: char, b: char)
    ensures CharEqualsIgnoreCase(a, b) <==> CaseKey(a) == CaseKey(b)
  {
  }

  lemma EqualsIgnoreCaseSymmetric(a: string, b: string)
    ensures EqualsIgnoreCase(a, b) <==> EqualsIgnoreCase(b, a)
  {
  }

  /** Matching ignoring case is an equivalence: it is also reflexive and transitive. */
  lemma EqualsIgnoreCaseReflexive(s: string)
    ensures EqualsIgnoreCase(s, s)
  {
  }

  lemma EqualsIgnoreCaseTransitive(a: string, b: string, c: string)
    requires EqualsIgnoreCase(a, b) && EqualsIgnoreCase(b, c)
    ensures EqualsIgnoreCase(a, c)
  {
    forall i | 0 <= i < |a|
      ensures CharEqualsIgnoreCase(a[i], c[i])
    {
      CharEqualsIgnoreCaseIffKey(a[i], b[i]);
      CharEqualsIgnoreCaseIffKey(b[i], c[i]);
      CharEqualsIgnoreCaseIffKey(a[i], c[i]);
    }
  }

  /**
   * The chars that match an upper-case ASCII letter `x`: `x` itself, its lower case, and for
   * 'I', 'S' and 'K' the non-ASCII chars whose case maps reach them.
   */
  lemma MatchesAsciiLetter(c: char, x: char)
    requires 'A' <= x <= 'Z'
    ensures CharEqualsIgnoreCase(c, x) <==>
      c == x || c as int == x as int + 32 ||
      (x == 'I' && (c == '\U{0130}' || c == '\U{0131}')) ||
      (x == 'S' && c == '\U{017F}') ||
      (x == 'K' && c == '\U{212A}')
  {
  }

  // ----- decimal rendering -----

  function DigitChar(d: nat): (c: char)
    requires d < 10
    ensures '0' <= c <= '9' && c as int - '0' as int == d
  {
    (d + '0' as int) as char
  }

  predicate IsDigits(s: string) {
    forall i :: 0 <= i < |s| ==> '0' <= s[i] <= '9'
  }

  /** Decimal digits of a natural number, without leading zeros. */
  function NatToDecimal(n: nat): (s: string)
    ensures |s| >= 1 && IsDigits(s)
    ensures s[0] == '0' ==> n == 0
  {
    if n < 10 then [DigitChar(n)] else NatToDecimal(n / 10) + [DigitChar(n % 10)]
  }

  /** The value of a string of decimal digits. */
  function DecimalValue(s: string): nat
    requires IsDigits(s)
  {
    if s == [] then 0 else DecimalValue(s[..|s| - 1]) * 10 + (s[|s| - 1] as int - '0' as int)
  }

  lemma {:induction false} DecimalRoundTrip(n: nat)
    ensures DecimalValue(NatToDecimal(n)) == n
  {
    if n >= 10 {
      DecimalRoundTrip(n / 10);
      var s := NatToDecimal(n);
      assert s[..|s| - 1] == NatToDecimal(n / 10);
    }
  }

  /** Java's `Long.toString(n)`: an optional minus sign, then the digits of |n|. */
  function LongToString(n: int): string {
    if n < 0 then "-" + NatToDecimal(-n) else NatToDecimal(n)
  }

  /** Distinct numbers render as distinct strings, so a rendered task id still identifies its task. */
  lemma LongToStringInjective(a: int, b: int)
    requires LongToString(a) == LongToString(b)
    ensures a == b
  {
    LongToStringSign(a);
    LongToStringSign(b);
    if a < 0 {
      assert b < 0;
      NatToDecimalInjective(-a, -b);
    } else {
      assert b >= 0;
      NatToDecimalInjective(a, b);
    }
  }

  lemma NatToDecimalInjective(m: nat, n: nat)
    requires NatToDecimal(m) == NatToDecimal(n)
    ensures m == n
  {
    DecimalRoundTrip(m);
    DecimalRoundTrip(n);
  }

  lemma LongToStringSign(n: int)
    ensures var s := LongToString(n);
      |s| >= 1 && (s[0] == '-' <==> n < 0) && (n < 0 ==> s[1..] == NatToDecimal(-n))
      && (n >= 0 ==> s == NatToDecimal(n))
  {
    if n >= 0 {
      var s := NatToDecimal(n);
      assert '0' <= s[0] <= '9';
    } else {
      var d := NatToDecimal(-n);
      assert ("-" + d)[1..] == d;
    }
  }

  /** Reads back what LongToString writes: an optional minus sign followed by at least one digit. */
  function ParseLong(s: string): (r: Wrappers.Option<int>)
    ensures r.Some? ==> |s| >= 1
  {
    if |s| >= 2 && s[0] == '-' && IsDigits(s[1..]) then
      var v: int := -(DecimalValue(s[1..]) as int);
      Wrappers.Some(v)
    else if |s| >= 1 && IsDigits(s) then
      var v: int := DecimalValue(s);
      Wrappers.Some(v)
    else Wrappers.None
  }

  lemma LongRoundTrip(n: int)
    ensures ParseLong(LongToString(n)) == Wrappers.Some(n)
  {
    LongToStringSign(n);
    var s := LongToString(n);
    if n < 0 {
      var d := NatToDecimal(-n);
      assert s[1..] == d && |s| >= 2 && s[0] == '-';
      assert IsDigits(s[1..]);
      DecimalRoundTrip(-n);
      assert DecimalValue(s[1..]) == -n;
    } else {
      var d := NatToDecimal(n);
      assert s == d && s[0] != '-';
      DecimalRoundTrip(n);
      assert IsDigits(s) && DecimalValue(s) == n;
    }
  }
}
