/** Colon-separated keys, decimal numbers and byte order, as used by every storage key
    and request id in the system. */
module Strings {

  datatype Option<+T> = None | Some(value: T)

  // ---------------------------------------------------------------- prefixes

  predicate HasPrefix(s: string, prefix: string) {
    prefix <= s
  }

  // ---------------------------------------------------------------- colons

  predicate ColonFree(s: string) {
    ':' !in s
  }

  /** strings.Count(s, ":") */
  function Colons(s: string): nat {
    if s == [] then 0 else (if s[0] == ':' then 1 else 0) + Colons(s[1..])
  }

  lemma {:induction false} ColonsConcat(a: string, b: string)
    ensures Colons(a + b) == Colons(a) + Colons(b)
  {
    if a == [] {
      assert a + b == b;
    } else {
      assert (a + b)[1..] == a[1..] + b;
      ColonsConcat(a[1..], b);
    }
  }

  lemma {:induction false} ColonFreeCount(s: string)
    ensures ColonFree(s) <==> Colons(s) == 0
  {
    if s != [] {
      assert s == [s[0]] + s[1..];
      ColonFreeCount(s[1..]);
    }
  }

  /** A colon-free segment in front adds exactly one colon. */
  lemma ColonsAround(a: string, b: string)
    requires ColonFree(a)
    ensures Colons(a + ":" + b) == 1 + Colons(b)
  {
    ColonFreeCount(a);
    ColonsConcat(a + ":", b);
    ColonsConcat(a, ":");
  }

  /** Position of the first colon, or |s|. */
  function FirstColon(s: string): (i: nat)
    ensures i <= |s|
    ensures i < |s| ==> s[i] == ':'
    ensures ColonFree(s[..i])
  {
    if s == [] || s[0] == ':' then 0
    else
      var i := 1 + FirstColon(s[1..]);
      assert s[..i] == [s[0]] + s[1..][..i - 1];
      i
  }

  /** The first colon of `a:b` sits right after a colon-free `a`. */
  lemma {:induction false} FirstColonAt(a: string, b: string)
    requires ColonFree(a)
    ensures FirstColon(a + ":" + b) == |a|
  {
    var s := a + ":" + b;
    var i := FirstColon(s);
    assert s[|a|] == ':';
    assert forall k :: 0 <= k < |a| ==> s[k] == a[k];
    forall k | 0 <= k < i ensures s[k] != ':' { assert s[k] in s[..i]; }
  }

  /** strings.SplitN(s, ":", n): at most n parts, the last one unsplit. */
  function SplitN(s: string, n: nat): (parts: seq<string>)
    requires n >= 1
    ensures 1 <= |parts| <= n
    decreases n
  {
    var i := FirstColon(s);
    if n == 1 || i == |s| then [s]
    else [s[..i]] + SplitN(s[i + 1..], n - 1)
  }

  /** strings.Split(s, ":") */
  function Split(s: string): (parts: seq<string>)
    ensures |parts| >= 1
  {
    var i := FirstColon(s);
    if i == |s| then [s] else [s[..i]] + Split(s[i + 1..])
  }

  /** strings.Join(parts, ":") */
  function Join(parts: seq<string>): string
    requires |parts| >= 1
  {
    if |parts| == 1 then parts[0] else parts[0] + ":" + Join(parts[1..])
  }

  lemma JoinCons(a: string, parts: seq<string>)
    requires |parts| >= 1
    ensures Join([a] + parts) == a + ":" + Join(parts)
  {
  }

  lemma {:induction false} JoinSplit(s: string)
    ensures Join(Split(s)) == s
    ensures |Split(s)| == Colons(s) + 1
    decreases |s|
  {
    var i := FirstColon(s);
    if i == |s| {
      ColonFreeCount(s);
      assert s[..i] == s;
    } else {
      var rest := s[i + 1..];
      ColonsAround(s[..i], rest);
      assert s == s[..i] + ":" + rest;
      JoinSplit(rest);
      assert Split(s)[1..] == Split(rest);
    }
  }

  lemma {:induction false} JoinSplitN(s: string, n: nat)
    requires n >= 1
    ensures Join(SplitN(s, n)) == s
    ensures |SplitN(s, n)| == if Colons(s) + 1 < n then Colons(s) + 1 else n
    decreases n
  {
    var i := FirstColon(s);
    if i == |s| {
      ColonFreeCount(s);
      assert s[..i] == s;
    } else {
      var rest := s[i + 1..];
      ColonsAround(s[..i], rest);
      assert s == s[..i] + ":" + rest;
      if n > 1 {
        JoinSplitN(rest, n - 1);
        assert SplitN(s, n)[1..] == SplitN(rest, n - 1);
      }
    }
  }

  /** Splitting a key at a known colon-free first segment. */
  lemma SplitHead(a: string, b: string)
    requires ColonFree(a)
    ensures Split(a + ":" + b) == [a] + Split(b)
    ensures forall n {:trigger SplitN(a + ":" + b, n)} :: n >= 2 ==> SplitN(a + ":" + b, n) == [a] + SplitN(b, n - 1)
  {
    var s := a + ":" + b;
    FirstColonAt(a, b);
    assert s[..|a|] == a;
    assert s[|a| + 1..] == b;
  }

  /** A key with two known colon-free segments in front. */
  lemma ThreeSegments(a: string, b: string, rest: string)
    requires ColonFree(a) && ColonFree(b)
    ensures SplitN(a + ":" + (b + ":" + rest), 3) == [a, b, rest]
  {
    SplitHead(a, b + ":" + rest);
    SplitHead(b, rest);
  }

  lemma ThreeSegmentColons(a: string, b: string, rest: string)
    requires ColonFree(a) && ColonFree(b)
    ensures Colons(a + ":" + (b + ":" + rest)) == 2 + Colons(rest)
  {
    ColonsAround(a, b + ":" + rest);
    ColonsAround(b, rest);
  }

  /** A key is its prefix followed by the rest. */
  lemma PrefixRest(k: string, prefix: string)
    requires HasPrefix(k, prefix)
    ensures k == prefix + k[|prefix|..]
    ensures forall i :: 0 <= i < |prefix| ==> k[i] == prefix[i]
  {
  }

  /** A key that reads `n:` from the start has n as its first segment. */
  lemma HeadSegment(n: string, k: string)
    requires ColonFree(n) && HasPrefix(k, n + ":")
    ensures FirstColon(k) == |n| < |k|
    ensures k[..|n|] == n
    ensures k == n + ":" + k[|n| + 1..]
  {
    PrefixRest(k, n + ":");
    FirstColonAt(n, k[|n| + 1..]);
  }

  /** Two strings with the same colon-free first segment length agree everywhere. */
  lemma HeadUnique(a: string, b: string, c: string, d: string)
    requires ColonFree(a) && ColonFree(c)
    requires a + ":" + b == c + ":" + d
    ensures a == c && b == d
  {
    FirstColonAt(a, b);
    FirstColonAt(c, d);
    assert a == (a + ":" + b)[..|a|];
    assert c == (c + ":" + d)[..|c|];
    assert b == (a + ":" + b)[|a| + 1..];
    assert d == (c + ":" + d)[|c| + 1..];
  }

  /** The last segment is unique too: colons before it do not matter. */
  lemma LastUnique(a: string, b: string, c: string, d: string)
    requires ColonFree(b) && ColonFree(d)
    requires a + ":" + b == c + ":" + d
    ensures a == c && b == d
  {
    var s := a + ":" + b;
    assert s[|a|] == ':' && s[|c|] == ':';
    assert forall k :: |a| < k < |s| ==> s[k] == b[k - |a| - 1];
    assert forall k :: |c| < k < |s| ==> s[k] == d[k - |c| - 1];
    assert a == s[..|a|] && c == s[..|c|];
    assert b == s[|a| + 1..] && d == s[|c| + 1..];
  }

  // ---------------------------------------------------------------- decimals

  predicate IsDigit(c: char) {
    '0' <= c <= '9'
  }

  predicate AllDigits(s: string) {
    forall i :: 0 <= i < |s| ==> IsDigit(s[i])
  }

  function DigitChar(d: nat): (c: char)
    requires d < 10
    ensures IsDigit(c)
  {
    '0' + d as char
  }

  function DigitValue(c: char): (d: nat)
    requires IsDigit(c)
    ensures d < 10
  {
    (c - '0') as nat
  }

  /** fmt "%d" of a natural number. */
  function Decimal(n: nat): (s: string)
    ensures s != [] && AllDigits(s)
  {
    if n < 10 then [DigitChar(n)] else Decimal(n / 10) + [DigitChar(n % 10)]
  }

  /** fmt "%d" of an integer. */
  function DecimalInt(n: int): (s: string)
    ensures s != []
  {
    if n < 0 then "-" + Decimal(-n) else Decimal(n)
  }

  function DigitsValue(s: string): (n: nat)
    requires AllDigits(s)
  {
    if s == [] then 0 else 10 * DigitsValue(s[..|s| - 1]) + DigitValue(s[|s| - 1])
  }

  const MIN_INT64: int := -0x8000_0000_0000_0000
  const MAX_INT64: int := 0x7fff_ffff_ffff_ffff

  /** strconv.ParseInt(s, 10, 64): an optional sign, at least one digit, in range. */
  function ParseInt64(s: string): (r: Option<int>)
    ensures r.Some? ==> MIN_INT64 <= r.value <= MAX_INT64
  {
    var signed := s != [] && (s[0] == '-' || s[0] == '+');
    var digits := if signed then s[1..] else s;
    if digits == [] || !AllDigits(digits) then None
    else
      var n: int := if signed && s[0] == '-' then -(DigitsValue(digits) as int) else DigitsValue(digits);
      if MIN_INT64 <= n <= MAX_INT64 then Some(n) else None
  }

  lemma {:induction false} DecimalValue(n: nat)
    ensures DigitsValue(Decimal(n)) == n
  {
    if n < 10 {
      assert Decimal(n)[..0] == [];
    } else {
      DecimalValue(n / 10);
      var s := Decimal(n);
      assert s[..|s| - 1] == Decimal(n / 10);
    }
  }

  lemma DecimalColonFree(n: int)
    ensures ColonFree(DecimalInt(n))
  {
  }

  lemma ParseDigits(s: string)
    requires s != [] && AllDigits(s)
    ensures DigitsValue(s) <= MAX_INT64 ==> ParseInt64(s) == Some(DigitsValue(s))
  {
  }

  lemma ParseNegative(s: string)
    requires s != [] && AllDigits(s)
    ensures -(DigitsValue(s) as int) >= MIN_INT64 ==> ParseInt64("-" + s) == Some(-(DigitsValue(s) as int))
  {
  }

  /** Printing an int64 and parsing it back is the identity. */
  lemma ParsePrinted(n: int)
    requires MIN_INT64 <= n <= MAX_INT64
    ensures ParseInt64(DecimalInt(n)) == Some(n)
  {
    if n < 0 {
      DecimalValue(-n);
      ParseNegative(Decimal(-n));
    } else {
      DecimalValue(n);
      ParseDigits(Decimal(n));
    }
  }

  lemma DecimalIntInjective(m: int, n: int)
    requires DecimalInt(m) == DecimalInt(n)
    ensures m == n
  {
    DecimalSign(m);
    DecimalSign(n);
  }

  /** The sign and the digits of a printed number give the number back. */
  lemma DecimalSign(n: int)
    ensures DecimalInt(n)[0] == '-' <==> n < 0
    ensures n < 0 ==> AllDigits(DecimalInt(n)[1..]) && DigitsValue(DecimalInt(n)[1..]) == -n
    ensures n >= 0 ==> AllDigits(DecimalInt(n)) && DigitsValue(DecimalInt(n)) == n
  {
    if n < 0 {
      DecimalValue(-n);
      assert DecimalInt(n)[1..] == Decimal(-n);
    } else {
      DecimalValue(n);
      assert IsDigit(Decimal(n)[0]);
    }
  }

  // ---------------------------------------------------------------- byte order

  /** Strict lexicographic order, the order in which the store iterates keys. */
  predicate Less(a: string, b: string)
    decreases |a|
  {
    b != [] && (a == [] || a[0] < b[0] || (a[0] == b[0] && Less(a[1..], b[1..])))
  }

  lemma {:induction false} LessIrreflexive(a: string)
    ensures !Less(a, a)
    decreases |a|
  {
    if a != [] { LessIrreflexive(a[1..]); }
  }

  lemma {:induction false} LessTransitive(a: string, b: string, c: string)
    requires Less(a, b) && Less(b, c)
    ensures Less(a, c)
    decreases |a|
  {
    if a != [] && a[0] == b[0] && b[0] == c[0] {
      LessTransitive(a[1..], b[1..], c[1..]);
    }
  }

  lemma {:induction false} LessTotal(a: string, b: string)
    ensures Less(a, b) || a == b || Less(b, a)
    decreases |a|
  {
    if a != [] && b != [] && a[0] == b[0] {
      LessTotal(a[1..], b[1..]);
      assert a == [a[0]] + a[1..];
      assert b == [b[0]] + b[1..];
    }
  }
}
