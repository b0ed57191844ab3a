/** Account addresses and their hex spelling. */
module HexAddress {

  type Address = nat

  predicate HexDigit(c: char) {
    '0' <= c <= '9' || 'a' <= c <= 'f' || 'A' <= c <= 'F'
  }

  function HexVal(c: char): (v: nat)
    requires HexDigit(c)
    ensures v < 16
  {
    if c <= '9' then (c - '0') as nat else if c <= 'F' then (c - 'A') as nat + 10 else (c - 'a') as nat + 10
  }

  function HexChar(v: nat): (c: char)
    requires v < 16
    ensures HexDigit(c) && HexVal(c) == v
  {
    if v < 10 then '0' + v as char else 'a' + (v - 10) as char
  }

  function Lower(c: char): char {
    if 'A' <= c <= 'Z' then c + 32 as char else c
  }

  /** strings.EqualFold on the characters an address can have. */
  predicate EqualFold(a: string, b: string) {
    |a| == |b| && forall i :: 0 <= i < |a| ==> Lower(a[i]) == Lower(b[i])
  }

  predicate Prefixed(s: string) {
    |s| >= 2 && s[0] == '0' && (s[1] == 'x' || s[1] == 'X')
  }

  function Digits(s: string): string {
    if Prefixed(s) then s[2..] else s
  }

  predicate AllHex(s: string) {
    forall i :: 0 <= i < |s| ==> HexDigit(s[i])
  }

  /** Forty hex digits, with or without 0x in front. */
  predicate IsHexAddress(s: string) {
    |Digits(s)| == 40 && AllHex(Digits(s))
  }

  function HexValue(s: string): nat
    requires AllHex(s)
  {
    if s == [] then 0 else 16 * HexValue(s[..|s| - 1]) + HexVal(s[|s| - 1])
  }

  function HexToAddress(s: string): Address
    requires IsHexAddress(s)
  {
    HexValue(Digits(s))
  }

  function HexDigits(a: nat, n: nat): (s: string)
    ensures |s| == n && AllHex(s)
  {
    if n == 0 then [] else HexDigits(a / 16, n - 1) + [HexChar(a % 16)]
  }

  /** Address.Hex(), up to letter case. */
  function Hex(a: Address): string {
    "0x" + HexDigits(a, 40)
  }

  function Pow16(n: nat): nat {
    if n == 0 then 1 else 16 * Pow16(n - 1)
  }

  lemma {:induction false} HexDigitsValue(a: nat, n: nat)
    requires a < Pow16(n)
    ensures HexValue(HexDigits(a, n)) == a
  {
    if n > 0 {
      HexDigitsValue(a / 16, n - 1);
      var s := HexDigits(a, n);
      assert s[..n - 1] == HexDigits(a / 16, n - 1);
    }
  }

  lemma LowerHex(c: char, d: char)
    requires HexDigit(c) && HexDigit(d)
    ensures Lower(c) == Lower(d) <==> HexVal(c) == HexVal(d)
  {
  }

  lemma FoldLast(a: string, b: string)
    requires |a| == |b| > 0
    ensures var n := |a| - 1; EqualFold(a, b) <==> EqualFold(a[..n], b[..n]) && Lower(a[n]) == Lower(b[n])
  {
    var n := |a| - 1;
    assert forall i :: 0 <= i < n ==> a[..n][i] == a[i] && b[..n][i] == b[i];
  }

  /** Equally long hex strings have the same value exactly when they differ in case only. */
  lemma {:induction false} HexValueFold(a: string, b: string)
    requires AllHex(a) && AllHex(b) && |a| == |b|
    ensures HexValue(a) == HexValue(b) <==> EqualFold(a, b)
  {
    if a != [] {
      var n := |a| - 1;
      HexValueFold(a[..n], b[..n]);
      LowerHex(a[n], b[n]);
      FoldLast(a, b);
    }
  }

  lemma FoldPrefix(digits: string, s: string)
    requires Prefixed(s)
    ensures EqualFold("0x" + digits, s) <==> EqualFold(digits, s[2..])
  {
  }

  /** The text comparison is address equality, but only for a claim written with 0x. */
  lemma SameAddress(a: Address, s: string)
    requires a < Pow16(40) && IsHexAddress(s)
    ensures EqualFold(Hex(a), s) <==> Prefixed(s) && HexToAddress(s) == a
  {
    HexDigitsValue(a, 40);
    if Prefixed(s) {
      HexValueFold(HexDigits(a, 40), s[2..]);
      FoldPrefix(HexDigits(a, 40), s);
    }
  }
}
