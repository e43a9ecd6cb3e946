/** Decimal numerals: what std::to_string and fmt print, and what Spirit's unsigned parser reads. */
module Decimal {
  import opened Counts

  predicate IsDigit(c: char) {
    '0' <= c <= '9'
  }

  function DigitChar(d: nat): (c: char)
    requires d < 10
    ensures IsDigit(c) && DigitValue(c) == d
  {
    '0' + d as char
  }

  function DigitValue(c: char): nat
    requires IsDigit(c)
  {
    (c - '0') as int
  }

  /** The decimal numeral of `n`, without leading zeros. */
  function Numeral(n: nat): (s: string)
    ensures |s| > 0
    ensures forall i :: 0 <= i < |s| ==> IsDigit(s[i])
  {
    if n < 10 then [DigitChar(n)] else Numeral(n / 10) + [DigitChar(n % 10)]
  }

  function NumeralValue(s: string): nat
    requires forall i :: 0 <= i < |s| ==> IsDigit(s[i])
  {
    if s == [] then 0 else 10 * NumeralValue(s[..|s| - 1]) + DigitValue(s[|s| - 1])
  }

  lemma {:induction false} NumeralRead(n: nat)
    ensures NumeralValue(Numeral(n)) == n
  {
    if n >= 10 {
      NumeralRead(n / 10);
      assert Numeral(n)[..|Numeral(n)| - 1] == Numeral(n / 10);
    } else {
      assert Numeral(n)[..0] == [];
    }
  }

  lemma NumeralInjective(a: nat, b: nat)
    requires Numeral(a) == Numeral(b)
    ensures a == b
  {
    NumeralRead(a);
    NumeralRead(b);
  }

  /** Length of the longest run of digits at the front. */
  function DigitRun(s: string): (k: nat)
    ensures k <= |s|
    ensures forall i :: 0 <= i < k ==> IsDigit(s[i])
  {
    if s == [] || !IsDigit(s[0]) then 0 else 1 + DigitRun(s[1..])
  }

  lemma {:induction false} DigitRunIs(ds: string, rest: string)
    requires forall i :: 0 <= i < |ds| ==> IsDigit(ds[i])
    requires rest == [] || !IsDigit(rest[0])
    ensures DigitRun(ds + rest) == |ds|
  {
    if ds == [] {
      assert ds + rest == rest;
    } else {
      assert (ds + rest)[1..] == ds[1..] + rest;
      DigitRunIs(ds[1..], rest);
    }
  }

  /** Reads the longest run of digits; fails without digits or when the value needs more than 32 bits. */
  function ReadUint32(s: string): (r: Option<(nat, string)>)
    ensures r.Some? ==> r.value.0 < TWO32 && |r.value.1| < |s|
  {
    var k := DigitRun(s);
    if k == 0 || NumeralValue(s[..k]) >= TWO32 then None else Some((NumeralValue(s[..k]), s[k..]))
  }

  lemma ReadNumeral(n: nat, rest: string)
    requires rest == [] || !IsDigit(rest[0])
    ensures ReadUint32(Numeral(n) + rest) == if n < TWO32 then Some((n, rest)) else None
  {
    var d := Numeral(n);
    DigitRunIs(d, rest);
    NumeralRead(n);
    assert (d + rest)[..|d|] == d && (d + rest)[|d|..] == rest;
  }

  /** Reads the longest run of digits, whatever its value. */
  function ReadNat(s: string): (r: Option<(nat, string)>)
    ensures r.Some? ==> |r.value.1| < |s|
  {
    var k := DigitRun(s);
    if k == 0 then None else Some((NumeralValue(s[..k]), s[k..]))
  }

  lemma ReadNatNumeral(n: nat, rest: string)
    requires rest == [] || !IsDigit(rest[0])
    ensures ReadNat(Numeral(n) + rest) == Some((n, rest))
  {
    var d := Numeral(n);
    DigitRunIs(d, rest);
    NumeralRead(n);
    assert (d + rest)[..|d|] == d && (d + rest)[|d|..] == rest;
  }
}
