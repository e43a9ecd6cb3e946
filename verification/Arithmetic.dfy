/** Unsigned arithmetic written by repeated addition, so that proofs about products and quotients
    of two unknowns stay linear: the solver unfolds these functions only where a proof asks for it.
    `TimesIsProduct`, `QuotientIsDiv` and `WrapIsMod` tie them to `*`, `/` and `%`.
 */
module Arithmetic {

  /** Product of two counters. */
  function Times(n: nat, d: nat): nat {
    if n == 0 then 0 else Times(n - 1, d) + d
  }

  lemma {:induction false} TimesIsProduct(n: nat, d: nat)
    ensures Times(n, d) == n * d
  {
    if n > 0 {
      TimesIsProduct(n - 1, d);
      assert n * d == (n - 1) * d + d;
    }
  }

  lemma {:induction false} TimesAdd(a: nat, b: nat, d: nat)
    ensures Times(a + b, d) == Times(a, d) + Times(b, d)
  {
    if b > 0 {
      TimesAdd(a, b - 1, d);
    }
  }

  lemma TimesMono(a: nat, b: nat, d: nat)
    requires a <= b
    ensures Times(a, d) <= Times(b, d)
  {
    TimesAdd(a, b - a, d);
  }

  /** Unsigned division. */
  function Quotient(n: nat, d: nat): (q: nat)
    requires d > 0
    ensures q <= n
  {
    if n < d then 0 else 1 + Quotient(n - d, d)
  }

  function Remainder(n: nat, d: nat): (r: nat)
    requires d > 0
    ensures r < d
  {
    if n < d then n else Remainder(n - d, d)
  }

  lemma {:induction false} QuotientBracket(n: nat, d: nat)
    requires d > 0
    ensures n == Times(Quotient(n, d), d) + Remainder(n, d)
  {
    if n >= d {
      QuotientBracket(n - d, d);
    }
  }

  lemma {:induction false} QuotientUnique(n: nat, d: nat, q: nat)
    requires d > 0 && Times(q, d) <= n < Times(q, d) + d
    ensures Quotient(n, d) == q && Remainder(n, d) == n - Times(q, d)
  {
    if q > 0 {
      QuotientUnique(n - d, d, q - 1);
    }
  }

  lemma {:induction false} QuotientIsDiv(n: nat, d: nat)
    requires d > 0
    ensures Quotient(n, d) == n / d && Remainder(n, d) == n % d
  {
    var q := n / d;
    assert n == q * d + n % d;
    assert q >= 0;
    TimesIsProduct(q, d);
    QuotientUnique(n, d, q);
  }

  /** The value an unsigned 64-bit variable holds after being assigned `x`. */
  function Wrap(x: int): (r: int)
    ensures 0 <= r < 0x1_0000_0000_0000_0000
    ensures 0 <= x < 0x1_0000_0000_0000_0000 ==> r == x
    decreases if x < 0 then 0x1_0000_0000_0000_0000 - x else x
  {
    if x < 0 then Wrap(x + 0x1_0000_0000_0000_0000)
    else if x >= 0x1_0000_0000_0000_0000 then Wrap(x - 0x1_0000_0000_0000_0000)
    else x
  }

  lemma {:induction false} WrapIsMod(x: int)
    ensures Wrap(x) == x % 0x1_0000_0000_0000_0000
    decreases if x < 0 then 0x1_0000_0000_0000_0000 - x else x
  {
    if x < 0 {
      WrapIsMod(x + 0x1_0000_0000_0000_0000);
    } else if x >= 0x1_0000_0000_0000_0000 {
      WrapIsMod(x - 0x1_0000_0000_0000_0000);
    }
  }

  /** Wrapping early or late makes no difference. */
  lemma {:induction false} WrapAbsorb(x: int, y: int)
    ensures Wrap(Wrap(x) + y) == Wrap(x + y)
  {
    WrapIsMod(x);
    WrapIsMod(Wrap(x) + y);
    WrapIsMod(x + y);
  }
}
