/** GDSII eight-byte reals (gdsii/math.cpp): sign bit, excess-64 power of 16, 56-bit mantissa. */
module GdsReal {

  const TWO52: int := 0x10_0000_0000_0000
  const TWO53: int := 0x20_0000_0000_0000
  const TWO56: int := 0x100_0000_0000_0000
  const TWO63: int := 0x8000_0000_0000_0000

  function Pow2(k: nat): nat {
    if k == 0 then 1 else 2 * Pow2(k - 1)
  }

  /** A finite double as frexp splits it: sig / 2^53 * 2^exp with a 53-bit significand. */
  datatype Double = Zero | Finite(neg: bool, sig: nat, exp: int)

  predicate WfDouble(d: Double) {
    d.Finite? ==> TWO52 <= d.sig < TWO53
  }

  /** The number man * 2^exp with a sign. */
  datatype Dyadic = Dyadic(neg: bool, man: nat, exp: int)

  /** man1 * 2^exp1 == man2 * 2^exp2 */
  predicate SameValue(man1: nat, exp1: int, man2: nat, exp2: int) {
    if exp1 >= exp2 then man1 * Pow2(exp1 - exp2) == man2 else man1 == man2 * Pow2(exp2 - exp1)
  }

  // ---------------------------------------------------------------------------------------------
  // Bitwise or

  function BitOr(a: nat, b: nat): nat
    decreases a + b
  {
    if a == 0 && b == 0 then 0
    else 2 * BitOr(a / 2, b / 2) + (if a % 2 == 1 || b % 2 == 1 then 1 else 0)
  }

  /** Operands without a common bit: a multiple of 2^k and a number below it. */
  lemma {:induction false} OrIsSum(a: nat, b: nat, k: nat)
    requires b < Pow2(k)
    ensures BitOr(Pow2(k) * a, b) == Pow2(k) * a + b
    decreases k
  {
    if k == 0 {
      OrZero(a);
      assert Pow2(0) * a == a;
    } else {
      var x := Pow2(k - 1) * a;
      assert Pow2(k) * a == 2 * x;
      OrIsSum(a, b / 2, k - 1);
      if 2 * x == 0 && b == 0 {
      } else {
        assert BitOr(2 * x, b) == 2 * BitOr(x, b / 2) + (if b % 2 == 1 then 1 else 0);
      }
    }
  }

  lemma {:induction false} OrZero(a: nat)
    ensures BitOr(a, 0) == a
  {
    if a > 0 {
      OrZero(a / 2);
    }
  }

  lemma PowersOfTwo()
    ensures Pow2(56) == TWO56 && Pow2(63) == TWO63
  {
    assert Pow2(8) == 256;
    assert Pow2(16) == 65536;
    assert Pow2(24) == 0x100_0000;
    assert Pow2(32) == 0x1_0000_0000;
    assert Pow2(40) == 0x100_0000_0000;
    assert Pow2(48) == 0x1_0000_0000_0000;
    assert Pow2(56) == TWO56;
  }

  // ---------------------------------------------------------------------------------------------
  // Encoding

  /** Extra right shift that makes the exponent a multiple of 4: 4 - (exp & 3), never 0. */
  function ShiftExtra(exp: int): (s: nat)
    ensures 1 <= s <= 4 && (exp + s) % 4 == 0
  {
    4 - exp % 4
  }

  /** 53 bits shifted up to 56, then down again by the extra shift. */
  function Mantissa(sig: nat, shift: nat): nat
    requires 1 <= shift <= 4
  {
    sig * 8 / (if shift == 1 then 2 else if shift == 2 then 4 else if shift == 3 then 8 else 16)
  }

  function ExpField(exp: int): int {
    (exp + 256 + ShiftExtra(exp)) / 4
  }

  /** The range the assertion in the code demands. */
  predicate InRange(d: Double) {
    WfDouble(d) && (d.Finite? ==> 0 <= d.exp + 256 + ShiftExtra(d.exp) <= 508)
  }

  /** double_to_gds: the three fields are combined by bitwise or. */
  function DoubleToGds(d: Double): nat
    requires InRange(d)
  {
    match d
    case Zero => 0
    case Finite(neg, sig, exp) =>
      BitOr(BitOr(if neg then TWO63 else 0, ExpField(exp) * TWO56), Mantissa(sig, ShiftExtra(exp)))
  }

  lemma MantissaBound(sig: nat, shift: nat)
    requires sig < TWO53 && 1 <= shift <= 4
    ensures Mantissa(sig, shift) < TWO56
  {
  }

  /** The fields never overlap, so the code is their sum and each can be read back. */
  lemma FieldsDisjoint(d: Double)
    requires InRange(d) && d.Finite?
    ensures Mantissa(d.sig, ShiftExtra(d.exp)) < TWO56 && 0 <= ExpField(d.exp) < 128
    ensures DoubleToGds(d) == (if d.neg then TWO63 else 0) + ExpField(d.exp) * TWO56 + Mantissa(d.sig, ShiftExtra(d.exp))
  {
    MantissaBound(d.sig, ShiftExtra(d.exp));
    OrFields(if d.neg then 1 else 0, ExpField(d.exp), Mantissa(d.sig, ShiftExtra(d.exp)));
  }

  lemma OrFields(s: nat, e: nat, m: nat)
    requires s <= 1 && e < 128 && m < TWO56
    ensures BitOr(BitOr(if s == 1 then TWO63 else 0, e * TWO56), m) == (if s == 1 then TWO63 else 0) + e * TWO56 + m
  {
    PowersOfTwo();
    var sign := if s == 1 then TWO63 else 0;
    OrIsSum(s, e * TWO56, 63);
    assert Pow2(63) * s == sign;
    var high := s * 128 + e;
    OrIsSum(high, m, 56);
    assert Pow2(56) * high == sign + e * TWO56;
  }

  // ---------------------------------------------------------------------------------------------
  // Decoding

  /** gds_to_double, as the exact number it computes: mantissa * 16^(exp - 64 - 14). */
  function GdsToDouble(v: nat): Dyadic
    requires v < 2 * TWO63
  {
    if v == 0 then Dyadic(false, 0, 0)
    else Dyadic(v >= TWO63, v % TWO56, 4 * (v % TWO63 / TWO56 - 78))
  }

  /** The significand that survives: the last bit is lost when the exponent is a multiple of 4. */
  function Kept(d: Double): nat
    requires d.Finite?
  {
    if d.exp % 4 == 0 then d.sig - d.sig % 2 else d.sig
  }

  lemma CodeBound(d: Double)
    requires InRange(d)
    ensures DoubleToGds(d) < 2 * TWO63
  {
    if d.Finite? {
      FieldsDisjoint(d);
    }
  }

  /** Encoding and decoding keeps the sign and gives exactly Kept(d) / 2^53 * 2^exp. */
  lemma RoundTrip(d: Double)
    requires InRange(d) && d.Finite?
    ensures DoubleToGds(d) < 2 * TWO63
    ensures var g := GdsToDouble(DoubleToGds(d));
      g.neg == d.neg && SameValue(g.man, g.exp, Kept(d), d.exp - 53)
  {
    FieldsDisjoint(d);
    var e, s := ExpField(d.exp), ShiftExtra(d.exp);
    var m := Mantissa(d.sig, s);
    var v := DoubleToGds(d);
    UnpackFields(if d.neg then 1 else 0, e, m, v);
    ShiftedMantissa(d.sig, s);
    assert v != 0;
    assert 4 * e == d.exp + 256 + s;
    var g := GdsToDouble(v);
    assert g == Dyadic(d.neg, m, 4 * (e - 78));
    assert g.exp == d.exp - 53 + (s as int) - 3;
    assert Pow2(0) == 1 && Pow2(1) == 2 && Pow2(2) == 4;
  }

  lemma UnpackFields(s: nat, e: nat, m: nat, v: nat)
    requires s <= 1 && e < 128 && m < TWO56 && v == s * TWO63 + e * TWO56 + m
    ensures v < 2 * TWO63 && v % TWO56 == m && v % TWO63 / TWO56 == e && (v >= TWO63 <==> s == 1)
  {
    assert v % TWO63 == e * TWO56 + m;
  }

  lemma ShiftedMantissa(sig: nat, s: nat)
    requires TWO52 <= sig && 1 <= s <= 4
    ensures Mantissa(sig, s) > 0
    ensures s == 1 ==> Mantissa(sig, s) == 4 * sig
    ensures s == 2 ==> Mantissa(sig, s) == 2 * sig
    ensures s == 3 ==> Mantissa(sig, s) == sig
    ensures s == 4 ==> 2 * Mantissa(sig, s) == sig - sig % 2
  {
  }

  /** With the exponents fixed, at most one significand has a given value. */
  lemma UniqueSignificand(man: nat, exp: int, a: nat, b: nat, e: int)
    requires SameValue(man, exp, a, e) && SameValue(man, exp, b, e)
    ensures a == b
  {
    if exp < e {
      var p := Pow2(e - exp);
      Pow2Positive(e - exp);
      assert a * p == b * p;
      CancelFactor(a, b, p);
    }
  }

  lemma CancelFactor(a: nat, b: nat, p: nat)
    requires p > 0 && a * p == b * p
    ensures a == b
  {
    assert (a - b) * p == 0;
  }

  /** What decoding the code of `d` gives is `k` units of the significand of `d`, in its sign. */
  predicate ComesBackAs(d: Double, k: nat)
    requires InRange(d) && d.Finite?
  {
    CodeBound(d);
    var g := GdsToDouble(DoubleToGds(d));
    g.neg == d.neg && SameValue(g.man, g.exp, k, d.exp - 53)
  }

  /** The number that was written comes back if and only if the exponent is not a multiple of 4 or the
      significand is even; otherwise one unit less comes back. */
  lemma ExactOrOneUnit(d: Double)
    requires InRange(d) && d.Finite?
    ensures ComesBackAs(d, d.sig) <==> d.exp % 4 != 0 || d.sig % 2 == 0
    ensures d.exp % 4 == 0 && d.sig % 2 == 1 ==> ComesBackAs(d, d.sig - 1)
  {
    RoundTrip(d);
    assert ComesBackAs(d, Kept(d));
    if ComesBackAs(d, d.sig) {
      var g := GdsToDouble(DoubleToGds(d));
      UniqueSignificand(g.man, g.exp, d.sig, Kept(d), d.exp - 53);
    }
  }

  /** Some number of units comes back; whichever it is, it is at most the one written and short of it
      by at most 2^-52 of its value. */
  lemma ErrorBound(d: Double)
    requires InRange(d) && d.Finite?
    ensures exists k: nat :: ComesBackAs(d, k)
    ensures forall k: nat :: ComesBackAs(d, k) ==> k <= d.sig && (d.sig - k) * TWO52 <= d.sig
  {
    RoundTrip(d);
    assert ComesBackAs(d, Kept(d));
    forall k: nat | ComesBackAs(d, k)
      ensures k <= d.sig && (d.sig - k) * TWO52 <= d.sig
    {
      var g := GdsToDouble(DoubleToGds(d));
      UniqueSignificand(g.man, g.exp, k, Kept(d), d.exp - 53);
    }
  }

  /** The loss happens: the double after 1/2 comes back as 1/2. */
  lemma LostBit()
    ensures var d := Finite(false, TWO52 + 1, 0);
      InRange(d) && !ComesBackAs(d, TWO52 + 1) && ComesBackAs(d, TWO52)
  {
    ExactOrOneUnit(Finite(false, TWO52 + 1, 0));
  }

  lemma ZeroRoundTrip()
    ensures GdsToDouble(DoubleToGds(Zero)) == Dyadic(false, 0, 0)
  {
  }

  // ---------------------------------------------------------------------------------------------
  // The angles that placements use

  /** 90, 180 and 270 as doubles. */
  function AngleDouble(angle: nat): (d: Double)
    requires angle == 90 || angle == 180 || angle == 270
    ensures InRange(d) && d.Finite?
  {
    if angle == 90 then Finite(false, 90 * 0x4000_0000_0000, 7)
    else if angle == 180 then Finite(false, 180 * 0x2000_0000_0000, 8)
    else Finite(false, 270 * 0x1000_0000_0000, 9)
  }

  /** Truncation to an integer, as the cast in the reader does. */
  function Truncate(g: Dyadic): int {
    Pow2Positive(if g.exp >= 0 then 0 else -g.exp);
    var a := if g.exp >= 0 then g.man * Pow2(g.exp) else g.man / Pow2(-g.exp);
    if g.neg then -a else a
  }

  lemma {:induction false} Pow2Positive(k: nat)
    ensures Pow2(k) > 0
  {
    if k > 0 {
      Pow2Positive(k - 1);
    }
  }

  lemma SmallPowers()
    ensures Pow2(44) == 0x1000_0000_0000 && Pow2(45) == 0x2000_0000_0000
    ensures Pow2(46) == 0x4000_0000_0000 && Pow2(48) == 0x1_0000_0000_0000
  {
    PowersOfTwo();
    assert Pow2(44) == 0x1000_0000_0000;
  }

  /** AngleDouble is the double it is named after. */
  lemma AngleDoubleValue(angle: nat)
    requires angle == 90 || angle == 180 || angle == 270
    ensures SameValue(AngleDouble(angle).sig, AngleDouble(angle).exp - 53, angle, 0)
  {
    SmallPowers();
  }

  /** Each angle survives the trip through the file and the reader's cast to an integer. */
  lemma AngleRoundTrip(angle: nat)
    requires angle == 90 || angle == 180 || angle == 270
    ensures DoubleToGds(AngleDouble(angle)) < 2 * TWO63
    ensures Truncate(GdsToDouble(DoubleToGds(AngleDouble(angle)))) == angle
  {
    var d := AngleDouble(angle);
    FieldsDisjoint(d);
    var e, m := ExpField(d.exp), Mantissa(d.sig, ShiftExtra(d.exp));
    UnpackFields(0, e, m, DoubleToGds(d));
    assert GdsToDouble(DoubleToGds(d)) == Dyadic(false, m, 4 * (e - 78));
    AngleTruncates(angle, e, m);
  }

  lemma AngleTruncates(angle: nat, e: int, m: nat)
    requires angle == 90 || angle == 180 || angle == 270
    requires var d := AngleDouble(angle); e == ExpField(d.exp) && m == Mantissa(d.sig, ShiftExtra(d.exp))
    ensures Truncate(Dyadic(false, m, 4 * (e - 78))) == angle
  {
    SmallPowers();
  }
}
