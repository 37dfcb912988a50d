/**
 Decimal numbers as Python's `decimal` keeps them: sign, coefficient and exponent, evaluated at
 precision 40 (General Decimal Arithmetic Specification, "Arithmetic operations").
 */
module Decimals {

  datatype Decimal = Decimal(neg: bool, coeff: nat, exp: int)

  function Pow10(n: nat): (p: int)
    ensures p > 0
  {
    if n == 0 then 1 else 10 * Pow10(n - 1)
  }

  lemma {:induction false} Pow10Add(m: nat, n: nat)
    ensures Pow10(m + n) == Pow10(m) * Pow10(n)
  {
    if m > 0 {
      Pow10Add(m - 1, n);
      assert Pow10(m + n) == 10 * Pow10(m - 1 + n);
    }
  }

  lemma {:induction false} Pow10Le(m: nat, n: nat)
    requires m <= n
    ensures Pow10(m) <= Pow10(n)
    decreases n - m
  {
    if m < n {
      Pow10Le(m + 1, n);
    }
  }

  lemma Pow10Less(m: nat, n: nat)
    ensures m < n ==> Pow10(m) < Pow10(n)
  {
    if m < n {
      Pow10Le(m + 1, n);
    }
  }

  function Scaled(coeff: nat, k: nat): nat { coeff * Pow10(k) }

  // ---- values ---------------------------------------------------------------------------------

  datatype Rational = Rational(num: int, den: int)

  ghost predicate Equal(x: Rational, y: Rational) { x.num * y.den == y.num * x.den }

  function Plus(x: Rational, y: Rational): Rational { Rational(x.num * y.den + y.num * x.den, x.den * y.den) }

  function Minus(x: Rational, y: Rational): Rational { Rational(x.num * y.den - y.num * x.den, x.den * y.den) }

  function Times(x: Rational, y: Rational): Rational { Rational(x.num * y.num, x.den * y.den) }

  function Signed(d: Decimal): int { if d.neg then 0 - d.coeff else d.coeff }

  function Value(d: Decimal): (r: Rational)
    ensures r.den > 0
  {
    if d.exp >= 0 then Rational(Signed(d) * Pow10(d.exp), 1) else Rational(Signed(d), Pow10(-d.exp))
  }

  // ---- operations -----------------------------------------------------------------------------

  /** A result before and after rounding to the context precision, half to even. */
  datatype Rounded = Rounded(value: Decimal, inexact: bool)

  function Digits(n: nat): nat {
    if n < 10 then 1 else 1 + Digits(n / 10)
  }

  function Kept(n: nat, unit: int): nat
    requires unit > 0
  {
    n / unit
  }

  function Lost(n: nat, unit: int): nat
    requires unit > 0
  {
    n % unit
  }

  function Fix(d: Decimal, precision: nat): Rounded
    requires precision > 0
  {
    if Digits(d.coeff) <= precision then Rounded(d, false)
    else
      var drop := Digits(d.coeff) - precision;
      var unit := Pow10(drop);
      var kept, lost := Kept(d.coeff, unit), Lost(d.coeff, unit);
      var up := 2 * lost > unit || (2 * lost == unit && kept % 2 == 1);
      Rounded(RoundUp(d.neg, kept, d.exp + drop, up, precision), lost != 0)
  }

  /** One more unit in the last place when `up`, renormalized to `precision` digits. */
  function RoundUp(neg: bool, coeff: nat, exp: int, up: bool, precision: nat): Decimal
    requires precision > 0
  {
    if !up then Decimal(neg, coeff, exp)
    else if coeff + 1 == Pow10(precision) then Decimal(neg, Pow10(precision - 1), exp + 1)
    else Decimal(neg, coeff + 1, exp)
  }

  function Lower(x: int, y: int): int { if x <= y then x else y }

  function Align(d: Decimal, exp: int): int
    requires exp <= d.exp
  {
    Signed(d) * Pow10(d.exp - exp)
  }

  function Magnitude(x: int): nat { if x < 0 then 0 - x else x }

  /** The exact sum, at the lower of the two exponents. Zero is negative only for two negative zeros. */
  function ExactSum(a: Decimal, b: Decimal): Decimal {
    var exp := Lower(a.exp, b.exp);
    var sum := Align(a, exp) + Align(b, exp);
    var neg := if sum == 0 then a.neg && b.neg && a.coeff == 0 && b.coeff == 0 else sum < 0;
    Decimal(neg, Magnitude(sum), exp)
  }

  function RoundedSum(a: Decimal, b: Decimal, precision: nat): Rounded
    requires precision > 0
  {
    Fix(ExactSum(a, b), precision)
  }

  function RoundedDifference(a: Decimal, b: Decimal, precision: nat): Rounded
    requires precision > 0
  {
    RoundedSum(a, b.(neg := !b.neg), precision)
  }

  function ExactProduct(a: Decimal, b: Decimal): Decimal {
    Decimal(a.neg != b.neg, a.coeff * b.coeff, a.exp + b.exp)
  }

  function RoundedProduct(a: Decimal, b: Decimal, precision: nat): Rounded
    requires precision > 0
  {
    Fix(ExactProduct(a, b), precision)
  }

  // Long division. `divisor` is `b` times a power of ten; the invariant of the digit loop is the
  // division identity below.

  ghost predicate Identity(a: nat, power: int, coeff: nat, divisor: nat, dividend: nat) {
    power >= 0 && a * Pow10(power) == coeff * divisor + dividend
  }

  lemma IdentityDigit(a: nat, power: int, coeff: nat, divisor: nat, dividend: nat, digit: nat, rest: nat)
    requires Identity(a, power, coeff, divisor, dividend) && dividend == digit * divisor + rest
    ensures Identity(a, power, coeff + digit, divisor, rest)
  {
    assert (coeff + digit) * divisor == coeff * divisor + digit * divisor;
  }

  lemma IdentityShift(a: nat, power: int, coeff: nat, divisor: nat, dividend: nat)
    requires Identity(a, power, coeff, divisor, dividend)
    ensures Identity(a, power + 1, 10 * coeff, divisor, 10 * dividend)
  {
    assert Pow10(power + 1) == 10 * Pow10(power);
    assert a * Pow10(power + 1) == 10 * (a * Pow10(power));
    assert (10 * coeff) * divisor == 10 * (coeff * divisor);
  }

  /** Dividing the identity by the power of ten in the divisor. */
  lemma IdentityReduce(a: nat, adjust: int, lift: nat, coeff: nat, b: nat, dividend: nat)
    requires Identity(a, adjust + lift, coeff, b * Pow10(lift), dividend) && adjust >= 0
    requires dividend < b * Pow10(lift)
    ensures dividend == 0 ==> a * Pow10(adjust) == coeff * b
    ensures dividend > 0 ==> coeff * b < a * Pow10(adjust) < (coeff + 1) * b
  {
    Pow10Add(adjust, lift);
    Reduce(a, Pow10(adjust), Pow10(lift), coeff, b, dividend);
  }

  lemma Reduce(a: nat, q: int, p: int, coeff: nat, b: nat, dividend: nat)
    requires p > 0 && a * (q * p) == coeff * (b * p) + dividend && dividend < b * p
    ensures dividend == 0 ==> a * q == coeff * b
    ensures dividend > 0 ==> coeff * b < a * q < (coeff + 1) * b
  {
    var left, right := a * q, coeff * b;
    assert a * (q * p) == left * p && coeff * (b * p) == right * p;
    assert (right + b) * p == right * p + b * p;
    assert (coeff + 1) * b == right + b;
    if left < right { MulLess(left, right, p); }
    if right < left { MulLess(right, left, p); }
    if right + b < left { MulLess(right + b, left, p); }
  }

  lemma MulLess(x: int, y: int, p: int)
    requires p > 0 && x < y
    ensures x * p < y * p
  {
  }

  /** A full coefficient cannot appear while `adjust` is still negative. */
  lemma FullMeansAdjusted(a: nat, adjust: int, lift: nat, coeff: nat, b: nat, dividend: nat)
    requires Identity(a, adjust + lift, coeff, b * Pow10(lift), dividend)
    requires a < coeff && b > 0
    ensures adjust >= 0
  {
    if adjust < 0 {
      Pow10Le(adjust + lift, lift);
      TooBig(a, coeff, b, Pow10(lift), Pow10(adjust + lift));
    }
  }

  lemma TooBig(a: nat, coeff: nat, b: nat, p: int, q: int)
    requires a < coeff && b > 0 && 0 < q <= p
    ensures a * q < coeff * (b * p)
  {
    assert p <= b * p;
    MulLess(a, coeff, q);
    assert coeff * q <= coeff * p <= coeff * (b * p);
  }

  /** Scale the operands until the first digit is between 1 and 9. */
  method Normalize(a: nat, b: nat) returns (dividend: nat, divisor: nat, adjust: int, ghost lift: nat)
    requires 0 < a && 0 < b
    ensures adjust + lift >= 0 && dividend == a * Pow10(adjust + lift) && divisor == b * Pow10(lift)
    ensures divisor <= dividend < 10 * divisor
  {
    dividend, divisor, adjust, lift := a, b, 0, 0;
    while dividend < divisor
      invariant 0 < dividend && adjust >= 0 && dividend == a * Pow10(adjust)
      invariant adjust > 0 ==> dividend < 10 * divisor
      decreases divisor - dividend
    {
      assert a * Pow10(adjust + 1) == 10 * (a * Pow10(adjust));
      dividend, adjust := dividend * 10, adjust + 1;
    }
    while dividend >= divisor * 10
      invariant divisor == b * Pow10(lift) && 0 < divisor <= dividend
      invariant adjust + lift >= 0 && dividend == a * Pow10(adjust + lift)
      decreases dividend - divisor
    {
      assert b * Pow10(lift + 1) == 10 * (b * Pow10(lift));
      divisor, adjust, lift := divisor * 10, adjust - 1, lift + 1;
    }
  }

  /** One digit, by repeated subtraction. */
  method NextDigit(dividend: nat, divisor: nat) returns (digit: nat, rest: nat)
    requires 0 < divisor && dividend < 10 * divisor
    ensures dividend == digit * divisor + rest && rest < divisor && digit <= 9
    ensures (divisor <= dividend ==> digit >= 1) && (digit == 0 ==> rest == dividend)
  {
    digit, rest := 0, dividend;
    while divisor <= rest
      invariant dividend == digit * divisor + rest
      decreases rest
    {
      assert (digit + 1) * divisor == digit * divisor + divisor;
      digit, rest := digit + 1, rest - divisor;
    }
    DigitBound(digit, divisor, rest);
  }

  /** `n` digits have been produced, and room made for the next one. */
  predicate HasDigits(n: nat, coeff: nat) { if n == 0 then coeff == 0 else Pow10(n) <= coeff <= Pow10(n + 1) - 10 }

  lemma CoefficientGrows(n: nat, coeff: nat, digit: nat)
    requires HasDigits(n, coeff) && coeff % 10 == 0 && digit <= 9 && (n == 0 ==> digit >= 1)
    ensures (digit > 0 ==> (coeff + digit) % 10 != 0) && 10 * (coeff + digit) % 10 == 0
    ensures Pow10(n) <= coeff + digit < Pow10(n + 1) && HasDigits(n + 1, 10 * (coeff + digit))
  {
    assert Pow10(n + 1) == 10 * Pow10(n) && Pow10(n + 2) == 10 * Pow10(n + 1);
  }

  lemma DigitBound(digit: nat, divisor: nat, rest: nat)
    requires digit * divisor + rest < 10 * divisor
    ensures digit <= 9
  {
    assert digit >= 10 ==> digit * divisor >= 10 * divisor;
  }

  /** The digit loop: it stops when nothing is left at a non-negative `adjust`, or with `precision` digits. */
  method LongDivision(a: nat, b: nat, precision: nat)
    returns (coeff: nat, adjust: int, divisor: nat, dividend: nat, ghost lift: nat)
    requires precision > 0 && 0 < a && 0 < b
    ensures divisor == b * Pow10(lift) && Identity(a, adjust + lift, coeff, divisor, dividend) && dividend < divisor
    ensures (dividend == 0 && adjust >= 0) || coeff >= Pow10(precision - 1)
    ensures coeff < Pow10(precision) && (adjust > 0 && dividend == 0 ==> coeff % 10 != 0)
  {
    dividend, divisor, adjust, lift := Normalize(a, b);
    coeff := 0;
    ghost var n: nat := 0;  // digits produced
    while true
      invariant Dividing(a, b, precision, n, coeff, adjust, lift, divisor, dividend)
      decreases precision - n
    {
      var digit, rest := NextDigit(dividend, divisor);
      IdentityDigit(a, adjust + lift, coeff, divisor, dividend, digit, rest);
      DigitStep(a, b, precision, n, coeff, adjust, lift, divisor, dividend, digit, rest);
      coeff, dividend, n := coeff + digit, rest, n + 1;
      if (dividend == 0 && adjust >= 0) || coeff >= Pow10(precision - 1) {
        break;
      }
      coeff, dividend, adjust := 10 * coeff, 10 * dividend, adjust + 1;
    }
  }

  /** Before a digit: `n` are out, the coefficient ends with room for the next one. */
  ghost predicate Dividing(
    a: nat, b: nat, precision: nat, n: nat, coeff: nat, adjust: int, lift: nat, divisor: nat, dividend: nat)
  {
    && 0 < divisor == b * Pow10(lift) && Identity(a, adjust + lift, coeff, divisor, dividend)
    && dividend < 10 * divisor && n < precision && coeff % 10 == 0
    && HasDigits(n, coeff) && (n == 0 ==> divisor <= dividend)
    && (adjust > 0 ==> dividend > 0)
  }

  lemma DigitStep(
    a: nat, b: nat, precision: nat, n: nat, coeff: nat, adjust: int, lift: nat, divisor: nat, dividend: nat,
    digit: nat, rest: nat)
    requires Dividing(a, b, precision, n, coeff, adjust, lift, divisor, dividend)
    requires Identity(a, adjust + lift, coeff + digit, divisor, rest) && rest < divisor && digit <= 9
    requires (divisor <= dividend ==> digit >= 1) && (digit == 0 ==> rest == dividend)
    ensures coeff + digit < Pow10(precision)
    ensures adjust > 0 && rest == 0 ==> (coeff + digit) % 10 != 0
    ensures (rest == 0 && adjust >= 0) || coeff + digit >= Pow10(precision - 1) ||
      Dividing(a, b, precision, n + 1, 10 * (coeff + digit), adjust + 1, lift, divisor, 10 * rest)
  {
    CoefficientGrows(n, coeff, digit);
    Pow10Le(n + 1, precision);
    if coeff + digit < Pow10(precision - 1) {
      IdentityShift(a, adjust + lift, coeff + digit, divisor, rest);
    }
  }

  /** The digits of a quotient, whether they are all of it, and whether rounding goes up. */
  method DivideDigits(a: nat, b: nat, precision: nat) returns (coeff: nat, adjust: int, exact: bool, up: bool)
    requires precision > 0 && 0 < a < Pow10(precision - 1) && 0 < b
    ensures adjust >= 0 && coeff < Pow10(precision)
    ensures exact ==> a * Pow10(adjust) == coeff * b && (adjust == 0 || coeff % 10 != 0)
    ensures !exact ==> coeff * b < a * Pow10(adjust) < (coeff + 1) * b && Pow10(precision - 1) <= coeff
  {
    var divisor, dividend;
    ghost var lift;
    coeff, adjust, divisor, dividend, lift := LongDivision(a, b, precision);
    if coeff >= Pow10(precision - 1) {
      FullMeansAdjusted(a, adjust, lift, coeff, b, dividend);
    }
    IdentityReduce(a, adjust, lift, coeff, b, dividend);
    exact := dividend == 0;
    up := 2 * dividend > divisor || (2 * dividend == divisor && coeff % 2 == 1);
  }

  // ---- exactness ------------------------------------------------------------------------------

  /** What an operand with at most `n` integral and `f` fractional digits can be. */
  ghost predicate Bounded(d: Decimal, n: nat, f: nat) {
    0 - f <= d.exp <= 0 && d.coeff < Pow10(n - d.exp)
  }

  lemma {:induction false} DigitsBound(n: nat, k: nat)
    requires k > 0
    ensures Digits(n) <= k <==> n < Pow10(k)
  {
    if k == 1 {
      assert Pow10(1) == 10 * Pow10(0);
    } else if n >= 10 {
      DigitsBound(n / 10, k - 1);
    } else {
      Pow10Le(1, k);
      assert Pow10(1) == 10 * Pow10(0);
    }
  }

  lemma MulBound(x: nat, y: nat, p: int, q: int)
    requires x < p && y < q
    ensures x * y < p * q
  {
    assert x * y <= x * q;
    MulLess(x, p, q);
  }

  lemma AlignBound(d: Decimal, exp: int, n: nat, f: nat)
    requires Bounded(d, n, f) && 0 - f <= exp <= d.exp
    ensures -Pow10(n + f) < Align(d, exp) < Pow10(n + f)
  {
    Pow10Add(n - d.exp, d.exp - exp);
    Pow10Le(n - exp, n + f);
    SignedBound(d, Pow10(n - d.exp), Pow10(d.exp - exp), Pow10(n + f));
  }

  lemma SignedBound(d: Decimal, p: int, q: int, bound: int)
    requires d.coeff < p && 0 < q && p * q <= bound
    ensures -bound < Signed(d) * q < bound
  {
    MulLess(d.coeff, p, q);
    assert (0 - d.coeff) * q == 0 - d.coeff * q;
    assert d.coeff * q >= 0;
  }

  /** A sum of operands fits a precision one digit above theirs, and is exact. */
  lemma AddExact(a: Decimal, b: Decimal, n: nat, f: nat, precision: nat)
    requires Bounded(a, n, f) && Bounded(b, n, f) && n + f + 1 <= precision
    ensures RoundedSum(a, b, precision) == Rounded(ExactSum(a, b), false)
    ensures ExactSum(a, b).coeff < Pow10(n + f + 1)
    ensures Equal(Value(ExactSum(a, b)), Plus(Value(a), Value(b)))
  {
    SumFits(a, b, n, f);
    Pow10Le(n + f + 1, precision);
    DigitsBound(ExactSum(a, b).coeff, precision);
    SumValue(a, b);
  }

  lemma SumFits(a: Decimal, b: Decimal, n: nat, f: nat)
    requires Bounded(a, n, f) && Bounded(b, n, f)
    ensures ExactSum(a, b).coeff < Pow10(n + f + 1)
  {
    AlignBound(a, Lower(a.exp, b.exp), n, f);
    AlignBound(b, Lower(a.exp, b.exp), n, f);
    assert Pow10(n + f + 1) == 10 * Pow10(n + f);
  }

  lemma SumValue(a: Decimal, b: Decimal)
    requires a.exp <= 0 && b.exp <= 0
    ensures Equal(Value(ExactSum(a, b)), Plus(Value(a), Value(b)))
  {
    var exp := Lower(a.exp, b.exp);
    Pow10Add(-a.exp, a.exp - exp);
    Pow10Add(-b.exp, b.exp - exp);
    assert Signed(ExactSum(a, b)) == Align(a, exp) + Align(b, exp);
    assert Pow10(0) == 1;
    CommonDenominator(Signed(a), Signed(b), Pow10(-a.exp), Pow10(-b.exp), Pow10(a.exp - exp), Pow10(b.exp - exp),
      Pow10(-exp));
  }

  lemma CommonDenominator(x: int, y: int, dx: int, dy: int, p: int, q: int, d: int)
    requires d == dx * p && d == dy * q
    ensures (x * p + y * q) * (dx * dy) == (x * dy + y * dx) * d
  {
    assert x * p * (dx * dy) == x * dy * (dx * p);
    assert y * q * (dx * dy) == y * dx * (dy * q);
    assert (x * p + y * q) * (dx * dy) == x * p * (dx * dy) + y * q * (dx * dy);
    assert (x * dy + y * dx) * d == x * dy * d + y * dx * d;
  }

  lemma SubtractExact(a: Decimal, b: Decimal, n: nat, f: nat, precision: nat)
    requires Bounded(a, n, f) && Bounded(b, n, f) && n + f + 1 <= precision
    ensures var d := ExactSum(a, b.(neg := !b.neg));
      && RoundedDifference(a, b, precision) == Rounded(d, false)
      && d.coeff < Pow10(n + f + 1)
      && Equal(Value(d), Minus(Value(a), Value(b)))
  {
    AddExact(a, b.(neg := !b.neg), n, f, precision);
    DifferenceValue(a, b);
  }

  lemma DifferenceValue(a: Decimal, b: Decimal)
    requires a.exp <= 0 && b.exp <= 0
    ensures Equal(Value(ExactSum(a, b.(neg := !b.neg))), Minus(Value(a), Value(b)))
  {
    var c := b.(neg := !b.neg);
    SumValue(a, c);
    NegatedValue(b);
    MinusIsPlus(Value(ExactSum(a, c)), Value(a), Value(b), Value(c));
  }

  lemma NegatedValue(b: Decimal)
    requires b.exp <= 0
    ensures Value(b.(neg := !b.neg)) == Rational(-Value(b).num, Value(b).den)
  {
    assert Pow10(0) == 1;
  }

  lemma MinusIsPlus(d: Rational, x: Rational, y: Rational, z: Rational)
    requires z == Rational(-y.num, y.den) && Equal(d, Plus(x, z))
    ensures Equal(d, Minus(x, y))
  {
    assert (-y.num) * x.den == -(y.num * x.den);
    assert Plus(x, z) == Minus(x, y);
  }

  /** A product of operands fits twice their digits, and is exact. */
  lemma MultiplyExact(a: Decimal, b: Decimal, n: nat, f: nat, precision: nat)
    requires Bounded(a, n, f) && Bounded(b, n, f) && 2 * (n + f) <= precision && n + f > 0
    ensures RoundedProduct(a, b, precision) == Rounded(ExactProduct(a, b), false)
    ensures ExactProduct(a, b).coeff < Pow10(2 * n - a.exp - b.exp)
    ensures Equal(Value(ExactProduct(a, b)), Times(Value(a), Value(b)))
  {
    ProductFits(a, b, n, f);
    Pow10Le(2 * n - a.exp - b.exp, precision);
    DigitsBound(ExactProduct(a, b).coeff, precision);
    ProductValue(a, b);
  }

  lemma ProductFits(a: Decimal, b: Decimal, n: nat, f: nat)
    requires Bounded(a, n, f) && Bounded(b, n, f)
    ensures ExactProduct(a, b).coeff < Pow10(2 * n - a.exp - b.exp)
  {
    MulBound(a.coeff, b.coeff, Pow10(n - a.exp), Pow10(n - b.exp));
    Pow10Add(n - a.exp, n - b.exp);
  }

  lemma ProductValue(a: Decimal, b: Decimal)
    requires a.exp <= 0 && b.exp <= 0
    ensures Value(ExactProduct(a, b)) == Times(Value(a), Value(b))
  {
    SignedProduct(a, b);
    Pow10Add(0 - a.exp, 0 - b.exp);
    ValueOfFraction(a);
    ValueOfFraction(b);
    ValueOfFraction(ExactProduct(a, b));
  }

  lemma ValueOfFraction(d: Decimal)
    requires d.exp <= 0
    ensures Value(d) == Rational(Signed(d), Pow10(0 - d.exp))
  {
    assert Pow10(0) == 1;
  }

  lemma SignedProduct(a: Decimal, b: Decimal)
    ensures Signed(ExactProduct(a, b)) == Signed(a) * Signed(b)
  {
    var x: int, y: int := a.coeff, b.coeff;
    assert (0 - x) * y == 0 - x * y && x * (0 - y) == 0 - x * y && (0 - x) * (0 - y) == x * y;
  }

  // ---- quotients ------------------------------------------------------------------------------

  /** `q` is a quotient of `a` by `b`, written with at most `precision` significant digits. */
  ghost predicate ShortQuotient(q: Decimal, a: Decimal, b: Decimal, precision: nat) {
    q.coeff < Pow10(precision) && Equal(Times(Value(q), Value(b)), Value(a))
  }

  ghost predicate HasShortQuotient(a: Decimal, b: Decimal, precision: nat) {
    exists q :: ShortQuotient(q, a, b, precision)
  }

  function Up(e: int): nat { if e >= 0 then e else 0 }

  /** The quotient equation in integers. */
  lemma QuotientEquation(q: Decimal, a: Decimal, b: Decimal)
    requires a.exp <= 0 && b.exp <= 0
    ensures Equal(Times(Value(q), Value(b)), Value(a)) <==>
      Signed(q) * Signed(b) * Pow10(Up(q.exp) - a.exp) == Signed(a) * Pow10(Up(0 - q.exp) - b.exp)
  {
    Pow10Add(Up(q.exp), -a.exp);
    Pow10Add(Up(0 - q.exp), -b.exp);
    assert Pow10(0) == 1;
    Regroup(Signed(q), Signed(b), Signed(a), Pow10(Up(q.exp)), Pow10(-a.exp), Pow10(Up(0 - q.exp)), Pow10(-b.exp));
  }

  lemma Regroup(q: int, b: int, a: int, up: int, da: int, dq: int, db: int)
    ensures (q * up) * b * da == q * b * (up * da)
    ensures a * (dq * db) == a * dq * db
  {
  }

  /**
   A bracketed quotient with a full coefficient has no shorter exact form: one with fewer digits
   would have to fall strictly between two multiples of `b`, or be too small.
   */
  lemma NoShortForm(a: nat, b: nat, coeff: nat, adjust: nat, precision: nat, c: nat, x: nat, y: nat)
    requires coeff * b < a * Pow10(adjust) < (coeff + 1) * b
    requires precision > 0 && Pow10(precision - 1) <= coeff && c < Pow10(precision) && b > 0
    ensures c * b * Pow10(x) != a * Pow10(y)
  {
    var m := a * Pow10(adjust);
    Pow10Add(x, adjust);
    if c * b * Pow10(x) == a * Pow10(y) {
      Exchange(a, Pow10(adjust), Pow10(y), c * b, Pow10(x));
      assert c * b * Pow10(x + adjust) == m * Pow10(y);
      if x + adjust >= y {
        var t := Pow10(x + adjust - y);
        Pow10Add(x + adjust - y, y);
        Between(c, t, coeff, b, m, Pow10(y));
      } else {
        var k := y - x - adjust;
        Pow10Add(k, x + adjust);
        assert Pow10(precision) == 10 * Pow10(precision - 1);
        assert Pow10(k) == 10 * Pow10(k - 1);
        TooShort(c, b, coeff, m, Pow10(k), Pow10(x + adjust));
      }
    }
  }

  lemma Exchange(a: int, pa: int, py: int, cb: int, px: int)
    requires cb * px == a * py
    ensures cb * (px * pa) == (a * pa) * py
  {
    assert cb * (px * pa) == (cb * px) * pa;
  }

  lemma Between(c: int, t: int, coeff: int, b: int, m: int, p: int)
    requires p > 0 && b > 0 && coeff * b < m < (coeff + 1) * b
    ensures c * b * (t * p) != m * p
  {
    var u := c * t;
    assert c * b * (t * p) == u * b * p;
    if u <= coeff {
      MulLe(u, coeff, b);
      MulLess(u * b, m, p);
    } else {
      MulLe(coeff + 1, u, b);
      MulLess(m, u * b, p);
    }
  }

  lemma TooShort(c: int, b: int, coeff: int, m: int, pk: int, p: int)
    requires p > 0 && b > 0 && pk >= 10 && 0 <= c < 10 * coeff && coeff * b < m
    ensures c * b * p != m * (pk * p)
  {
    assert m * (pk * p) == m * pk * p;
    MulLess(c, 10 * coeff, b);
    assert 10 * coeff * b == 10 * (coeff * b);
    assert coeff * b >= 0;
    MulLe(10, pk, m);
    MulLess(c * b, m * pk, p);
  }

  /** |d| > 10^k. */
  predicate Exceeds(d: Decimal, k: nat) {
    if d.exp >= 0 then d.coeff * Pow10(d.exp) > Pow10(k) else d.coeff > Pow10(k) * Pow10(-d.exp)
  }

  lemma WithinRange(d: Decimal, m: nat, k: nat)
    requires d.coeff <= Pow10(m) && m + d.exp <= k
    ensures !Exceeds(d, k)
  {
    if d.exp >= 0 {
      Pow10Add(m, d.exp);
      Pow10Le(m + d.exp, k);
      MulLe(d.coeff, Pow10(m), Pow10(d.exp));
    } else {
      Pow10Add(k, 0 - d.exp);
      Pow10Le(m, k - d.exp);
    }
  }

  lemma MulLe(x: int, y: int, p: int)
    requires p > 0 && x <= y
    ensures x * p <= y * p
  {
  }

  /**
   What `a / b` is: exact exactly when some quotient of at most `precision` digits exists, with
   trailing zeros removed down to the ideal exponent, and never out of the operands' range.
   */
  ghost predicate IsQuotient(r: Rounded, a: Decimal, b: Decimal, precision: nat, range: nat) {
    && (!r.inexact <==> HasShortQuotient(a, b, precision))
    && (!r.inexact ==>
          && ShortQuotient(r.value, a, b, precision)
          && r.value.neg == (a.neg != b.neg)
          && r.value.exp <= a.exp - b.exp
          && (r.value.exp == a.exp - b.exp || r.value.coeff % 10 != 0))
    && !Exceeds(r.value, range)
  }

  method RoundedQuotient(a: Decimal, b: Decimal, n: nat, f: nat, precision: nat) returns (r: Rounded)
    requires Bounded(a, n, f) && Bounded(b, n, f) && b.coeff != 0 && n + f < precision
    ensures IsQuotient(r, a, b, precision, n + f)
  {
    var neg := a.neg != b.neg;
    if a.coeff == 0 {
      r := Rounded(Decimal(neg, 0, a.exp - b.exp), false);
      ZeroCase(r, a, b, n, f, precision);
      return;
    }
    Pow10Le(n - a.exp, precision - 1);
    var coeff, adjust, exact, up := DivideDigits(a.coeff, b.coeff, precision);
    var exp := a.exp - b.exp - adjust;
    if exact {
      r := Rounded(Decimal(neg, coeff, exp), false);
      ExactCase(r, a, b, n, f, precision, adjust);
    } else {
      r := Rounded(RoundUp(neg, coeff, exp, up, precision), true);
      InexactCase(r, a, b, n, f, precision, coeff, adjust, up);
    }
  }

  lemma ZeroCase(r: Rounded, a: Decimal, b: Decimal, n: nat, f: nat, precision: nat)
    requires Bounded(a, n, f) && Bounded(b, n, f) && a.coeff == 0
    requires r == Rounded(Decimal(a.neg != b.neg, 0, a.exp - b.exp), false)
    ensures IsQuotient(r, a, b, precision, n + f)
  {
    ZeroQuotient(r.value, a, b);
    Pow10Le(0, precision);
    WithinRange(r.value, 0, n + f);
    assert ShortQuotient(r.value, a, b, precision);
  }

  lemma ExactCase(r: Rounded, a: Decimal, b: Decimal, n: nat, f: nat, precision: nat, adjust: nat)
    requires Bounded(a, n, f) && Bounded(b, n, f) && b.coeff > 0
    requires !r.inexact && r.value.neg == (a.neg != b.neg) && r.value.exp == a.exp - b.exp - adjust
    requires r.value.coeff < Pow10(precision) && a.coeff * Pow10(adjust) == r.value.coeff * b.coeff
    requires adjust == 0 || r.value.coeff % 10 != 0
    ensures IsQuotient(r, a, b, precision, n + f)
  {
    assert !Exceeds(r.value, n + f) by {
      CoefficientBound(a, b, n, r.value.coeff, adjust);
      WithinRange(r.value, n - a.exp + adjust, n + f);
    }
    assert ShortQuotient(r.value, a, b, precision) by {
      ExactQuotient(r.value, a, b, adjust);
    }
  }

  lemma InexactCase(r: Rounded, a: Decimal, b: Decimal, n: nat, f: nat, precision: nat, coeff: nat, adjust: nat,
      up: bool)
    requires Bounded(a, n, f) && Bounded(b, n, f) && b.coeff > 0 && precision > 0
    requires r == Rounded(RoundUp(a.neg != b.neg, coeff, a.exp - b.exp - adjust, up, precision), true)
    requires coeff * b.coeff < a.coeff * Pow10(adjust) < (coeff + 1) * b.coeff && Pow10(precision - 1) <= coeff
    ensures IsQuotient(r, a, b, precision, n + f)
  {
    NoShortQuotients(a, b, coeff, adjust, precision);
    CoefficientBound(a, b, n, coeff, adjust);
    RoundedRange(a.neg != b.neg, coeff, a.exp - b.exp - adjust, up, precision, n - a.exp + adjust, n + f);
  }

  lemma ZeroQuotient(q: Decimal, a: Decimal, b: Decimal)
    requires q.coeff == 0 && a.coeff == 0
    ensures Equal(Times(Value(q), Value(b)), Value(a))
  {
    assert Value(q).num == 0 && Value(a).num == 0 by {
      assert 0 * Pow10(Up(q.exp)) == 0 && 0 * Pow10(Up(a.exp)) == 0;
    }
    assert Times(Value(q), Value(b)).num == 0 by { assert 0 * Value(b).num == 0; }
    assert 0 * Value(a).den == 0 && 0 * Times(Value(q), Value(b)).den == 0;
  }

  /** The truncated quotient, and one more when it is not exact, stay below the dividend's bound. */
  lemma CoefficientBound(a: Decimal, b: Decimal, n: nat, coeff: nat, adjust: nat)
    requires a.exp <= 0 && a.coeff < Pow10(n - a.exp) && b.coeff > 0
    requires coeff * b.coeff <= a.coeff * Pow10(adjust)
    ensures coeff <= Pow10(n - a.exp + adjust)
    ensures coeff * b.coeff < a.coeff * Pow10(adjust) ==> coeff + 1 <= Pow10(n - a.exp + adjust)
  {
    Pow10Add(n - a.exp, adjust);
    MulLess(a.coeff, Pow10(n - a.exp), Pow10(adjust));
    assert coeff <= coeff * b.coeff;
  }

  lemma RoundedRange(neg: bool, coeff: nat, exp: int, up: bool, precision: nat, m: nat, k: nat)
    requires precision > 0 && coeff + 1 <= Pow10(m) && m + exp <= k
    ensures !Exceeds(RoundUp(neg, coeff, exp, up, precision), k)
  {
    var d := RoundUp(neg, coeff, exp, up, precision);
    if up && coeff + 1 == Pow10(precision) {
      Pow10Less(m, precision);
      WithinRange(d, precision - 1, k);
    } else {
      WithinRange(d, m, k);
    }
  }

  lemma ExactQuotient(q: Decimal, a: Decimal, b: Decimal, adjust: nat)
    requires a.exp <= 0 && b.exp <= 0
    requires q.neg == (a.neg != b.neg) && q.exp == a.exp - b.exp - adjust
    requires a.coeff * Pow10(adjust) == q.coeff * b.coeff
    ensures Equal(Times(Value(q), Value(b)), Value(a))
  {
    QuotientEquation(q, a, b);
    SignedProduct(q, b);
    var c: int := q.coeff * b.coeff;
    var x, y := Up(q.exp) - a.exp, Up(0 - q.exp) - b.exp;
    Pow10Add(adjust, x);
    assert y == x + adjust;
    Ratio(a.coeff, Pow10(adjust), c, Pow10(x), Pow10(y));
    assert Signed(q) * Signed(b) == if a.neg then 0 - c else c;
  }

  lemma Ratio(a: int, p: int, c: int, px: int, py: int)
    requires a * p == c && py == p * px
    ensures c * px == a * py && (0 - c) * px == (0 - a) * py
  {
    assert a * p * px == a * (p * px);
  }

  lemma NoShortQuotient(q: Decimal, a: Decimal, b: Decimal, coeff: nat, adjust: nat, precision: nat)
    requires a.exp <= 0 && b.exp <= 0 && precision > 0 && b.coeff > 0
    requires coeff * b.coeff < a.coeff * Pow10(adjust) < (coeff + 1) * b.coeff && Pow10(precision - 1) <= coeff
    ensures !ShortQuotient(q, a, b, precision)
  {
    if q.coeff < Pow10(precision) {
      var x, y := Up(q.exp) - a.exp, Up(0 - q.exp) - b.exp;
      QuotientEquation(q, a, b);
      NoShortForm(a.coeff, b.coeff, coeff, adjust, precision, q.coeff, x, y);
      SignedProduct(q, b);
      Absolute(Signed(q) * Signed(b), q.coeff * b.coeff, Pow10(x), Signed(a), a.coeff, Pow10(y));
    }
  }

  lemma NoShortQuotients(a: Decimal, b: Decimal, coeff: nat, adjust: nat, precision: nat)
    requires a.exp <= 0 && b.exp <= 0 && precision > 0 && b.coeff > 0
    requires coeff * b.coeff < a.coeff * Pow10(adjust) < (coeff + 1) * b.coeff && Pow10(precision - 1) <= coeff
    ensures !HasShortQuotient(a, b, precision)
  {
    forall q ensures !ShortQuotient(q, a, b, precision) {
      NoShortQuotient(q, a, b, coeff, adjust, precision);
    }
  }

  lemma Absolute(c: int, cc: nat, x: int, a: int, aa: nat, y: int)
    requires (c == cc || c == 0 - cc) && (a == aa || a == 0 - aa) && x > 0 && y > 0
    requires cc * x != aa * y
    ensures c * x != a * y
  {
    assert (0 - cc) * x == 0 - cc * x && (0 - aa) * y == 0 - aa * y;
    assert cc * x >= 0 && aa * y >= 0;
  }
}
