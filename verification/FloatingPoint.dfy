/** Binary floating-point numbers as reals: which reals a format holds, and how a real is rounded to it. */
module FloatingPoint {
  import opened Wrappers

  /** The numbers m * 2^e with |m| < 2^digits and least <= e <= most. */
  datatype Format = Format(digits: nat, least: int, most: int)

  const SINGLE := Format(24, -149, 104)
  const DOUBLE := Format(53, -1074, 971)

  predicate Sensible(f: Format) { f.digits >= 1 && f.least <= 0 <= f.most }

  function Abs(x: real): real { if x < 0.0 then -x else x }

  // ---------------------------------------------------------------- powers and multiples

  function Pow2(e: int): (p: real)
    ensures p > 0.0
    decreases if e < 0 then -e else e
  {
    if e == 0 then 1.0 else if e > 0 then 2.0 * Pow2(e - 1) else Pow2(e + 1) / 2.0
  }

  lemma PowNext(e: int)
    ensures Pow2(e + 1) == 2.0 * Pow2(e)
  {
  }

  lemma {:induction false} PowGrows(e: int, e': int)
    requires e <= e'
    ensures Pow2(e) <= Pow2(e')
    decreases e' - e
  {
    if e == e' {
    } else {
      PowGrows(e, e' - 1);
      PowNext(e' - 1);
    }
  }

  function TwoTo(n: nat): (k: int)
    ensures k >= 1
  {
    if n == 0 then 1 else 2 * TwoTo(n - 1)
  }

  /** m times p, as a sum: all that is needed of it is linear. */
  function Times(m: int, p: real): real
    decreases if m < 0 then -m else m, p
  {
    if m == 0 then 0.0 else if m > 0 then Times(m - 1, p) + p else Times(m + 1, p) - p
  }

  lemma {:induction false} TimesProduct(m: int, p: real)
    ensures Times(m, p) == m as real * p
    decreases if m < 0 then -m else m
  {
    if m > 0 {
      TimesProduct(m - 1, p);
      assert m as real * p == (m - 1) as real * p + p;
    } else if m < 0 {
      TimesProduct(m + 1, p);
      assert m as real * p == (m + 1) as real * p - p;
    }
  }

  lemma TimesNegated(m: int, p: real)
    ensures Times(-m, p) == -Times(m, p)
  {
    TimesProduct(m, p);
    TimesProduct(-m, p);
    assert (-m) as real * p == -(m as real * p);
  }

  lemma TimesDoubled(k: int, p: real)
    ensures Times(2 * k, p) == Times(k, 2.0 * p)
  {
    TimesProduct(2 * k, p);
    TimesProduct(k, 2.0 * p);
    assert (2 * k) as real * p == k as real * (2.0 * p);
  }

  /** Different multiples are at least p apart. */
  lemma {:induction false} TimesApart(a: int, b: int, p: real)
    requires p > 0.0 && a < b
    ensures Times(a, p) + p <= Times(b, p)
    decreases b - a
  {
    TimesNext(b - 1, p);
    if a < b - 1 {
      TimesApart(a, b - 1, p);
    }
  }

  lemma TimesNext(m: int, p: real)
    ensures Times(m + 1, p) == Times(m, p) + p
  {
    TimesProduct(m, p);
    TimesProduct(m + 1, p);
    assert (m + 1) as real * p == m as real * p + p;
  }

  /** A step up in exponent is a factor of two in the significand. */
  lemma {:induction false} Lowered(k: int, e: int, n: nat)
    ensures Times(k, Pow2(e + n)) == Times(k * TwoTo(n), Pow2(e))
    decreases n
  {
    if n == 0 {
    } else {
      PowNext(e + n - 1);
      TimesDoubled(k, Pow2(e + n - 1));
      Lowered(2 * k, e, n - 1);
      assert 2 * k * TwoTo(n - 1) == k * TwoTo(n);
    }
  }

  // ---------------------------------------------------------------- what a format holds

  ghost predicate IsScaled(f: Format, x: real, m: int, e: int) {
    f.least <= e <= f.most && -TwoTo(f.digits) < m < TwoTo(f.digits) && x == Times(m, Pow2(e))
  }

  ghost predicate Representable(f: Format, x: real) {
    exists m, e :: IsScaled(f, x, m, e)
  }

  /** Everything below 2^digits * 2^e in magnitude fits the exponent e. */
  function Bound(f: Format, e: int): real { Pow2(e + f.digits) }

  lemma BoundTimes(f: Format, e: int)
    ensures Bound(f, e) == Times(TwoTo(f.digits), Pow2(e))
  {
    Lowered(1, e, f.digits);
    TimesProduct(1, Pow2(e + f.digits));
    assert 1 * TwoTo(f.digits) == TwoTo(f.digits);
  }

  lemma BoundNext(f: Format, e: int)
    ensures Bound(f, e + 1) == 2.0 * Bound(f, e)
  {
    PowNext(e + f.digits);
  }

  lemma BoundGrows(f: Format, e: int, e': int)
    requires e <= e'
    ensures Bound(f, e) <= Bound(f, e')
  {
    PowGrows(e + f.digits, e' + f.digits);
  }

  // ---------------------------------------------------------------- rounding

  /** The nearest integer, and of two the even one. */
  function HalfEven(q: real): (m: int)
    ensures -0.5 <= m as real - q <= 0.5
  {
    var n := q.Floor;
    var part := q - n as real;
    if part < 0.5 then n else if part > 0.5 then n + 1 else if n % 2 == 0 then n else n + 1
  }

  /** From e on upwards, the first exponent that x fits, or one too many. */
  function ExponentUp(f: Format, x: real, e: int): (r: int)
    requires e <= f.most + 1
    ensures e <= r <= f.most + 1
    ensures r <= f.most ==> Abs(x) < Bound(f, r)
    ensures e < r ==> Abs(x) >= Bound(f, r - 1)
    decreases f.most + 1 - e, x
  {
    if e > f.most || Abs(x) < Bound(f, e) then e else ExponentUp(f, x, e + 1)
  }

  /** From e on downwards, the last exponent that x fits. */
  function ExponentDown(f: Format, x: real, e: int): (r: int)
    requires f.least <= e && Abs(x) < Bound(f, e)
    ensures f.least <= r <= e && Abs(x) < Bound(f, r)
    ensures f.least < r ==> Abs(x) >= Bound(f, r - 1)
    decreases e - f.least, x
  {
    if e == f.least || Abs(x) >= Bound(f, e - 1) then e else ExponentDown(f, x, e - 1)
  }

  /** The least exponent that x fits, or one too many. */
  function Exponent(f: Format, x: real): (e: int)
    requires Sensible(f)
    ensures f.least <= e <= f.most + 1
    ensures e <= f.most ==> Abs(x) < Bound(f, e)
    ensures f.least < e ==> Abs(x) >= Bound(f, e - 1)
  {
    if Abs(x) < Bound(f, 0) then ExponentDown(f, x, 0) else ExponentUp(f, x, 1)
  }

  function Significand(x: real, e: int): int { HalfEven(x / Pow2(e)) }

  /** The significand has a digit too many for the largest exponent. */
  predicate TooLarge(f: Format, m: int, e: int) {
    e == f.most && (m == TwoTo(f.digits) || m == -TwoTo(f.digits))
  }

  /** Rounding to nearest, ties to even; None where the result is beyond the largest number of the format. */
  function Round(f: Format, x: real): Option<real>
    requires Sensible(f)
  {
    var e := Exponent(f, x);
    if e > f.most then None
    else
      var m := Significand(x, e);
      if TooLarge(f, m, e) then None else Some(Times(m, Pow2(e)))
  }

  // ---------------------------------------------------------------- rounding is right

  /** The multiple that rounding picks is at most half a step away. */
  lemma WithinHalf(x: real, e: int)
    ensures -Pow2(e) / 2.0 <= Times(Significand(x, e), Pow2(e)) - x <= Pow2(e) / 2.0
  {
    var m, p := Significand(x, e), Pow2(e);
    TimesProduct(m, p);
    Quotient(x, p, m as real);
  }

  lemma Quotient(x: real, p: real, m: real)
    requires p > 0.0 && -0.5 <= m - x / p <= 0.5
    ensures -p / 2.0 <= m * p - x <= p / 2.0
  {
    var d := m - x / p;
    assert m * p - x == d * p;
    assert -0.5 * p <= d * p <= 0.5 * p;
  }

  lemma MultipleRoundsToItself(n: int, e: int)
    ensures Significand(Times(n, Pow2(e)), e) == n
  {
    TimesProduct(n, Pow2(e));
    QuotientOfProduct(n as real, Pow2(e));
    HalfEvenInteger(n);
  }

  lemma QuotientOfProduct(n: real, p: real)
    requires p > 0.0
    ensures (n * p) / p == n
  {
  }

  lemma HalfEvenInteger(n: int)
    ensures HalfEven(n as real) == n
  {
  }

  /** Among the multiples of a power none is nearer. */
  lemma NearestMultiple(x: real, e: int, k: int)
    ensures Abs(Times(Significand(x, e), Pow2(e)) - x) <= Abs(Times(k, Pow2(e)) - x)
  {
    WithinHalf(x, e);
    var m := Significand(x, e);
    if k < m {
      TimesApart(k, m, Pow2(e));
    } else if m < k {
      TimesApart(m, k, Pow2(e));
    }
  }

  /** The significand has at most one digit too many, and then it is a power of two. */
  lemma SignificandFits(f: Format, x: real, e: int)
    requires Abs(x) < Bound(f, e)
    ensures -TwoTo(f.digits) <= Significand(x, e) <= TwoTo(f.digits)
  {
    var m, t := Significand(x, e), TwoTo(f.digits);
    WithinHalf(x, e);
    BoundTimes(f, e);
    TimesNegated(t, Pow2(e));
    if m > t {
      TimesApart(t, m, Pow2(e));
    } else if m < -t {
      TimesApart(m, -t, Pow2(e));
    }
  }

  /** 2^digits * 2^e is a number of the format when there is a larger exponent. */
  lemma Carried(f: Format, m: int, e: int)
    requires Sensible(f) && f.least <= e < f.most && (m == TwoTo(f.digits) || m == -TwoTo(f.digits))
    ensures Representable(f, Times(m, Pow2(e)))
  {
    var half := TwoTo(f.digits - 1);
    var k := if m > 0 then half else -half;
    assert m == 2 * k;
    PowNext(e);
    TimesDoubled(k, Pow2(e));
    assert IsScaled(f, Times(m, Pow2(e)), k, e + 1);
  }

  lemma FitsOrCarries(f: Format, m: int, e: int)
    requires Sensible(f) && f.least <= e <= f.most && -TwoTo(f.digits) <= m <= TwoTo(f.digits) && !TooLarge(f, m, e)
    ensures Representable(f, Times(m, Pow2(e)))
  {
    if -TwoTo(f.digits) < m < TwoTo(f.digits) {
      assert IsScaled(f, Times(m, Pow2(e)), m, e);
    } else {
      Carried(f, m, e);
    }
  }

  /** What rounding gives is a number of the format. */
  lemma RoundedIsRepresentable(f: Format, x: real)
    requires Sensible(f) && Round(f, x).Some?
    ensures Representable(f, Round(f, x).value)
  {
    SignificandFits(f, x, Exponent(f, x));
    FitsOrCarries(f, Significand(x, Exponent(f, x)), Exponent(f, x));
  }

  /** A number of the format fits every exponent that it can be written with. */
  lemma FitsOwnExponent(f: Format, x: real, m: int, e: int)
    requires Sensible(f) && IsScaled(f, x, m, e)
    ensures Exponent(f, x) <= e && Abs(x) < Bound(f, e)
  {
    var t := TwoTo(f.digits);
    TimesApart(m, t, Pow2(e));
    TimesApart(-t, m, Pow2(e));
    TimesNegated(t, Pow2(e));
    BoundTimes(f, e);
    if Exponent(f, x) > e {
      BoundGrows(f, e, Exponent(f, x) - 1);
    }
  }

  /** A number of the format is left as it is. */
  lemma RepresentableStays(f: Format, x: real)
    requires Sensible(f) && Representable(f, x)
    ensures Round(f, x) == Some(x)
  {
    var m, e :| IsScaled(f, x, m, e);
    FitsOwnExponent(f, x, m, e);
    var least := Exponent(f, x);
    Lowered(m, least, e - least);
    MultipleRoundsToItself(m * TwoTo(e - least), least);
    NotTooLarge(f, x, m * TwoTo(e - least), least);
  }

  lemma NotTooLarge(f: Format, x: real, m: int, e: int)
    requires x == Times(m, Pow2(e)) && Abs(x) < Bound(f, e)
    ensures !TooLarge(f, m, e)
  {
    BoundTimes(f, e);
    TimesNegated(TwoTo(f.digits), Pow2(e));
  }

  /** Rounding changes nothing exactly for the numbers of the format. */
  lemma RoundKeepsIff(f: Format, x: real)
    requires Sensible(f)
    ensures Round(f, x) == Some(x) <==> Representable(f, x)
  {
    if Round(f, x) == Some(x) {
      RoundedIsRepresentable(f, x);
    }
    if Representable(f, x) {
      RepresentableStays(f, x);
    }
  }

  /** No number of the format is nearer. */
  lemma RoundedIsNearest(f: Format, x: real, y: real)
    requires Sensible(f) && Round(f, x).Some? && Representable(f, y)
    ensures Abs(Round(f, x).value - x) <= Abs(y - x)
  {
    var k, g :| IsScaled(f, y, k, g);
    var e := Exponent(f, x);
    if e <= g {
      Lowered(k, e, g - e);
      NearestMultiple(x, e, k * TwoTo(g - e));
    } else {
      FitsOwnExponent(f, y, k, g);
      BoundGrows(f, g, e - 1);
      Between(f, x, y, e);
    }
  }

  /** The bound below the range of x lies between x and what is smaller, and it is a multiple of 2^e. */
  lemma Between(f: Format, x: real, y: real, e: int)
    requires Sensible(f) && Abs(y) < Bound(f, e - 1) <= Abs(x)
    ensures Abs(Times(Significand(x, e), Pow2(e)) - x) <= Abs(y - x)
  {
    var half := TwoTo(f.digits - 1);
    PowNext(e - 1);
    BoundTimes(f, e - 1);
    TimesDoubled(half, Pow2(e - 1));
    TimesNegated(half, Pow2(e));
    NearestMultiple(x, e, if x < 0.0 then -half else half);
  }

  // ---------------------------------------------------------------- overflow

  /** Where rounding goes beyond the largest number: half a step below 2^digits * 2^most. */
  function Overflow(f: Format): real { Bound(f, f.most) - Pow2(f.most) / 2.0 }

  /** From half a step below an even number on, that number is the nearest. */
  lemma RoundsUpToEven(q: real, t: int)
    requires t % 2 == 0
    ensures t as real - 0.5 <= q < t as real ==> HalfEven(q) == t
    ensures -(t as real) < q <= 0.5 - t as real ==> HalfEven(q) == -t
  {
    if t as real - 0.5 <= q < t as real {
      assert q.Floor == t - 1;
    }
    if -(t as real) < q <= 0.5 - t as real {
      assert q.Floor == -t;
    }
  }

  lemma TopQuotient(x: real, p: real, t: int)
    requires p > 0.0
    ensures Times(t, p) - p / 2.0 <= x < Times(t, p) ==> t as real - 0.5 <= x / p < t as real
    ensures -Times(t, p) < x <= p / 2.0 - Times(t, p) ==> -(t as real) < x / p <= 0.5 - t as real
  {
    TimesProduct(t, p);
    HalfStep(t as real, p);
    CompareQuotient(x, p, t as real - 0.5);
    CompareQuotient(x, p, t as real);
    CompareQuotient(x, p, -(t as real));
    CompareQuotient(x, p, 0.5 - t as real);
  }

  lemma HalfStep(t: real, p: real)
    ensures (t - 0.5) * p == t * p - p / 2.0 && -t * p == -(t * p) && (0.5 - t) * p == p / 2.0 - t * p
  {
  }

  lemma CompareQuotient(x: real, p: real, c: real)
    requires p > 0.0
    ensures c <= x / p <==> c * p <= x
    ensures c >= x / p <==> c * p >= x
  {
    var q := x / p;
    assert x == q * p;
    if c < q {
      assert (q - c) * p > 0.0;
    } else if c > q {
      assert (c - q) * p > 0.0;
    }
  }

  lemma OverflowAtTop(f: Format, x: real)
    requires Sensible(f) && Abs(x) < Bound(f, f.most)
    ensures TooLarge(f, Significand(x, f.most), f.most) <==> Abs(x) >= Overflow(f)
  {
    var t, p := TwoTo(f.digits), Pow2(f.most);
    BoundTimes(f, f.most);
    TopQuotient(x, p, t);
    assert t == 2 * TwoTo(f.digits - 1);
    RoundsUpToEven(x / p, t);
    WithinHalf(x, f.most);
    TimesNegated(t, p);
  }

  /** Rounding fails exactly from that point on. */
  lemma OverflowIff(f: Format, x: real)
    requires Sensible(f)
    ensures Round(f, x).None? <==> Abs(x) >= Overflow(f)
  {
    var e := Exponent(f, x);
    if e < f.most {
      BoundGrows(f, e, f.most - 1);
      BoundNext(f, f.most - 1);
      PowGrows(f.most, f.most + f.digits - 1);
    } else if e == f.most {
      OverflowAtTop(f, x);
    }
  }
}
