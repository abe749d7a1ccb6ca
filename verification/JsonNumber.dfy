/** JSON numbers: each is stored in one of the arithmetic types, and may be asked for as another one. */
module JsonNumber {
  import opened Wrappers
  import opened FloatingPoint

  datatype IntType = U8 | U16 | U32 | U64 | I8 | I16 | I32 | I64

  datatype NumberType = Integer(t: IntType) | Float | Double

  /** A floating-point value; the two zeros are not told apart. */
  datatype Floating = Finite(r: real) | Infinite(negative: bool) | NotANumber

  /** A number in the type it is stored as. */
  datatype Numeric = Whole(t: IntType, n: int) | InFloat(x: Floating) | InDouble(x: Floating)

  /** How reading a number can end apart from a value or an error. */
  datatype Fault =
    | FloatAskedAsDouble    // the program is stopped: the source takes this case to be unreachable
    | NaNAskedAsInteger     // undefined behaviour: a NaN is converted to an integer type

  datatype Casting = Gives(v: Numeric) | Refused | Faults(fault: Fault)

  function Signed(t: IntType): bool { t.I8? || t.I16? || t.I32? || t.I64? }

  function Max(t: IntType): int {
    match t
    case U8 => 0xFF case U16 => 0xFFFF case U32 => 0xFFFF_FFFF case U64 => 0xFFFF_FFFF_FFFF_FFFF
    case I8 => 0x7F case I16 => 0x7FFF case I32 => 0x7FFF_FFFF case I64 => 0x7FFF_FFFF_FFFF_FFFF
  }

  function Min(t: IntType): int { if Signed(t) then -Max(t) - 1 else 0 }

  predicate InRange(t: IntType, n: int) { Min(t) <= n <= Max(t) }

  const FLOAT_INTEGERS := 0x100_0000  // 2^24
  const DOUBLE_INTEGERS := 0x20_0000_0000_0000  // 2^53

  /** Every value of the one integer type is one of the other (`IsInputTypeContainedInOutputType`). */
  predicate Contained(from: IntType, to: IntType) {
    from == to || (if Signed(from) && !Signed(to) then false else Max(to) > Max(from))
  }

  predicate ContainedInFloating(from: IntType, integers: int) {
    -integers <= Min(from) && Max(from) <= integers
  }

  /** A floating-point number read as an integer: within both ranges, and without a fraction. */
  function FloatingToInteger(x: Floating, integers: int, to: IntType): Casting {
    var most := if integers < Max(to) then integers else Max(to);
    var least := if -integers > Min(to) then -integers else Min(to);
    match x
    case Finite(r) =>
      if least as real <= r <= most as real && r.Floor as real == r then Gives(Whole(to, r.Floor)) else Refused
    case Infinite(_) => Refused
    case NotANumber => Faults(NaNAskedAsInteger)
  }

  /** A double as float: rounded, and refused only if a finite number would become infinite. */
  function DoubleToFloat(x: Floating): Casting {
    match x
    case Finite(r) => (match Round(SINGLE, r) case Some(y) => Gives(InFloat(Finite(y))) case None => Refused)
    case _ => Gives(InFloat(x))
  }

  /** `TryLosslessCast` to an arithmetic type. */
  function Cast(to: NumberType, v: Numeric): Casting {
    match (to, v)
    case (Integer(t), Whole(from, n)) =>
      if Contained(from, t) then Gives(Whole(t, n))
      else if Signed(t) && !Signed(from) && Max(t) >= n then Gives(Whole(t, n))
      else Refused
    case (Integer(t), InFloat(x)) => FloatingToInteger(x, FLOAT_INTEGERS, t)
    case (Integer(t), InDouble(x)) => FloatingToInteger(x, DOUBLE_INTEGERS, t)
    case (Float, Whole(from, n)) =>
      if ContainedInFloating(from, FLOAT_INTEGERS) then Gives(InFloat(Finite(n as real))) else Refused
    case (Double, Whole(from, n)) =>
      if ContainedInFloating(from, DOUBLE_INTEGERS) then Gives(InDouble(Finite(n as real))) else Refused
    case (Float, InFloat(x)) => Gives(InFloat(x))
    case (Double, InDouble(x)) => Gives(InDouble(x))
    case (Double, InFloat(x)) => Faults(FloatAskedAsDouble)
    case (Float, InDouble(x)) => DoubleToFloat(x)
  }

  /** `TryLosslessCast` to bool. */
  function CastToBool(v: Numeric): Option<bool> {
    var x := Amount(v);
    if x == Finite(0.0) then Some(false) else if x == Finite(1.0) then Some(true) else None
  }

  /** The number itself, whatever it is stored as. */
  function Amount(v: Numeric): Floating { if v.Whole? then Finite(v.n as real) else v.x }

  ghost predicate IsOne(f: Format, x: Floating) { x.Finite? ==> Representable(f, x.r) }

  /** The value is one of its type. */
  ghost predicate Proper(v: Numeric) {
    match v
    case Whole(t, n) => InRange(t, n)
    case InFloat(x) => IsOne(SINGLE, x)
    case InDouble(x) => IsOne(DOUBLE, x)
  }

  predicate OfType(n: Numeric, t: NumberType) {
    match t
    case Integer(it) => n.Whole? && n.t == it
    case Float => n.InFloat?
    case Double => n.InDouble?
  }

  // ---------------------------------------------------------------- what casts keep

  /** A finite double that is no float. */
  ghost predicate Rounds(to: NumberType, v: Numeric) {
    to.Float? && v.InDouble? && v.x.Finite? && !Representable(SINGLE, v.x.r)
  }

  /** A cast faults exactly when a float is asked for as double or a NaN as an integer. */
  lemma FaultIff(to: NumberType, v: Numeric)
    ensures Cast(to, v).Faults? <==> (to.Double? && v.InFloat?) || (to.Integer? && !v.Whole? && v.x.NotANumber?)
  {
  }

  /** A cast that succeeds gives the type asked for, and the same amount unless it rounds a double to float. */
  lemma CastKeepsAmountIff(to: NumberType, v: Numeric)
    requires Proper(v) && Cast(to, v).Gives?
    ensures OfType(Cast(to, v).v, to) && Proper(Cast(to, v).v)
    ensures Amount(Cast(to, v).v) == Amount(v) <==> !Rounds(to, v)
  {
    if v.Whole? && to.Integer? && Contained(v.t, to.t) {
      ContainedMeansInRange(v.t, to.t, v.n);
    } else if v.Whole? && !to.Integer? {
      SmallInteger(v.n);
    } else if to.Float? && v.InDouble? && v.x.Finite? {
      RoundKeepsIff(SINGLE, v.x.r);
      RoundedIsRepresentable(SINGLE, v.x.r);
    }
  }

  function Bits(t: IntType): nat {
    match t
    case U8 => 8 case I8 => 8
    case U16 => 16 case I16 => 16
    case U32 => 32 case I32 => 32
    case U64 => 64 case I64 => 64
  }

  /** Every value of the one type is a value of the other. */
  ghost predicate Within(from: IntType, to: IntType) {
    forall n :: InRange(from, n) ==> InRange(to, n)
  }

  lemma WithinIff(from: IntType, to: IntType)
    ensures Within(from, to) <==> Min(to) <= Min(from) && Max(from) <= Max(to)
  {
    assert InRange(from, Min(from)) && InRange(from, Max(from));
  }

  /**
   An integer is given as an integer type exactly if all values of its own type are values of that one, or if it is
   stored without a sign, asked for with one, and in range.
   */
  lemma IntegerGivenIff(from: IntType, n: int, t: IntType)
    requires InRange(from, n)
    ensures Cast(Integer(t), Whole(from, n)) ==
      if Within(from, t) || (!Signed(from) && Signed(t) && InRange(t, n)) then Gives(Whole(t, n)) else Refused
  {
    WithinIff(from, t);
  }

  /** An integer is given as a floating-point number exactly if its type is narrow enough, whatever its value. */
  lemma FloatingGivenIff(from: IntType, n: int)
    ensures Cast(Double, Whole(from, n)) == if Bits(from) <= 32 then Gives(InDouble(Finite(n as real))) else Refused
    ensures Cast(Float, Whole(from, n)) == if Bits(from) <= 16 then Gives(InFloat(Finite(n as real))) else Refused
  {
  }

  /** The real is an integer of the type, and at most `limit` from nought. */
  ghost predicate IsInteger(r: real, limit: int, t: IntType) {
    exists n :: r == n as real && InRange(t, n) && -limit <= n <= limit
  }

  lemma IsIntegerIff(r: real, limit: int, t: IntType)
    ensures IsInteger(r, limit, t) <==> r == r.Floor as real && InRange(t, r.Floor) && -limit <= r.Floor <= limit
  {
  }

  /**
   A floating-point number is given as an integer exactly if it is one of the type, and at most 2^53 from nought, or
   2^24 if it is a float; and then as that integer.
   */
  lemma WholeGivenIff(x: Floating, t: IntType)
    requires !x.NotANumber?
    ensures Cast(Integer(t), InDouble(x)) ==
      if x.Finite? && IsInteger(x.r, 0x20_0000_0000_0000, t) then Gives(Whole(t, x.r.Floor)) else Refused
    ensures Cast(Integer(t), InFloat(x)) ==
      if x.Finite? && IsInteger(x.r, 0x100_0000, t) then Gives(Whole(t, x.r.Floor)) else Refused
  {
    if x.Finite? {
      IsIntegerIff(x.r, 0x20_0000_0000_0000, t);
      IsIntegerIff(x.r, 0x100_0000, t);
    }
  }

  /** The same types, and the infinities, are never refused. */
  lemma SameTypeGiven(x: Floating)
    ensures Cast(Float, InFloat(x)) == Gives(InFloat(x)) && Cast(Double, InDouble(x)) == Gives(InDouble(x))
    ensures !x.Finite? ==> Cast(Float, InDouble(x)) == Gives(InFloat(x))
  {
  }

  /** Nought is false and one is true, in every type; nothing else is a boolean. */
  lemma BooleanIff(v: Numeric, b: bool)
    ensures CastToBool(v) == Some(b) <==> Amount(v) == Finite(if b then 1.0 else 0.0)
  {
  }

  /** What a double becomes as a float is a float that no other float is nearer than. */
  lemma NearestFloat(x: real, y: real)
    requires Cast(Float, InDouble(Finite(x))).Gives? && Representable(SINGLE, y)
    ensures Cast(Float, InDouble(Finite(x))).v.InFloat? && Cast(Float, InDouble(Finite(x))).v.x.Finite?
    ensures Abs(Cast(Float, InDouble(Finite(x))).v.x.r - x) <= Abs(y - x)
  {
    RoundedIsNearest(SINGLE, x, y);
  }

  /** It is refused exactly from half a step below 2^128 on. */
  lemma RefusedIff(x: real)
    ensures Cast(Float, InDouble(Finite(x))).Refused? <==> Abs(x) >= Overflow(SINGLE)
  {
    OverflowIff(SINGLE, x);
  }

  lemma ContainedMeansInRange(from: IntType, to: IntType, n: int)
    requires InRange(from, n) && Contained(from, to)
    ensures InRange(to, n)
  {
  }

  // ---------------------------------------------------------------- integers as floating-point numbers

  lemma {:induction false} TwoToSum(a: nat, b: nat)
    ensures TwoTo(a + b) == TwoTo(a) * TwoTo(b)
    decreases b
  {
    if b == 0 {
    } else {
      TwoToSum(a, b - 1);
      assert TwoTo(a) * (2 * TwoTo(b - 1)) == 2 * (TwoTo(a) * TwoTo(b - 1));
    }
  }

  /** The limits of the source are the significands of the two formats. */
  lemma Digits()
    ensures TwoTo(24) == FLOAT_INTEGERS && TwoTo(53) == DOUBLE_INTEGERS
  {
    assert TwoTo(5) == 32 && TwoTo(8) == 256;
    TwoToSum(8, 8);
    TwoToSum(16, 8);
    TwoToSum(24, 24);
    TwoToSum(48, 5);
  }

  lemma SmallInteger(n: int)
    ensures -FLOAT_INTEGERS < n < FLOAT_INTEGERS ==> Representable(SINGLE, n as real)
    ensures -DOUBLE_INTEGERS < n < DOUBLE_INTEGERS ==> Representable(DOUBLE, n as real)
  {
    Digits();
    TimesProduct(n, 1.0);
    assert -FLOAT_INTEGERS < n < FLOAT_INTEGERS ==> IsScaled(SINGLE, n as real, n, 0);
    assert -DOUBLE_INTEGERS < n < DOUBLE_INTEGERS ==> IsScaled(DOUBLE, n as real, n, 0);
  }

  /** Nought, in each type. */
  function Zero(t: NumberType): (v: Numeric)
    ensures OfType(v, t) && Proper(v)
  {
    SmallInteger(0);
    match t
    case Integer(it) => Whole(it, 0)
    case Float => InFloat(Finite(0.0))
    case Double => InDouble(Finite(0.0))
  }

  lemma ExampleExponent()
    ensures Exponent(SINGLE, 16777217.0) == 1
  {
    Digits();
    assert Pow2(0) == 1.0 && Pow2(1) == 2.0;
    TimesProduct(TwoTo(24), 1.0);
    TimesProduct(TwoTo(24), 2.0);
    BoundTimes(SINGLE, 0);
    BoundTimes(SINGLE, 1);
    ExponentUnique(SINGLE, 16777217.0, 1);
  }

  /** The least integer that is no float: 2^24 + 1, which as a float becomes 2^24. */
  lemma RoundedExample()
    ensures Proper(InDouble(Finite(16777217.0)))
    ensures Cast(Float, InDouble(Finite(16777217.0))) == Gives(InFloat(Finite(16777216.0)))
  {
    SmallInteger(16777217);
    ExampleExponent();
    assert Pow2(0) == 1.0 && Pow2(1) == 2.0;
    assert Significand(16777217.0, 1) == 8388608;
    TimesProduct(8388608, 2.0);
  }

  /** The exponent is the one whose range x is in. */
  lemma ExponentUnique(f: Format, x: real, e: int)
    requires Sensible(f) && f.least < e <= f.most && Bound(f, e - 1) <= Abs(x) < Bound(f, e)
    ensures Exponent(f, x) == e
  {
    var r := Exponent(f, x);
    if r < e {
      BoundGrows(f, r, e - 1);
    } else if e < r {
      BoundGrows(f, e, r - 1);
    }
  }

  // ---------------------------------------------------------------- what the parser stores

  /** The integer types the parser tries, in this order. */
  function ParsedWhole(n: int): Option<Numeric> {
    if InRange(U8, n) then Some(Whole(U8, n))
    else if InRange(U16, n) then Some(Whole(U16, n))
    else if InRange(U32, n) then Some(Whole(U32, n))
    else if InRange(U64, n) then Some(Whole(U64, n))
    else if InRange(I8, n) then Some(Whole(I8, n))
    else if InRange(I16, n) then Some(Whole(I16, n))
    else if InRange(I32, n) then Some(Whole(I32, n))
    else if InRange(I64, n) then Some(Whole(I64, n))
    else None
  }

  /** After them `double`; None if the integer is beyond that too. */
  function ParsedAs(n: int): Option<Numeric> {
    if ParsedWhole(n).Some? then ParsedWhole(n) else ParsedDecimal(n as real)
  }

  /** A number that is not written as an integer, or too large for one, is rounded to `double`. */
  function ParsedDecimal(x: real): Option<Numeric> {
    match Round(DOUBLE, x) case Some(y) => Some(InDouble(Finite(y))) case None => None
  }

  /** What the parser stores: integers and finite doubles, never a float. */
  ghost predicate FromParser(v: Numeric) {
    Proper(v) && (v.Whole? || (v.InDouble? && v.x.Finite?))
  }

  lemma DecimalIsFromParser(x: real)
    ensures ParsedDecimal(x).Some? ==> FromParser(ParsedDecimal(x).value)
  {
    if Round(DOUBLE, x).Some? {
      RoundedIsRepresentable(DOUBLE, x);
    }
  }

  lemma WholeIsFromParser(n: int)
    ensures ParsedWhole(n).Some? <==> InRange(U64, n) || InRange(I64, n)
    ensures ParsedWhole(n).Some? ==> ParsedWhole(n).value.Whole? && FromParser(ParsedWhole(n).value)
  {
  }

  lemma IntegerIsFromParser(n: int)
    ensures ParsedAs(n).Some? ==> FromParser(ParsedAs(n).value)
  {
    if ParsedWhole(n).Some? {
      WholeIsFromParser(n);
    } else {
      DecimalIsFromParser(n as real);
    }
  }

  /** Every number that an integer type or `double` has room for is stored, an integer as itself if a type fits. */
  lemma ParsedIff(n: int, x: real)
    ensures ParsedDecimal(x).None? <==> Abs(x) >= Overflow(DOUBLE)
    ensures ParsedAs(n).None? <==> !InRange(U64, n) && !InRange(I64, n) && Abs(n as real) >= Overflow(DOUBLE)
    ensures InRange(U64, n) || InRange(I64, n) ==> ParsedAs(n).Some? && Amount(ParsedAs(n).value) == Finite(n as real)
  {
    OverflowIff(DOUBLE, x);
    OverflowIff(DOUBLE, n as real);
    ParsedBits(n);
  }

  lemma LargeDouble()
    ensures Representable(DOUBLE, 0x40_0000_0000_0000 as real) && Representable(DOUBLE, -(0x40_0000_0000_0000 as real))
  {
    Digits();
    assert Pow2(2) == 4.0;
    TimesProduct(0x10_0000_0000_0000, 4.0);
    TimesNegated(0x10_0000_0000_0000, 4.0);
    assert IsScaled(DOUBLE, 0x40_0000_0000_0000 as real, 0x10_0000_0000_0000, 2);
    assert IsScaled(DOUBLE, -(0x40_0000_0000_0000 as real), -0x10_0000_0000_0000, 2);
  }

  /** Rounding does not bring a large number back into the range of the integers that are read from doubles. */
  lemma LargeStaysLarge(x: real)
    requires Round(DOUBLE, x).Some? && Abs(x) >= 0x40_0000_0000_0000 as real
    ensures Abs(Round(DOUBLE, x).value) >= 0x40_0000_0000_0000 as real
  {
    LargeDouble();
    var y := 0x40_0000_0000_0000 as real;
    RoundedIsNearest(DOUBLE, x, if x < 0.0 then -y else y);
  }

  lemma LargeIsRefused(x: real, t: IntType)
    requires Abs(x) >= 0x40_0000_0000_0000 as real
    ensures FloatingToInteger(Finite(x), DOUBLE_INTEGERS, t) == Refused
  {
  }

  /** However the parser stored an integer, it can be read as a type exactly when it is in that type's range. */
  lemma ParsedIntegersReadBack(n: int, t: IntType)
    ensures ParsedAs(n).Some? ==>
      Cast(Integer(t), ParsedAs(n).value) == if InRange(t, n) then Gives(Whole(t, n)) else Refused
  {
    if ParsedWhole(n).Some? {
      WholeReadsBack(n, t);
    } else {
      WholeIsFromParser(n);
      LargeReadsBack(n, t);
    }
  }

  /** An integer of the document, asked for as `double`: kept if it has 32 bits, refused if 64, else rounded. */
  lemma ParsedIntegersAsDouble(n: int)
    ensures -0x8000_0000 <= n <= 0xFFFF_FFFF ==>
      ParsedAs(n).Some? && Cast(Double, ParsedAs(n).value) == Gives(InDouble(Finite(n as real)))
    ensures (InRange(U64, n) || InRange(I64, n)) && !(-0x8000_0000 <= n <= 0xFFFF_FFFF) ==>
      ParsedAs(n).Some? && Cast(Double, ParsedAs(n).value) == Refused
    ensures !InRange(U64, n) && !InRange(I64, n) && ParsedAs(n).Some? ==>
      Cast(Double, ParsedAs(n).value) == Gives(InDouble(Finite(Round(DOUBLE, n as real).value)))
  {
    if ParsedWhole(n).Some? {
      ParsedBits(n);
      FloatingGivenIff(ParsedWhole(n).value.t, n);
    } else {
      WholeIsFromParser(n);
    }
  }

  lemma ParsedBits(n: int)
    ensures ParsedWhole(n).Some? <==> InRange(U64, n) || InRange(I64, n)
    ensures ParsedWhole(n).Some? ==>
      var v := ParsedWhole(n).value;
      v.Whole? && v.n == n && (Bits(v.t) <= 32 <==> -0x8000_0000 <= n <= 0xFFFF_FFFF)
  {
  }

  lemma WholeReadsBack(n: int, t: IntType)
    requires ParsedWhole(n).Some?
    ensures Cast(Integer(t), ParsedWhole(n).value) == if InRange(t, n) then Gives(Whole(t, n)) else Refused
  {
  }

  lemma LargeReadsBack(n: int, t: IntType)
    requires !InRange(U64, n) && !InRange(I64, n)
    ensures !InRange(t, n)
    ensures ParsedDecimal(n as real).Some? ==> Cast(Integer(t), ParsedDecimal(n as real).value) == Refused
  {
    if Round(DOUBLE, n as real).Some? {
      LargeStaysLarge(n as real);
      LargeIsRefused(Round(DOUBLE, n as real).value, t);
    }
  }
}
