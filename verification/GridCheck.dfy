/** The processor's value check: range, decimal precision and step grid on scaled integers. */
module GridCheck {
  import opened Numbers
  import opened Wrappers
  import opened Json

  const PRECISION_EPSILON := 0.000000001

  datatype PropertyDefinition = PropertyDefinition(
    dataType: string,
    required: bool,
    min: Option<real>,
    max: Option<real>,
    step: Option<real>,
    precision: Option<int>)

  /** Why a value is refused. */
  datatype Reason =
    | ExpectedInteger
    | FractionalInteger
    | ExpectedNumber
    | ExpectedBoolean
    | ExpectedString
    | BelowMin
    | AboveMax
    | ExceedsPrecision
    | InvalidStep
    | NotAligned
    | UnsupportedDataType

  // ----- decimal digits -----

  /** `x` is within 1e-9 of an integer once moved `digits` places. */
  predicate NearAt(x: real, digits: nat) {
    Abs(Scaled(Abs(x), digits) - Round(Scaled(Abs(x), digits)) as real) < PRECISION_EPSILON
  }

  /** `digits` is the first place count up to 8 that brings `x` near an integer, or 8 when none does. */
  predicate FirstNear(x: real, digits: nat) {
    && digits <= 8
    && (digits < 8 ==> NearAt(x, digits))
    && (forall i: nat :: i < digits ==> !NearAt(x, i))
  }

  function DecimalDigits(x: real, from: nat := 0): (digits: nat)
    requires from <= 8
    requires forall i: nat :: i < from ==> !NearAt(x, i)
    ensures FirstNear(x, digits)
    decreases 8 - from
  {
    if from == 8 || NearAt(x, from) then from else DecimalDigits(x, from + 1)
  }

  /** The least number of digits, up to 8, at which some integer is within 1e-9, and 8 if there is none. */
  lemma DecimalDigitsExactly(x: real)
    ensures
      var digits := DecimalDigits(x);
      && digits <= 8
      && (digits < 8 ==> exists n: int :: CloseTo(Scaled(Abs(x), digits), n))
      && (forall i: nat, n: int :: i < digits ==> !CloseTo(Scaled(Abs(x), i), n))
  {
    var digits := DecimalDigits(x);
    assert NearAt(x, digits) ==> CloseTo(Scaled(Abs(x), digits), Round(Scaled(Abs(x), digits)));
    forall i: nat, n: int | i < digits
      ensures !CloseTo(Scaled(Abs(x), i), n)
    {
      assert !NearAt(x, i);
      RoundIsNearest(Scaled(Abs(x), i), n);
    }
  }

  predicate CloseTo(y: real, n: int) {
    Abs(y - n as real) < 0.000000001
  }

  method ComputeDecimalDigits(value: real) returns (digits: nat)
    ensures FirstNear(value, digits)
    ensures digits == DecimalDigits(value)
  {
    for i := 0 to 9
      invariant forall j: nat :: j < i ==> !NearAt(value, j)
    {
      if NearAt(value, i) {
        return i;
      }
    }
    return 8;
  }

  function MaxInt(a: int, b: int): int {
    if a > b then a else b
  }

  function DigitsOf(bound: Option<real>): nat {
    if bound.Some? then DecimalDigits(bound.value) else 0
  }

  function EffectivePrecision(def: PropertyDefinition): int {
    if def.precision.Some? then def.precision.value
    else MaxInt(DigitsOf(def.step), MaxInt(DigitsOf(def.min), DigitsOf(def.max)))
  }

  method ComputeEffectivePrecision(def: PropertyDefinition) returns (digits: int)
    ensures def.precision.Some? ==> digits == def.precision.value
    ensures def.precision.None? ==>
              && digits >= DigitsOf(def.step) && digits >= DigitsOf(def.min) && digits >= DigitsOf(def.max)
              && (digits == DigitsOf(def.step) || digits == DigitsOf(def.min) || digits == DigitsOf(def.max))
    ensures digits == EffectivePrecision(def)
  {
    if def.precision.Some? {
      return def.precision.value;
    }
    digits := 0;
    if def.step.Some? {
      var d := ComputeDecimalDigits(def.step.value);
      digits := MaxInt(digits, d);
    }
    if def.min.Some? {
      var d := ComputeDecimalDigits(def.min.value);
      digits := MaxInt(digits, d);
    }
    if def.max.Some? {
      var d := ComputeDecimalDigits(def.max.value);
      digits := MaxInt(digits, d);
    }
  }

  // ----- the check -----

  /** `y` is close enough to its nearest integer, relative to its size. */
  predicate NearInteger(y: real) {
    Abs(y - Round(y) as real) <= PRECISION_EPSILON * Max(1.0, Abs(y))
  }

  /** The tolerance written out: some integer is within a billionth of the number, or of 1 if that is larger. */
  predicate Within(y: real, n: int) {
    Abs(y - n as real) <= 0.000000001 * Max(1.0, Abs(y))
  }

  lemma NearIntegerExactly(y: real)
    ensures NearInteger(y) <==> exists n :: Within(y, n)
  {
    assert NearInteger(y) ==> Within(y, Round(y));
    if n :| Within(y, n) {
      RoundIsNearest(y, n);
    }
  }

  function Anchor(def: PropertyDefinition, p: int): int {
    if def.min.Some? then Round(Scaled(def.min.value, p)) else 0
  }

  function CheckStep(def: PropertyDefinition, p: int, units: int): Option<Reason>
    requires def.step.Some?
  {
    var step := Round(Scaled(def.step.value, p));
    if step <= 0 then Some(InvalidStep)
    else if Mod(units - Anchor(def, p), step) != 0 then Some(NotAligned)
    else None
  }

  function CheckNumber(def: PropertyDefinition, value: real): Option<Reason> {
    if def.min.Some? && value < def.min.value then Some(BelowMin)
    else if def.max.Some? && value > def.max.value then Some(AboveMax)
    else
      var p := EffectivePrecision(def);
      var scaled := Scaled(value, p);
      if !NearInteger(scaled) then Some(ExceedsPrecision)
      else if def.step.None? then None
      else CheckStep(def, p, Round(scaled))
  }

  /** A value of any JSON kind against a definition. */
  function CheckValue(def: PropertyDefinition, value: Value): Option<Reason> {
    if def.dataType == "int" then
      if !value.Number? then Some(ExpectedInteger)
      else if Trunc(value.number) as real != value.number then Some(FractionalInteger)
      else CheckNumber(def, value.number)
    else if def.dataType == "float" || def.dataType == "double" then
      if !value.Number? then Some(ExpectedNumber) else CheckNumber(def, value.number)
    else if def.dataType == "bool" then
      if value.Bool? then None else Some(ExpectedBoolean)
    else if def.dataType == "string" then
      if value.String? then None else Some(ExpectedString)
    else Some(UnsupportedDataType)
  }

  // ----- what an accepted number is -----

  predicate InRange(def: PropertyDefinition, value: real) {
    && (def.min.Some? ==> def.min.value <= value)
    && (def.max.Some? ==> value <= def.max.value)
  }

  /** `units` is a whole number of positive steps away from the anchor, in units of the last place. */
  ghost predicate OnGrid(def: PropertyDefinition, p: int, units: int)
    requires def.step.Some?
  {
    var step := Round(Scaled(def.step.value, p));
    step > 0 && exists k :: units == GridPoint(Anchor(def, p), step, k)
  }

  /** Each way a number is refused, in the order of the checks. */
  lemma NumberRefusedExactly(def: PropertyDefinition, value: real)
    ensures CheckNumber(def, value) == Some(BelowMin) <==> def.min.Some? && value < def.min.value
    ensures CheckNumber(def, value) == Some(AboveMax) <==>
            (def.min.Some? ==> def.min.value <= value) && def.max.Some? && value > def.max.value
    ensures
      var p := EffectivePrecision(def);
      && (CheckNumber(def, value) == Some(ExceedsPrecision) <==> InRange(def, value) && !NearInteger(Scaled(value, p)))
      && (CheckNumber(def, value) == Some(InvalidStep) <==>
          && InRange(def, value) && NearInteger(Scaled(value, p))
          && def.step.Some? && Round(Scaled(def.step.value, p)) <= 0)
      && (CheckNumber(def, value) == Some(NotAligned) <==>
          && InRange(def, value) && NearInteger(Scaled(value, p))
          && def.step.Some? && Round(Scaled(def.step.value, p)) > 0 && !OnGrid(def, p, Round(Scaled(value, p))))
  {
    AcceptedExactly(def, value);
  }

  /** Each data type admits its own kind of value, and numbers are then checked as numbers. */
  lemma ValueCheckedExactly(def: PropertyDefinition, value: Value)
    ensures def.dataType == "bool" ==> CheckValue(def, value) == if value.Bool? then None else Some(ExpectedBoolean)
    ensures def.dataType == "string" ==> CheckValue(def, value) == if value.String? then None else Some(ExpectedString)
    ensures def.dataType == "float" || def.dataType == "double" ==>
              CheckValue(def, value) == if value.Number? then CheckNumber(def, value.number) else Some(ExpectedNumber)
    ensures def.dataType == "int" ==>
              CheckValue(def, value) ==
              if !value.Number? then Some(ExpectedInteger)
              else if exists n :: EqualsInteger(value.number, n) then CheckNumber(def, value.number)
              else Some(FractionalInteger)
  {
    if value.Number? {
      WholeExactly(value.number);
    }
  }

  /** Exactly the numbers in range, near a last-place unit and on the grid are accepted. */
  lemma AcceptedExactly(def: PropertyDefinition, value: real)
    ensures
      var p := EffectivePrecision(def);
      CheckNumber(def, value).None? <==>
      && InRange(def, value)
      && NearInteger(Scaled(value, p))
      && (def.step.Some? ==> OnGrid(def, p, Round(Scaled(value, p))))
  {
    var p := EffectivePrecision(def);
    if def.step.Some? && Round(Scaled(def.step.value, p)) > 0 {
      ModZeroIsGridPoint(Round(Scaled(value, p)), Anchor(def, p), Round(Scaled(def.step.value, p)));
    }
  }

  /**
   * Soundness: an accepted number lies, to within the tolerance, on a grid point counted upwards from
   * the rounded minimum and not beyond the rounded maximum.
   */
  lemma GridSoundness(def: PropertyDefinition, value: real) returns (k: int)
    requires def.step.Some? && CheckNumber(def, value).None?
    ensures
      var p := EffectivePrecision(def);
      var point := GridPoint(Anchor(def, p), Round(Scaled(def.step.value, p)), k);
      && Round(Scaled(value, p)) == point
      && Abs(Scaled(value, p) - point as real) <= PRECISION_EPSILON * Max(1.0, Abs(Scaled(value, p)))
      && (def.max.Some? ==> point <= Round(Scaled(def.max.value, p)))
    ensures def.min.Some? ==> k >= 0
  {
    AcceptedExactly(def, value);
    var p := EffectivePrecision(def);
    var step := Round(Scaled(def.step.value, p));
    k :| Round(Scaled(value, p)) == GridPoint(Anchor(def, p), step, k);
    if def.min.Some? {
      ScaledMonotone(def.min.value, value, p);
      RoundMonotone(Scaled(def.min.value, p), Scaled(value, p));
      MultipleBeyondDivisor(k, step);
    }
    if def.max.Some? {
      ScaledMonotone(value, def.max.value, p);
      RoundMonotone(Scaled(value, p), Scaled(def.max.value, p));
    }
  }

  // ----- completeness -----

  lemma SmallIntegralVanishes(d: real, n: nat)
    requires n <= 8 && Abs(d) < PRECISION_EPSILON && Integral(Scaled(d, n))
    ensures d == 0.0
  {
    ScaledBound(d, n, PRECISION_EPSILON);
    ScaledAbs(d, n);
    assert Scaled(d, n).Floor == 0;
  }

  lemma IntegralDifference(x: real, y: real)
    requires Integral(x) && Integral(y)
    ensures Integral(x - y)
  {
    assert x - y == (x.Floor - y.Floor) as real;
  }

  lemma NearWithFewDecimals(y: real, n: nat)
    requires n <= 8 && Integral(Scaled(y, n))
    requires Abs(y - Round(y) as real) < PRECISION_EPSILON
    ensures Integral(y)
  {
    var m := Round(y) as real;
    ScaledSum(y, m, n);
    assert Integral(Scaled(m, n)) by {
      IntegralAtZero(m);
      DecimalsGrow(m, 0, n);
    }
    IntegralDifference(Scaled(y, n), Scaled(m, n));
    SmallIntegralVanishes(y - m, n);
  }

  lemma IntegralAtZero(x: real)
    ensures Scaled(x, 0) == x
  {
  }

  /** A number with at most 8 decimals that is near an integer is one. */
  lemma NearIsIntegral(x: real, i: nat)
    requires i <= 8 && Integral(Scaled(x, 8))
    ensures NearAt(x, i) <==> Integral(Scaled(x, i))
  {
    var y := Scaled(Abs(x), i);
    assert Integral(y) <==> Integral(Scaled(x, i)) by {
      ScaledAbs(x, i);
      IntegralAbs(Scaled(x, i));
    }
    if Integral(y) {
      IntegralRounds(y);
    } else if NearAt(x, i) {
      assert Integral(Scaled(y, 8 - i)) by {
        ScaledAbs(x, 8);
        IntegralAbs(Scaled(x, 8));
        ScaledTwice(Abs(x), i, 8 - i);
      }
      NearWithFewDecimals(y, 8 - i);
    }
  }

  lemma IntegralAbs(x: real)
    ensures Integral(Abs(x)) <==> Integral(x)
  {
    if Integral(x) {
      IntegralDifference(0.0, x);
    }
    if Integral(-x) {
      IntegralDifference(0.0, -x);
    }
  }

  /** On numbers with at most 8 decimals the digit count is exact and least. */
  lemma DigitsAreExact(x: real)
    requires Integral(Scaled(x, 8))
    ensures Integral(Scaled(x, DecimalDigits(x)))
    ensures forall j: nat :: j < DecimalDigits(x) ==> !Integral(Scaled(x, j))
  {
    NearIsIntegral(x, DecimalDigits(x));
    forall j: nat | j < DecimalDigits(x)
      ensures !Integral(Scaled(x, j))
    {
      NearIsIntegral(x, j);
    }
  }

  predicate EightDecimals(bound: Option<real>) {
    bound.Some? ==> Integral(Scaled(bound.value, 8))
  }

  /** Every bound given is a whole number of last-place units at the derived precision. */
  lemma DerivedPrecisionFits(def: PropertyDefinition, bound: Option<real>)
    requires def.precision.None? && bound in [def.step, def.min, def.max]
    requires EightDecimals(bound)
    ensures EffectivePrecision(def) >= 0
    ensures bound.Some? ==> Integral(Scaled(bound.value, EffectivePrecision(def)))
  {
    if bound.Some? {
      DigitsAreExact(bound.value);
      DecimalsGrow(bound.value, DecimalDigits(bound.value), EffectivePrecision(def));
    }
  }

  /** The number `k` steps above the minimum (above 0 when there is none). */
  function GridValue(def: PropertyDefinition, k: int): real
    requires def.step.Some?
  {
    (if def.min.Some? then def.min.value else 0.0) + k as real * def.step.value
  }

  lemma ScaledGridValue(def: PropertyDefinition, k: int, p: int)
    requires def.step.Some? && Integral(Scaled(def.step.value, p))
    requires def.min.Some? ==> Integral(Scaled(def.min.value, p))
    ensures Scaled(GridValue(def, k), p) ==
            GridPoint(Anchor(def, p), Round(Scaled(def.step.value, p)), k) as real
  {
    var lo := if def.min.Some? then def.min.value else 0.0;
    assert Scaled(lo, p) == Anchor(def, p) as real by {
      ScaledAbs(0.0, p);
      if def.min.Some? {
        IntegralRounds(Scaled(lo, p));
      }
    }
    ScaledSum(lo, k as real * def.step.value, p);
    ScaledMultiple(k, def.step.value, p);
    IntegralRounds(Scaled(def.step.value, p));
  }

  lemma PositiveStepRoundsUp(step: real, p: int)
    requires step > 0.0 && Integral(Scaled(step, p))
    ensures Round(Scaled(step, p)) > 0
  {
    ScaledAbs(step, p);
    IntegralRounds(Scaled(step, p));
  }

  /** Completeness: where minimum and step are whole last-place units every in-range grid value is accepted. */
  lemma WholeGridIsAccepted(def: PropertyDefinition, k: int)
    requires def.step.Some? && def.step.value > 0.0 && Integral(Scaled(def.step.value, EffectivePrecision(def)))
    requires def.min.Some? ==> Integral(Scaled(def.min.value, EffectivePrecision(def)))
    requires InRange(def, GridValue(def, k))
    ensures CheckNumber(def, GridValue(def, k)).None?
  {
    var p := EffectivePrecision(def);
    ScaledGridValue(def, k, p);
    PositiveStepRoundsUp(def.step.value, p);
    RoundOfInteger(GridPoint(Anchor(def, p), Round(Scaled(def.step.value, p)), k));
    AcceptedExactly(def, GridValue(def, k));
  }

  /** A derived precision makes them whole, and so does an explicit one they do not exceed. */
  lemma GridCompleteness(def: PropertyDefinition, k: int)
    requires def.step.Some? && def.step.value > 0.0 && InRange(def, GridValue(def, k))
    requires
      if def.precision.None? then EightDecimals(def.min) && EightDecimals(def.step)
      else
        && Integral(Scaled(def.step.value, def.precision.value))
        && (def.min.Some? ==> Integral(Scaled(def.min.value, def.precision.value)))
    ensures CheckNumber(def, GridValue(def, k)).None?
  {
    if def.precision.None? {
      assert [def.step, def.min, def.max][0] == def.step && [def.step, def.min, def.max][1] == def.min;
      DerivedPrecisionFits(def, def.step);
      DerivedPrecisionFits(def, def.min);
    }
    WholeGridIsAccepted(def, k);
  }
}
