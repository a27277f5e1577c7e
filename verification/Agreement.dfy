/** When the processor's scaled-integer grid check and the backend's tolerance check agree. */
module Agreement {
  import opened Numbers
  import opened Wrappers
  import opened GridCheck
  import opened CallCheck
  import opened Json
  import opened Publication
  import opened Definition

  const VERDICT_LIMIT := 1000000000

  /** How far `d` is from the nearest multiple of `s`. */
  function Distance(d: int, s: int): int
    requires s > 0
  {
    if 2 * (d % s) <= s then d % s else s - d % s
  }

  function Larger(d: int, s: int): int {
    var size := if d < 0 then -d else d;
    if size > s then size else s
  }

  lemma QuotientParts(d: int, s: int)
    requires s > 0
    ensures d as real / s as real - (d / s) as real == (d % s) as real / s as real
    ensures (d / s + 1) as real - d as real / s as real == (s - d % s) as real / s as real
  {
    var m, r := d / s, d % s;
    assert d == m * s + r;
    assert d as real == m as real * s as real + r as real;
  }

  /** The backend's rounding error on a quotient of integers is the distance over the divisor. */
  lemma QuotientError(d: int, s: int)
    requires s > 0
    ensures
      var q := d as real / s as real;
      Abs(q - Round(q) as real) == Distance(d, s) as real / s as real
  {
    var q := d as real / s as real;
    var m, r := d / s, d % s;
    QuotientParts(d, s);
    RoundIsNearest(q, m);
    RoundIsNearest(q, m + 1);
    OrderOverDivisor(r, s - r, s);
    OrderOverDivisor(0, r, s);
    OrderOverDivisor(r, s, s);
    assert m as real <= q < (m + 1) as real;
    assert Round(q) == m || Round(q) == m + 1;
  }

  lemma OrderOverDivisor(a: int, b: int, s: int)
    requires s > 0
    ensures a as real / s as real <= b as real / s as real <==> a <= b
    ensures s as real / s as real == 1.0 && 0.0 / s as real == 0.0
  {
  }

  lemma SizeOverDivisor(d: int, s: int)
    requires s > 0
    ensures Max(1.0, Abs(d as real / s as real)) == Larger(d, s) as real / s as real
  {
    OrderOverDivisor(d, 0, s);
    OrderOverDivisor(d, s, s);
    OrderOverDivisor(-d, s, s);
    assert -(d as real / s as real) == (-d) as real / s as real;
  }

  lemma ToleranceOverDivisor(a: int, b: int, s: int)
    requires s > 0
    ensures a as real / s as real <= PRECISION_EPSILON * (b as real / s as real) <==> VERDICT_LIMIT * a <= b
  {
    var x, y := a as real / s as real, b as real / s as real;
    assert x * s as real == a as real && y * s as real == b as real;
    if x <= PRECISION_EPSILON * y {
      assert x * s as real <= PRECISION_EPSILON * y * s as real;
    } else {
      assert x * s as real > PRECISION_EPSILON * y * s as real;
    }
  }

  /** The backend accepts a quotient exactly when the distance is a billionth of the larger operand or less. */
  lemma ToleratedExactly(d: int, s: int)
    requires s > 0
    ensures NearInteger(d as real / s as real) <==> VERDICT_LIMIT * Distance(d, s) <= Larger(d, s)
  {
    QuotientError(d, s);
    SizeOverDivisor(d, s);
    ToleranceOverDivisor(Distance(d, s), Larger(d, s), s);
  }

  lemma NoDistanceIsDivisible(d: int, s: int)
    requires s > 0
    ensures Distance(d, s) >= 0
    ensures Distance(d, s) == 0 <==> Mod(d, s) == 0
  {
    DivisibleIsGridPoint(d, s);
    DivisibleIsGridPoint(-d, s);
    if k :| d == GridPoint(0, s, k) {
      assert -d == GridPoint(0, s, -k);
    }
    if k :| -d == GridPoint(0, s, k) {
      assert d == GridPoint(0, s, -k);
    }
  }

  /** The exact condition under which the two grid tests agree on `d` units and a step of `s` units. */
  lemma GridTestsAgreeExactly(d: int, s: int)
    requires s > 0
    ensures (Mod(d, s) == 0 <==> NearInteger(d as real / s as real)) <==>
            Mod(d, s) == 0 || Larger(d, s) < VERDICT_LIMIT * Distance(d, s)
  {
    ToleratedExactly(d, s);
    NoDistanceIsDivisible(d, s);
  }

  /** Both magnitudes below 10^9 are enough. */
  lemma GridTestsAgreeBelowLimit(d: int, s: int)
    requires 0 < s < VERDICT_LIMIT && -VERDICT_LIMIT < d < VERDICT_LIMIT
    ensures Mod(d, s) == 0 <==> NearInteger(d as real / s as real)
  {
    GridTestsAgreeExactly(d, s);
    NoDistanceIsDivisible(d, s);
  }

  // ----- whole verdicts -----

  /** A parsed definition and the backend's reading of the same specification. */
  predicate SameSpec(def: PropertyDefinition, spec: NumberSpec) {
    && def.min == spec.min
    && def.max == spec.max
    && def.step == spec.step
    && (def.precision.Some? <==> spec.precision.Some?)
    && (def.precision.Some? ==> def.precision.value >= 0 && def.precision.value as real == spec.precision.value)
  }

  function LowerBound(def: PropertyDefinition): real {
    if def.min.Some? then def.min.value else 0.0
  }

  lemma QuotientOfScaled(x: real, y: real, n: int)
    requires y != 0.0
    ensures Scaled(y, n) != 0.0
    ensures x / y == Scaled(x, n) / Scaled(y, n)
  {
    ScaledAbs(y, n);
    var q := x / y;
    assert x == q * y;
    ScaledProduct(q, y, n);
    CancelDivisor(q, Scaled(y, n));
  }

  lemma ScaledProduct(q: real, y: real, n: int)
    ensures Scaled(q * y, n) == q * Scaled(y, n)
  {
  }

  lemma CancelDivisor(q: real, z: real)
    requires z != 0.0
    ensures (q * z) / z == q
  {
  }

  /** The step in last-place units. */
  function StepUnits(def: PropertyDefinition): int
    requires def.step.Some?
  {
    Round(Scaled(def.step.value, EffectivePrecision(def)))
  }

  /** The distance from the lower bound in last-place units. */
  function UnitsAbove(def: PropertyDefinition, value: real): int {
    Round(Scaled(value, EffectivePrecision(def))) - Anchor(def, EffectivePrecision(def))
  }

  /** Value, lower bound and step are whole numbers of last-place units. */
  predicate WholeUnits(def: PropertyDefinition, value: real) {
    var p := EffectivePrecision(def);
    && Integral(Scaled(value, p))
    && (def.step.Some? ==> Integral(Scaled(LowerBound(def), p)) && Integral(Scaled(def.step.value, p)))
  }

  /** Off the grid the distance to it exceeds a billionth of the larger operand. */
  predicate Separated(d: int, s: int) {
    s > 0 ==> Mod(d, s) == 0 || Larger(d, s) < VERDICT_LIMIT * Distance(d, s)
  }

  lemma UnitsAreScaled(def: PropertyDefinition, value: real)
    requires WholeUnits(def, value) && def.step.Some?
    ensures UnitsAbove(def, value) as real == Scaled(value - LowerBound(def), EffectivePrecision(def))
    ensures StepUnits(def) as real == Scaled(def.step.value, EffectivePrecision(def))
    ensures StepUnits(def) > 0 <==> def.step.value > 0.0
  {
    var p := EffectivePrecision(def);
    IntegralRounds(Scaled(def.step.value, p));
    IntegralRounds(Scaled(value, p));
    IntegralRounds(Scaled(LowerBound(def), p));
    ScaledSum(value, LowerBound(def), p);
    ScaledAbs(0.0, p);
    ScaledAbs(def.step.value, p);
  }

  /** The two step tests on whole units. */
  lemma StepTestsAgreeExactly(def: PropertyDefinition, value: real)
    requires def.step.Some? && WholeUnits(def, value)
    ensures
      var p := EffectivePrecision(def);
      (CheckStep(def, p, Round(Scaled(value, p))).None? <==> StepHolds(def.step.value, LowerBound(def), value)) <==>
      Separated(UnitsAbove(def, value), StepUnits(def))
  {
    UnitsAreScaled(def, value);
    if StepUnits(def) > 0 {
      QuotientOfScaled(value - LowerBound(def), def.step.value, EffectivePrecision(def));
      GridTestsAgreeExactly(UnitsAbove(def, value), StepUnits(def));
    }
  }

  /**
   * The exact condition for one verdict on whole units: out of range, no step, on the grid, or further
   * from it than the tolerance.
   */
  lemma VerdictsAgreeExactly(def: PropertyDefinition, spec: NumberSpec, value: real)
    requires SameSpec(def, spec) && WholeUnits(def, value)
    ensures (CheckNumber(def, value).None? <==> NumberFits(spec, value)) <==>
            !InRange(def, value) || def.step.None? || Separated(UnitsAbove(def, value), StepUnits(def))
  {
    var p := EffectivePrecision(def);
    IntegralRounds(Scaled(value, p));
    if def.precision.Some? {
      assert PrecisionHolds(spec.precision.value, value);
    }
    if def.step.Some? {
      StepTestsAgreeExactly(def, value);
    }
  }

  /** Whole units, with step and distance from the lower bound below 10^9 of them. */
  predicate Comparable(def: PropertyDefinition, value: real) {
    && WholeUnits(def, value)
    && (def.step.Some? ==>
         && Scaled(def.step.value, EffectivePrecision(def)) < VERDICT_LIMIT as real
         && Abs(Scaled(value - LowerBound(def), EffectivePrecision(def))) < VERDICT_LIMIT as real)
  }

  lemma ComparableIsSeparated(def: PropertyDefinition, value: real)
    requires def.step.Some? && Comparable(def, value)
    ensures Separated(UnitsAbove(def, value), StepUnits(def))
  {
    UnitsAreScaled(def, value);
    if StepUnits(def) > 0 {
      NoDistanceIsDivisible(UnitsAbove(def, value), StepUnits(def));
    }
  }

  /** On comparable numbers the two services give one verdict. */
  lemma VerdictsAgree(def: PropertyDefinition, spec: NumberSpec, value: real)
    requires SameSpec(def, spec) && Comparable(def, value)
    ensures CheckNumber(def, value).None? <==> NumberFits(spec, value)
  {
    VerdictsAgreeExactly(def, spec, value);
    if def.step.Some? {
      ComparableIsSeparated(def, value);
    }
  }

  /** A property with a step and no other constraint. */
  function Stepped(step: real): PropertyDefinition {
    PropertyDefinition("double", false, None, None, Some(step), None)
  }

  lemma IntegerStepNeedsNoDecimals(step: int)
    ensures EffectivePrecision(Stepped(step as real)) == 0
  {
    assert Scaled(Abs(step as real), 0) == (if step < 0 then -step else step) as real;
    RoundOfInteger(if step < 0 then -step else step);
    assert NearAt(step as real, 0);
  }

  /** Neither magnitude may reach 10^9: a step of 10^9 meets 1, and a step of 3 meets 10^9, only for the backend. */
  lemma LimitIsTight(step: int, value: int)
    requires (step, value) == (VERDICT_LIMIT, 1) || (step, value) == (3, VERDICT_LIMIT)
    ensures
      var def := Stepped(step as real);
      var spec := NumberSpec(None, None, Some(step as real), None);
      SameSpec(def, spec) && CheckNumber(def, value as real) == Some(NotAligned) && NumberFits(spec, value as real)
  {
    IntegerStepNeedsNoDecimals(step);
    assert Scaled(value as real, 0) == value as real && Scaled(step as real, 0) == step as real;
    RoundOfInteger(value);
    RoundOfInteger(step);
    ToleratedExactly(value, step);
  }

  /** Under an explicit precision both services refuse a number with too many decimals, on the grid or off it. */
  lemma TooManyDecimalsAreRefused(def: PropertyDefinition, spec: NumberSpec, value: real)
    requires SameSpec(def, spec) && def.precision.Some?
    requires !exists n :: Within(Scaled(value, def.precision.value), n)
    ensures CheckNumber(def, value).Some? && !NumberFits(spec, value)
  {
    NearIntegerExactly(Scaled(value, def.precision.value));
    FloorOfInteger(def.precision.value);
  }

  /** With an explicit precision and no step they give one verdict on every number, whole units or not. */
  lemma PrecisionVerdictsAgree(def: PropertyDefinition, spec: NumberSpec, value: real)
    requires SameSpec(def, spec) && def.precision.Some? && def.step.None?
    ensures CheckNumber(def, value).None? <==> NumberFits(spec, value)
  {
    AcceptedExactly(def, value);
    FloorOfInteger(def.precision.value);
  }

  /** A published specification is read alike by the two services. */
  lemma PublishedSpecIsShared(body: Fields, requireAccessMode: bool, overflow: int)
    requires ValidParam(body, requireAccessMode)
    requires
      var precision := NumberIn(ObjectField(body, "spec"), "precision");
      precision.Some? ==> precision.value < INT64_LIMIT
    ensures ReadNumberSpec(ObjectField(body, "spec")).Success?
    ensures SameSpec(ParseProperty(body, overflow), ReadNumberSpec(ObjectField(body, "spec")).value)
  {
    if "spec" in body {
      SpecReadsAlike(body["spec"].fields);
      if NumberIn(body["spec"].fields, "precision").Some? {
        PrecisionSurvivesExactly(body, requireAccessMode);
        assert ParseProperty(body, overflow).precision.value >= 0;
      }
    }
  }

  /** Both services look at the number: the data type is numeric and an integer is asked for only of integers. */
  predicate Judged(dataType: string, value: real) {
    dataType in NUMERIC_DATA_TYPES && (dataType == "int" ==> Trunc(value) as real == value)
  }

  /**
   * The exact condition for one verdict on a number of whole units under a published definition; on
   * anything but a number the two services always agree.
   */
  lemma PublishedVerdictsAgreeExactly(body: Fields, requireAccessMode: bool, overflow: int, value: Value)
    requires ValidParam(body, requireAccessMode)
    requires
      var precision := NumberIn(ObjectField(body, "spec"), "precision");
      precision.Some? ==> precision.value < INT64_LIMIT
    requires value.Number? ==> WholeUnits(ParseProperty(body, overflow), value.number)
    ensures
      var def := ParseProperty(body, overflow);
      (CheckValue(def, value).None? <==> ValueAccepted(body, value)) <==>
      (value.Number? && Judged(def.dataType, value.number) && InRange(def, value.number) && def.step.Some? ==>
       Separated(UnitsAbove(def, value.number), StepUnits(def)))
  {
    if value.Number? {
      var def := ParseProperty(body, overflow);
      PublishedSpecIsShared(body, requireAccessMode, overflow);
      var spec := ReadNumberSpec(ObjectField(body, "spec")).value;
      VerdictsAgreeExactly(def, spec, value.number);
      NumberVerdicts(body, overflow, spec, value.number);
    } else {
      OtherVerdicts(body, overflow, value);
    }
  }

  /** Both services look at the number only when it is judged, and then at nothing else. */
  lemma NumberVerdicts(body: Fields, overflow: int, spec: NumberSpec, value: real)
    requires ReadNumberSpec(ObjectField(body, "spec")) == Success(spec)
    ensures
      var def := ParseProperty(body, overflow);
      && (CheckValue(def, Number(value)).None? <==> Judged(def.dataType, value) && CheckNumber(def, value).None?)
      && (ValueAccepted(body, Number(value)) <==> Judged(def.dataType, value) && NumberFits(spec, value))
  {
  }

  lemma OtherVerdicts(body: Fields, overflow: int, value: Value)
    requires !value.Number?
    ensures CheckValue(ParseProperty(body, overflow), value).None? <==> ValueAccepted(body, value)
  {
  }

  /** A comparable value the backend sends is one the processor would accept back, and conversely. */
  lemma PublishedVerdictsAgree(body: Fields, requireAccessMode: bool, overflow: int, value: Value)
    requires ValidParam(body, requireAccessMode)
    requires
      var precision := NumberIn(ObjectField(body, "spec"), "precision");
      precision.Some? ==> precision.value < INT64_LIMIT
    requires value.Number? ==> Comparable(ParseProperty(body, overflow), value.number)
    ensures CheckValue(ParseProperty(body, overflow), value).None? <==> ValueAccepted(body, value)
  {
    PublishedVerdictsAgreeExactly(body, requireAccessMode, overflow, value);
    if value.Number? && ParseProperty(body, overflow).step.Some? {
      ComparableIsSeparated(ParseProperty(body, overflow), value.number);
    }
  }

  /** Without precision and step the processor still counts decimals, the backend does not. */
  lemma UnconstrainedVerdicts(def: PropertyDefinition, spec: NumberSpec, value: real)
    requires SameSpec(def, spec) && def.precision.None? && def.step.None?
    ensures (CheckNumber(def, value).None? <==> NumberFits(spec, value)) <==>
            !InRange(def, value) || NearInteger(Scaled(value, EffectivePrecision(def)))
  {
    AcceptedExactly(def, value);
  }

  lemma UnconstrainedHalfSplitsVerdicts()
    ensures
      var def := PropertyDefinition("float", false, None, None, None, None);
      var spec := NumberSpec(None, None, None, None);
      SameSpec(def, spec) && NumberFits(spec, 0.5) && CheckNumber(def, 0.5) == Some(ExceedsPrecision)
  {
    assert Scaled(0.5, 0) == 0.5;
  }
}
