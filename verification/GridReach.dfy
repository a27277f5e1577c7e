/** Which properties accept any value at all. */
module GridReach {
  import opened Numbers
  import opened Wrappers
  import opened Text
  import opened Json
  import opened GridCheck
  import opened CallCheck
  import opened Publication
  import opened Definition

  // ----- on the scale of last-place units -----

  /** Between its target and a near number every number is near. */
  lemma NearFromBelow(y: real, b: real, n: int)
    requires y <= b <= n as real && Round(y) == n && NearInteger(y)
    ensures Round(b) == n && NearInteger(b)
  {
    RoundMonotone(y, b);
    RoundMonotone(b, n as real);
    RoundOfInteger(n);
  }

  lemma NearFromAbove(y: real, a: real, n: int)
    requires n as real <= a <= y && Round(y) == n && NearInteger(y)
    ensures Round(a) == n && NearInteger(a)
  {
    RoundMonotone(a, y);
    RoundMonotone(n as real, a);
    RoundOfInteger(n);
  }

  /**
   * Within `[a, b]` a grid of the given step, anchored at the rounded `a`, is met: at `a` itself, at the
   * anchor, at the first step, or at `b`.
   */
  predicate Reaches(a: real, b: real, step: int) {
    var anchor := Round(a);
    a <= b &&
    (|| NearInteger(a)
     || a <= anchor as real <= b
     || (anchor + step) as real <= b
     || (NearInteger(b) && (Round(b) == anchor || Round(b) == anchor + step)))
  }

  ghost predicate Met(a: real, b: real, step: int, y: real) {
    a <= y <= b && NearInteger(y) && exists k :: Round(y) == GridPoint(Round(a), step, k)
  }

  lemma FirstPoints(anchor: int, step: int)
    ensures GridPoint(anchor, step, 0) == anchor && GridPoint(anchor, step, 1) == anchor + step
  {
  }

  lemma ReachedIsMet(a: real, b: real, step: int) returns (y: real)
    requires step > 0 && Reaches(a, b, step)
    ensures Met(a, b, step, y)
  {
    var anchor := Round(a);
    FirstPoints(anchor, step);
    RoundOfInteger(anchor);
    RoundOfInteger(anchor + step);
    if NearInteger(a) {
      y := a;
    } else if a <= anchor as real <= b {
      y := anchor as real;
    } else if (anchor + step) as real <= b {
      RoundIsNearest(a, anchor);
      y := (anchor + step) as real;
    } else {
      y := b;
    }
  }

  lemma MetIsReached(a: real, b: real, step: int, y: real)
    requires step > 0 && Met(a, b, step, y)
    ensures Reaches(a, b, step)
  {
    var anchor := Round(a);
    var k :| Round(y) == GridPoint(anchor, step, k);
    FirstPoints(anchor, step);
    RoundMonotone(a, y);
    RoundIsNearest(y, Round(y));
    MultipleBeyondDivisor(k, step);
    if k >= 2 {
      MultipleBeyondDivisor(k - 1, step);
      assert Round(y) >= anchor + 2 * step;
    } else if Round(y) as real > b {
      NearFromBelow(y, b, Round(y));
    } else if k == 0 && (anchor as real) < a {
      NearFromAbove(y, a, anchor);
    }
  }

  // ----- on properties -----

  /** The grid a property has: without a step every last-place unit is on it. */
  function GridStep(def: PropertyDefinition): int {
    if def.step.Some? then Round(Scaled(def.step.value, EffectivePrecision(def))) else 1
  }

  ghost predicate OnOwnGrid(def: PropertyDefinition, units: int) {
    exists k :: units == GridPoint(Anchor(def, EffectivePrecision(def)), GridStep(def), k)
  }

  /** With both bounds given, the grid is met between them. */
  predicate GridMeetsRange(def: PropertyDefinition) {
    var p := EffectivePrecision(def);
    def.min.Some? && def.max.Some? ==> Reaches(Scaled(def.min.value, p), Scaled(def.max.value, p), GridStep(def))
  }

  /** A step, if given, is at least half a last-place unit. */
  predicate StepCounts(def: PropertyDefinition) {
    def.step.Some? ==> Scaled(def.step.value, EffectivePrecision(def)) >= 0.5
  }

  lemma StepCountsExactly(def: PropertyDefinition)
    ensures StepCounts(def) <==> GridStep(def) > 0
  {
  }

  lemma EveryUnitIsOnGrid(def: PropertyDefinition, units: int)
    requires def.step.None?
    ensures OnOwnGrid(def, units)
  {
    var anchor := Anchor(def, EffectivePrecision(def));
    assert units == GridPoint(anchor, GridStep(def), units - anchor);
  }

  /** The same characterisation of accepted numbers, in terms of the property's own grid. */
  lemma AcceptedOnOwnGrid(def: PropertyDefinition, value: real)
    ensures
      CheckNumber(def, value).None? <==>
      && InRange(def, value)
      && NearInteger(Scaled(value, EffectivePrecision(def)))
      && StepCounts(def)
      && OnOwnGrid(def, Round(Scaled(value, EffectivePrecision(def))))
  {
    AcceptedExactly(def, value);
    StepCountsExactly(def);
    if def.step.None? {
      EveryUnitIsOnGrid(def, Round(Scaled(value, EffectivePrecision(def))));
    }
  }

  /** Bounds in last-place units. */
  predicate InScaledRange(def: PropertyDefinition, y: real) {
    && (def.min.Some? ==> Scaled(def.min.value, EffectivePrecision(def)) <= y)
    && (def.max.Some? ==> y <= Scaled(def.max.value, EffectivePrecision(def)))
  }

  /** A near number of last-place units on the grid and in range is accepted. */
  lemma GridUnitAccepted(def: PropertyDefinition, y: real) returns (value: real)
    requires StepCounts(def) && OnOwnGrid(def, Round(y)) && NearInteger(y) && InScaledRange(def, y)
    ensures Scaled(value, EffectivePrecision(def)) == y && CheckNumber(def, value).None?
  {
    var p := EffectivePrecision(def);
    value := Unscaled(y, p);
    if def.min.Some? {
      ScaledOrder(def.min.value, value, p);
    }
    if def.max.Some? {
      ScaledOrder(value, def.max.value, p);
    }
    AcceptedOnOwnGrid(def, value);
  }

  /** Without one of the bounds the grid runs past the other. */
  lemma OpenRangeMeetsGrid(def: PropertyDefinition) returns (y: real)
    requires GridStep(def) > 0 && (def.min.None? || def.max.None?)
    ensures OnOwnGrid(def, Round(y)) && NearInteger(y) && InScaledRange(def, y) && y == Round(y) as real
  {
    var p, step := EffectivePrecision(def), GridStep(def);
    var anchor, k := Anchor(def, p), 1;
    if def.min.Some? {
      RoundIsNearest(Scaled(def.min.value, p), anchor);
    } else if def.max.Some? {
      var b := Scaled(def.max.value, p);
      k := if b.Floor < 0 then b.Floor else 0;
      BelowFloor(k, step, b);
    }
    FirstPoints(anchor, step);
    y := GridPoint(anchor, step, k) as real;
    RoundOfInteger(GridPoint(anchor, step, k));
  }

  lemma BelowFloor(k: int, step: int, b: real)
    requires step > 0 && k <= 0 && k as real <= b
    ensures GridPoint(0, step, k) as real <= b
  {
    if k < 0 {
      MultipleAtLeast(-k, step);
    }
  }

  lemma MultipleAtLeast(n: int, step: int)
    requires n >= 0 && step > 0
    ensures n * step >= n && (-n) * step <= -n
  {
  }

  lemma BoundedRangeMeetsGrid(def: PropertyDefinition) returns (y: real)
    requires GridStep(def) > 0 && def.min.Some? && def.max.Some? && GridMeetsRange(def)
    ensures OnOwnGrid(def, Round(y)) && NearInteger(y) && InScaledRange(def, y)
  {
    var p := EffectivePrecision(def);
    var a, b, step := Scaled(def.min.value, p), Scaled(def.max.value, p), GridStep(def);
    y := ReachedIsMet(a, b, step);
    var k :| Round(y) == GridPoint(Round(a), step, k);
    assert Round(y) == GridPoint(Anchor(def, p), step, k);
  }

  lemma AcceptingMeetsGrid(def: PropertyDefinition, value: real)
    requires CheckNumber(def, value).None?
    ensures StepCounts(def) && GridMeetsRange(def)
  {
    var p := EffectivePrecision(def);
    AcceptedOnOwnGrid(def, value);
    StepCountsExactly(def);
    if def.min.Some? && def.max.Some? {
      ScaledOrder(def.min.value, value, p);
      ScaledOrder(value, def.max.value, p);
      var k :| Round(Scaled(value, p)) == GridPoint(Anchor(def, p), GridStep(def), k);
      assert Round(Scaled(value, p)) == GridPoint(Round(Scaled(def.min.value, p)), GridStep(def), k);
      MetIsReached(Scaled(def.min.value, p), Scaled(def.max.value, p), GridStep(def), Scaled(value, p));
    }
  }

  lemma MeetingGridAccepts(def: PropertyDefinition) returns (value: real)
    requires StepCounts(def) && GridMeetsRange(def)
    ensures CheckNumber(def, value).None?
  {
    StepCountsExactly(def);
    var y: real;
    if def.min.Some? && def.max.Some? {
      y := BoundedRangeMeetsGrid(def);
    } else {
      y := OpenRangeMeetsGrid(def);
    }
    value := GridUnitAccepted(def, y);
  }

  /**
   * A property accepts some number exactly when its step, if it has one, is at least half a last-place
   * unit and, if both bounds are given, its grid is met between them.
   */
  lemma AcceptsSomeNumberExactly(def: PropertyDefinition)
    ensures (exists value :: CheckNumber(def, value).None?) <==> StepCounts(def) && GridMeetsRange(def)
  {
    if value :| CheckNumber(def, value).None? {
      AcceptingMeetsGrid(def, value);
    } else if StepCounts(def) && GridMeetsRange(def) {
      var value := MeetingGridAccepts(def);
    }
  }

  // ----- on published properties -----

  /** The bounds and the step of a published integer property are whole, and so are its last-place units. */
  lemma IntegersNeedNoDecimals(body: Fields, requireAccessMode: bool, overflow: int)
    requires ValidParam(body, requireAccessMode) && StringField(body, "data_type") == "int"
    ensures
      var def := ParseProperty(body, overflow);
      && EffectivePrecision(def) == 0
      && (def.min.Some? ==> Integral(def.min.value))
      && (def.step.Some? ==> Integral(def.step.value) && def.step.value > 0.0)
      && (def.min.Some? && def.max.Some? ==> def.min.value <= def.max.value)
  {
    var def := ParseProperty(body, overflow);
    if "spec" in body {
      SpecReadsAlike(body["spec"].fields);
    }
    if def.precision.None? {
      WholeBoundHasNoDigits(def.min);
      WholeBoundHasNoDigits(def.max);
      WholeBoundHasNoDigits(def.step);
    }
    WholeIsIntegral(def.min);
    WholeIsIntegral(def.step);
  }

  lemma WholeIsIntegral(bound: Option<real>)
    requires Whole(bound)
    ensures bound.Some? ==> Integral(bound.value)
  {
  }

  lemma WholeBoundHasNoDigits(bound: Option<real>)
    requires Whole(bound)
    ensures DigitsOf(bound) == 0
  {
    if bound.Some? {
      var size := Abs(bound.value);
      assert Scaled(size, 0) == size && Integral(size);
      IntegralRounds(size);
      assert NearAt(bound.value, 0);
    }
  }

  lemma IntegersAreAccepted(body: Fields, requireAccessMode: bool, overflow: int) returns (value: real)
    requires ValidParam(body, requireAccessMode) && StringField(body, "data_type") == "int"
    ensures Integral(value) && CheckNumber(ParseProperty(body, overflow), value).None?
  {
    var def := ParseProperty(body, overflow);
    IntegersNeedNoDecimals(body, requireAccessMode, overflow);
    StepAtLeastOne(def);
    StepCountsExactly(def);
    var y: real;
    if def.min.Some? && def.max.Some? {
      y := def.min.value;
      IntegralRounds(y);
      FirstPoints(Anchor(def, 0), GridStep(def));
      assert Scaled(def.min.value, 0) == y && Scaled(def.max.value, 0) == def.max.value;
      assert Round(y) == GridPoint(Anchor(def, 0), GridStep(def), 0);
    } else {
      y := OpenRangeMeetsGrid(def);
    }
    value := GridUnitAccepted(def, y);
    assert Scaled(value, 0) == value;
  }

  lemma StepAtLeastOne(def: PropertyDefinition)
    requires EffectivePrecision(def) == 0
    requires def.step.Some? ==> Integral(def.step.value) && def.step.value > 0.0
    ensures StepCounts(def)
  {
    if def.step.Some? {
      assert Scaled(def.step.value, 0) == def.step.value;
    }
  }

  ghost predicate AcceptsSomeValue(def: PropertyDefinition) {
    exists value :: CheckValue(def, value).None?
  }

  predicate Fractional(dataType: string) {
    dataType == "float" || dataType == "double"
  }

  lemma FractionalAcceptsExactly(def: PropertyDefinition)
    requires Fractional(def.dataType)
    ensures AcceptsSomeValue(def) <==> StepCounts(def) && GridMeetsRange(def)
  {
    AcceptsSomeNumberExactly(def);
    if value :| CheckValue(def, value).None? {
      assert CheckNumber(def, value.number).None?;
    }
    if number :| CheckNumber(def, number).None? {
      assert CheckValue(def, Number(number)).None?;
    }
  }

  lemma OthersAccept(def: PropertyDefinition)
    requires def.dataType == "bool" || def.dataType == "string"
    ensures AcceptsSomeValue(def)
  {
    assert CheckValue(def, if def.dataType == "bool" then Bool(true) else String("")).None?;
  }

  lemma IntegersAccept(body: Fields, requireAccessMode: bool, overflow: int)
    requires ValidParam(body, requireAccessMode) && StringField(body, "data_type") == "int"
    ensures AcceptsSomeValue(ParseProperty(body, overflow))
  {
    var number := IntegersAreAccepted(body, requireAccessMode, overflow);
    IntegralIsTruncated(number);
    assert CheckValue(ParseProperty(body, overflow), Number(number)).None?;
  }

  lemma IntegralIsTruncated(x: real)
    requires Integral(x)
    ensures Trunc(x) as real == x
  {
    FloorOfInteger(x.Floor);
    FloorOfInteger(-x.Floor);
    assert -x == (-x.Floor) as real;
  }

  /**
   * A published property accepts some value, except exactly when it is fractional and its step vanishes
   * or its grid is missed between its bounds.
   */
  lemma PublishedAcceptsExactly(body: Fields, requireAccessMode: bool, overflow: int)
    requires ValidParam(body, requireAccessMode)
    ensures
      var def := ParseProperty(body, overflow);
      AcceptsSomeValue(def) <==> (Fractional(def.dataType) ==> StepCounts(def) && GridMeetsRange(def))
  {
    var def := ParseProperty(body, overflow);
    assert def.dataType == StringField(body, "data_type");
    if Fractional(def.dataType) {
      FractionalAcceptsExactly(def);
    } else if def.dataType == "int" {
      IntegersAccept(body, requireAccessMode, overflow);
    } else {
      OthersAccept(def);
    }
  }

  // ----- published properties that accept nothing -----

  /** A fractional property with a precision of 0 and the given limits. */
  function Coarse(limits: Fields): Fields {
    map["name" := String("x"), "data_type" := String("float"), "required" := Bool(true),
        "spec" := Object(limits["precision" := Number(0.0)])]
  }

  lemma CoarseSpec(limits: Fields)
    requires limits.Keys <= {"min", "max", "step"} && forall key :: key in limits ==> limits[key].Number?
    ensures
      ReadNumberSpec(limits["precision" := Number(0.0)]) ==
      Success(NumberSpec(NumberIn(limits, "min"), NumberIn(limits, "max"), NumberIn(limits, "step"), Some(0.0)))
  {
  }

  lemma CoarseIsPublished(limits: Fields, overflow: int)
    requires limits.Keys <= {"min", "max", "step"} && forall key :: key in limits ==> limits[key].Number?
    requires "min" in limits && "max" in limits ==> limits["min"].number <= limits["max"].number
    requires "step" in limits ==> limits["step"].number > 0.0
    ensures ValidParam(Coarse(limits), false)
    ensures
      ParseProperty(Coarse(limits), overflow) ==
      PropertyDefinition(
        "float", true, NumberIn(limits, "min"), NumberIn(limits, "max"), NumberIn(limits, "step"), Some(0))
  {
    CoarseSpec(limits);
    SpecReadsAlike(limits["precision" := Number(0.0)]);
    WordIsTrimmed("float");
    WordIsTrimmed("x");
    var body := Coarse(limits);
    assert StringField(body, "data_type") == "float" && HasName(body);
  }

  /** Between 0.2 and 0.8 there is no whole number, and a step of 0.4 counts for none; both are published. */
  lemma PublishedRefusesEverything(missed: bool, overflow: int) returns (body: Fields)
    ensures ValidParam(body, false) && !AcceptsSomeValue(ParseProperty(body, overflow))
    ensures missed ==> ParseProperty(body, overflow).step.None?
    ensures !missed ==> ParseProperty(body, overflow).min.None? && ParseProperty(body, overflow).max.None?
  {
    var limits: Fields := if missed then map["min" := Number(0.2), "max" := Number(0.8)]
        else map["step" := Number(0.4)];
    body := Coarse(limits);
    CoarseIsPublished(limits, overflow);
    var def := ParseProperty(body, overflow);
    FractionalAcceptsExactly(def);
    assert Scaled(0.2, 0) == 0.2 && Scaled(0.8, 0) == 0.8 && Scaled(0.4, 0) == 0.4;
    assert Round(0.2) == 0 && Round(0.8) == 1;
  }
}
