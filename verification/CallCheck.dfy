/** The backend's check of values sent to devices: property sets and service calls. */
module CallCheck {
  import opened Numbers
  import opened Wrappers
  import opened Text
  import opened Json
  import opened GridCheck

  datatype NumberSpec = NumberSpec(min: Option<real>, max: Option<real>, step: Option<real>, precision: Option<real>)

  /** The four numeric fields; a field that is present but not a number is an error. */
  function ReadNumberSpec(spec: Fields): Result<NumberSpec, string> {
    match NumberField(spec, "min")
    case Failure(key) => Failure(key)
    case Success(min) =>
      match NumberField(spec, "max")
      case Failure(key) => Failure(key)
      case Success(max) =>
        match NumberField(spec, "step")
        case Failure(key) => Failure(key)
        case Success(step) =>
          match NumberField(spec, "precision")
          case Failure(key) => Failure(key)
          case Success(precision) => Success(NumberSpec(min, max, step, precision))
  }

  predicate PrecisionHolds(precision: real, value: real) {
    && precision >= 0.0
    && Trunc(precision) as real == precision
    && NearInteger(Scaled(value, Trunc(precision)))
  }

  predicate StepHolds(step: real, anchor: real, value: real) {
    step > 0.0 && NearInteger((value - anchor) / step)
  }

  predicate NumberFits(spec: NumberSpec, value: real) {
    && (spec.min.Some? ==> value >= spec.min.value)
    && (spec.max.Some? ==> value <= spec.max.value)
    && (spec.precision.Some? ==> PrecisionHolds(spec.precision.value, value))
    && (spec.step.Some? ==> StepHolds(spec.step.value, if spec.min.Some? then spec.min.value else 0.0, value))
  }

  predicate NumberAccepted(dataType: string, spec: Fields, value: real) {
    var numbers := ReadNumberSpec(spec);
    && numbers.Success?
    && NumberFits(numbers.value, value)
    && (dataType == "int" ==> Trunc(value) as real == value)
  }

  predicate ValueAccepted(def: Fields, value: Value) {
    var dataType := StringField(def, "data_type");
    var spec := ObjectField(def, "spec");
    if dataType == "int" then
      value.Number? && Trunc(value.number) as real == value.number && NumberAccepted(dataType, spec, value.number)
    else if dataType == "float" || dataType == "double" then
      value.Number? && NumberAccepted(dataType, spec, value.number)
    else if dataType == "bool" then value.Bool?
    else if dataType == "string" then value.String?
    else false
  }

  // ----- what the check means -----

  /** A limit is absent, a number, or an error; nothing else is read. */
  predicate Readable(spec: Fields, key: string) {
    key in spec ==> spec[key].Number?
  }

  function Limit(spec: Fields, key: string): Option<real> {
    if key in spec && spec[key].Number? then Some(spec[key].number) else None
  }

  /** The limits are read exactly when none of them holds anything but a number, and then as they stand. */
  lemma LimitsReadExactly(spec: Fields)
    ensures ReadNumberSpec(spec).Success? <==>
            Readable(spec, "min") && Readable(spec, "max") && Readable(spec, "step") && Readable(spec, "precision")
    ensures ReadNumberSpec(spec).Success? ==>
              ReadNumberSpec(spec).value ==
              NumberSpec(Limit(spec, "min"), Limit(spec, "max"), Limit(spec, "step"), Limit(spec, "precision"))
  {
  }

  /** Some integer is within the tolerance. */
  ghost predicate Tolerable(y: real) {
    exists n :: Within(y, n)
  }

  /** Exactly the numbers that fit, with the tolerance written out and for every number, whole units or not. */
  lemma NumberFitsExactly(spec: NumberSpec, value: real)
    ensures
      NumberFits(spec, value) <==>
      && (spec.min.Some? ==> spec.min.value <= value)
      && (spec.max.Some? ==> value <= spec.max.value)
      && (spec.precision.Some? ==>
           exists digits: nat :: EqualsInteger(spec.precision.value, digits) && Tolerable(Scaled(value, digits)))
      && (spec.step.Some? ==>
           && spec.step.value > 0.0
           && Tolerable((value - if spec.min.Some? then spec.min.value else 0.0) / spec.step.value))
  {
    if spec.precision.Some? {
      PrecisionHoldsExactly(spec.precision.value, value);
    }
    if spec.step.Some? && spec.step.value > 0.0 {
      NearIntegerExactly((value - if spec.min.Some? then spec.min.value else 0.0) / spec.step.value);
    }
  }

  lemma PrecisionHoldsExactly(precision: real, value: real)
    ensures PrecisionHolds(precision, value) <==>
            exists digits: nat :: EqualsInteger(precision, digits) && Tolerable(Scaled(value, digits))
  {
    WholeExactly(precision);
    if PrecisionHolds(precision, value) {
      NearIntegerExactly(Scaled(value, Trunc(precision)));
      assert EqualsInteger(precision, Trunc(precision)) && Tolerable(Scaled(value, Trunc(precision)));
    }
    if digits: nat :| EqualsInteger(precision, digits) && Tolerable(Scaled(value, digits)) {
      FloorOfInteger(digits);
      NearIntegerExactly(Scaled(value, digits));
    }
  }

  /** Each data type admits its own kind of value, and numbers are then checked against readable limits. */
  lemma ValueAcceptedExactly(def: Fields, value: Value)
    ensures
      var dataType := StringField(def, "data_type");
      var numbers := ReadNumberSpec(ObjectField(def, "spec"));
      ValueAccepted(def, value) <==>
      match value
      case Bool(_) => dataType == "bool"
      case String(_) => dataType == "string"
      case Number(x) =>
        && (dataType == "int" || dataType == "float" || dataType == "double")
        && (dataType == "int" ==> exists n :: EqualsInteger(x, n))
        && numbers.Success? && NumberFits(numbers.value, x)
      case _ => false
  {
    if value.Number? {
      WholeExactly(value.number);
    }
  }

  // ----- the two request loops -----

  datatype CallError = InvalidDeviceInput | DeviceServiceNotFound

  predicate Writable(def: Fields) {
    StringField(def, "access_mode") in ["write", "readwrite"]
  }

  predicate SettableTo(properties: Fields, name: string, value: Value) {
    && Identifier(name)
    && Field(properties, name).Object?
    && Writable(properties[name].fields)
    && ValueAccepted(properties[name].fields, value)
  }

  /** The loop both requests share: stop at the first entry that does not fit, otherwise copy them all. */
  method AcceptEntries(request: Fields, fits: (string, Value) -> bool) returns (r: Option<Fields>)
    ensures r.Some? <==> forall name :: name in request ==> fits(name, request[name])
    ensures r.Some? ==> r.value == request
  {
    var accepted: Fields := map[];
    var rest := request.Keys;
    while rest != {}
      invariant rest <= request.Keys
      invariant accepted == map name | name in request.Keys - rest :: request[name]
      invariant forall name :: name in accepted ==> fits(name, request[name])
      decreases |rest|
    {
      var name :| name in rest;
      if !fits(name, request[name]) {
        return None;
      }
      accepted := accepted[name := request[name]];
      rest := rest - {name};
    }
    return Some(accepted);
  }

  /** A request is accepted whole, exactly when it is non-empty and every entry is settable. */
  method ValidatePropertySet(properties: Fields, request: Fields) returns (r: Result<Fields, CallError>)
    ensures r.Success? <==> request != map[] && forall name :: name in request ==>
        SettableTo(properties, name, request[name])
    ensures r.Success? ==> r.value == request
    ensures r.Failure? ==> r.error == InvalidDeviceInput
  {
    if request == map[] {
      return Failure(InvalidDeviceInput);
    }
    var fits := (name, value) => SettableTo(properties, name, value);
    var accepted := AcceptEntries(request, fits);
    assert forall name :: name in request ==>
        (fits(name, request[name]) <==> SettableTo(properties, name, request[name]));
    return if accepted.Some? then Success(accepted.value) else Failure(InvalidDeviceInput);
  }

  predicate CallableWith(inputs: Fields, name: string, value: Value) {
    && Identifier(name)
    && Field(inputs, name).Object?
    && ValueAccepted(inputs[name].fields, value)
  }

  predicate Required(def: Value) {
    def.Object? && Field(def.fields, "required") == Bool(true)
  }

  /** The declared inputs of a service. */
  function InputsOf(service: Value): Option<Fields> {
    if service.Object? && Field(service.fields, "input").Object? then Some(ObjectField(service.fields, "input"))
    else None
  }

  /** Every entry is declared and valid, every declaration is an object, and nothing required is missing. */
  ghost predicate InputFits(inputs: Fields, request: Fields) {
    && (forall name :: name in request ==> CallableWith(inputs, name, request[name]))
    && (forall name :: name in inputs ==> inputs[name].Object?)
    && (forall name :: name in inputs && Required(inputs[name]) ==> name in request)
  }

  method ValidateServiceInput(serviceName: string, services: Fields, request: Fields)
    returns (r: Result<Fields, CallError>)
    ensures r.Success? <==>
            && serviceName in services
            && InputsOf(services[serviceName]).Some?
            && InputFits(InputsOf(services[serviceName]).value, request)
    ensures r.Success? ==> r.value == request
    ensures r.Failure? ==> (r.error == DeviceServiceNotFound <==> serviceName !in services)
  {
    if serviceName !in services {
      return Failure(DeviceServiceNotFound);
    }
    var declared := InputsOf(services[serviceName]);
    if declared.None? {
      return Failure(InvalidDeviceInput);
    }
    var inputs := declared.value;
    var fits := (name, value) => CallableWith(inputs, name, value);
    var copied := AcceptEntries(request, fits);
    assert forall name :: name in request ==>
        (fits(name, request[name]) <==> CallableWith(inputs, name, request[name]));
    if copied.None? {
      return Failure(InvalidDeviceInput);
    }
    var complete := NothingMissing(inputs, copied.value);
    return if complete then Success(copied.value) else Failure(InvalidDeviceInput);
  }

  /** The loop over the declarations: each is an object, and none is required and absent. */
  method NothingMissing(inputs: Fields, accepted: Fields) returns (complete: bool)
    ensures complete <==>
            forall name :: name in inputs ==> inputs[name].Object? && (Required(inputs[name]) ==> name in accepted)
  {
    var rest := inputs.Keys;
    while rest != {}
      invariant rest <= inputs.Keys
      invariant forall name :: name in inputs.Keys - rest ==>
                  inputs[name].Object? && (Required(inputs[name]) ==> name in accepted)
      decreases |rest|
    {
      var name :| name in rest;
      if !inputs[name].Object? || (Required(inputs[name]) && name !in accepted) {
        return false;
      }
      rest := rest - {name};
    }
    return true;
  }

  // ----- what the requests mean -----

  /** A declaration can be set exactly when its trimmed access mode says so. */
  lemma WritableExactly(def: Fields)
    ensures
      Writable(def) <==>
      StringField(def, "access_mode") == "write" || StringField(def, "access_mode") == "readwrite"
  {
    assert ["write", "readwrite"][0] == "write" && ["write", "readwrite"][1] == "readwrite";
  }

  /** Exactly the entries a property set may hold. */
  lemma SettableExactly(properties: Fields, name: string, value: Value)
    ensures
      SettableTo(properties, name, value) <==>
      && Identifier(name) && name in properties && properties[name].Object?
      && (StringField(properties[name].fields, "access_mode") == "write"
          || StringField(properties[name].fields, "access_mode") == "readwrite")
      && ValueAccepted(properties[name].fields, value)
  {
    if name in properties && properties[name].Object? {
      WritableExactly(properties[name].fields);
    }
  }

  /** Exactly the entries the input of a call may hold: any declared input, whatever its access mode. */
  lemma CallableExactly(inputs: Fields, name: string, value: Value)
    ensures
      CallableWith(inputs, name, value) <==>
      Identifier(name) && name in inputs && inputs[name].Object? && ValueAccepted(inputs[name].fields, value)
  {
  }

  /** The inputs a service declares are the object under "input", and without one it cannot be called. */
  lemma InputsAreDeclared(service: Value, inputs: Fields)
    ensures InputsOf(service) == Some(inputs) <==>
            service.Object? && "input" in service.fields && service.fields["input"] == Object(inputs)
  {
  }

  /** An input is required exactly when its declaration says true. */
  lemma RequiredExactly(def: Value)
    ensures Required(def) <==>
            def.Object? && "required" in def.fields && def.fields["required"].Bool? && def.fields["required"].flag
  {
  }

  /** A call that leaves out a required input is refused. */
  lemma MissingRequiredIsRefused(inputs: Fields, request: Fields, name: string)
    requires name in inputs && inputs[name].Object? && name !in request
    requires "required" in inputs[name].fields && inputs[name].fields["required"] == Bool(true)
    ensures !InputFits(inputs, request)
  {
    RequiredExactly(inputs[name]);
  }
}
