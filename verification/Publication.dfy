/** The backend's well-formedness test on a thing model, applied before it is stored. */
module Publication {
  import opened Numbers
  import opened Wrappers
  import opened Text
  import opened Json
  import opened CallCheck

  const DATA_TYPES: seq<string> := ["int", "float", "double", "bool", "string"]
  const NUMERIC_DATA_TYPES: seq<string> := ["int", "float", "double"]
  const ACCESS_MODES: seq<string> := ["read", "write", "readwrite"]
  const EVENT_LEVELS: seq<string> := ["info", "warning", "error"]
  const CALL_TYPES: seq<string> := ["sync", "async"]

  predicate Whole(bound: Option<real>) {
    bound.Some? ==> Trunc(bound.value) as real == bound.value
  }

  predicate ValidUnit(spec: Fields) {
    "unit" in spec ==> spec["unit"].String? && TrimSpace(spec["unit"].text) != ""
  }

  predicate ValidNumbers(dataType: string, n: NumberSpec) {
    && (n.min.Some? || n.max.Some? || n.step.Some? || n.precision.Some? ==> dataType in NUMERIC_DATA_TYPES)
    && (n.min.Some? && n.max.Some? ==> n.min.value <= n.max.value)
    && (n.step.Some? ==> n.step.value > 0.0)
    && (n.precision.Some? ==> n.precision.value >= 0.0 && Whole(n.precision))
    && (n.precision.Some? && dataType == "int" ==> n.precision.value == 0.0)
    && (dataType == "int" ==> Whole(n.min) && Whole(n.max) && Whole(n.step))
  }

  predicate ValidSpec(dataType: string, spec: Fields) {
    var numbers := ReadNumberSpec(spec);
    numbers.Success? && ValidUnit(spec) && ValidNumbers(dataType, numbers.value)
  }

  predicate HasName(def: Fields) {
    Field(def, "name").String? && TrimSpace(def["name"].text) != ""
  }

  predicate ValidParam(def: Fields, requireAccessMode: bool) {
    && HasName(def)
    && StringField(def, "data_type") in DATA_TYPES
    && Field(def, "required").Bool?
    && (requireAccessMode ==> StringField(def, "access_mode") in ACCESS_MODES)
    && ("spec" in def ==> def["spec"].Object? && ValidSpec(StringField(def, "data_type"), def["spec"].fields))
  }

  predicate ValidParams(params: Fields, requireAccessMode: bool) {
    forall id :: id in params ==>
      Identifier(id) && params[id].Object? && ValidParam(params[id].fields, requireAccessMode)
  }

  predicate ValidDescription(def: Fields) {
    "desc" in def ==> def["desc"].String?
  }

  predicate ValidParamObject(def: Fields, key: string) {
    Field(def, key).Object? && ValidParams(def[key].fields, false)
  }

  predicate ValidEvent(def: Fields) {
    && HasName(def)
    && StringField(def, "level") in EVENT_LEVELS
    && ValidDescription(def)
    && ValidParamObject(def, "output")
  }

  predicate ValidService(def: Fields) {
    && HasName(def)
    && StringField(def, "call_type") in CALL_TYPES
    && ValidDescription(def)
    && ValidParamObject(def, "input")
    && ValidParamObject(def, "output")
  }

  predicate ValidEvents(events: Fields) {
    forall id :: id in events ==> Identifier(id) && events[id].Object? && ValidEvent(events[id].fields)
  }

  predicate ValidServices(services: Fields) {
    forall id :: id in services ==> Identifier(id) && services[id].Object? && ValidService(services[id].fields)
  }

  predicate ValidModel(properties: Fields, events: Fields, services: Fields) {
    ValidParams(properties, true) && ValidEvents(events) && ValidServices(services)
  }

  // ----- every way to be refused -----

  /** The choices that may be published. */
  lemma ChoicesExactly(s: string)
    ensures s in DATA_TYPES <==> s == "int" || s == "float" || s == "double" || s == "bool" || s == "string"
    ensures s in NUMERIC_DATA_TYPES <==> s == "int" || s == "float" || s == "double"
    ensures s in ACCESS_MODES <==> s == "read" || s == "write" || s == "readwrite"
    ensures s in EVENT_LEVELS <==> s == "info" || s == "warning" || s == "error"
    ensures s in CALL_TYPES <==> s == "sync" || s == "async"
  {
    assert DATA_TYPES[0] == "int" && DATA_TYPES[1] == "float" && DATA_TYPES[2] == "double";
    assert DATA_TYPES[3] == "bool" && DATA_TYPES[4] == "string";
    assert NUMERIC_DATA_TYPES[0] == "int" && NUMERIC_DATA_TYPES[1] == "float" && NUMERIC_DATA_TYPES[2] == "double";
    assert ACCESS_MODES[0] == "read" && ACCESS_MODES[1] == "write" && ACCESS_MODES[2] == "readwrite";
    assert EVENT_LEVELS[0] == "info" && EVENT_LEVELS[1] == "warning" && EVENT_LEVELS[2] == "error";
    assert CALL_TYPES[0] == "sync" && CALL_TYPES[1] == "async";
  }

  /** A text that is absent, no string, or blank. */
  predicate Nameless(def: Fields) {
    "name" !in def || !def["name"].String? || TrimSpace(def["name"].text) == ""
  }

  ghost predicate Fraction(bound: Option<real>) {
    bound.Some? && !exists n :: EqualsInteger(bound.value, n)
  }

  /** What can be wrong with limits that are numbers. */
  ghost predicate BadLimits(dataType: string, n: NumberSpec) {
    || ((n.min.Some? || n.max.Some? || n.step.Some? || n.precision.Some?) &&
        dataType != "int" && dataType != "float" && dataType != "double")
    || (n.min.Some? && n.max.Some? && n.min.value > n.max.value)
    || (n.step.Some? && n.step.value <= 0.0)
    || (n.precision.Some? && n.precision.value < 0.0)
    || Fraction(n.precision)
    || (dataType == "int" &&
        ((n.precision.Some? && n.precision.value != 0.0) || Fraction(n.min) || Fraction(n.max) || Fraction(n.step)))
  }

  lemma WholeOrFraction(bound: Option<real>)
    ensures Whole(bound) <==> !Fraction(bound)
  {
    if bound.Some? {
      WholeExactly(bound.value);
    }
  }

  lemma LimitsRefusedExactly(dataType: string, n: NumberSpec)
    ensures !ValidNumbers(dataType, n) <==> BadLimits(dataType, n)
  {
    ChoicesExactly(dataType);
    WholeOrFraction(n.min);
    WholeOrFraction(n.max);
    WholeOrFraction(n.step);
    WholeOrFraction(n.precision);
  }

  /** What can be wrong with a specification: a limit that is no number, a unit that is no text, or the limits. */
  ghost predicate BadSpec(dataType: string, spec: Fields) {
    || !Readable(spec, "min") || !Readable(spec, "max") || !Readable(spec, "step") || !Readable(spec, "precision")
    || ("unit" in spec && (!spec["unit"].String? || TrimSpace(spec["unit"].text) == ""))
    || BadLimits(
         dataType, NumberSpec(Limit(spec, "min"), Limit(spec, "max"), Limit(spec, "step"), Limit(spec, "precision")))
  }

  lemma SpecRefusedExactly(dataType: string, spec: Fields)
    ensures !ValidSpec(dataType, spec) <==> BadSpec(dataType, spec)
  {
    LimitsReadExactly(spec);
    LimitsRefusedExactly(
      dataType, NumberSpec(Limit(spec, "min"), Limit(spec, "max"), Limit(spec, "step"), Limit(spec, "precision")));
  }

  /** A definition is refused exactly for its name, data type, flag, access mode or specification. */
  lemma ParamRefusedExactly(def: Fields, requireAccessMode: bool)
    ensures
      var dataType, mode := StringField(def, "data_type"), StringField(def, "access_mode");
      !ValidParam(def, requireAccessMode) <==>
      || Nameless(def)
      || (dataType != "int" && dataType != "float" && dataType != "double" && dataType != "bool" &&
           dataType != "string")
      || "required" !in def || !def["required"].Bool?
      || (requireAccessMode && mode != "read" && mode != "write" && mode != "readwrite")
      || ("spec" in def && (!def["spec"].Object? || BadSpec(dataType, def["spec"].fields)))
  {
    ChoicesExactly(StringField(def, "data_type"));
    ChoicesExactly(StringField(def, "access_mode"));
    if "spec" in def && def["spec"].Object? {
      SpecRefusedExactly(StringField(def, "data_type"), def["spec"].fields);
    }
  }

  /** A parameter table is refused for a missing object, a bad identifier or a refused definition. */
  ghost predicate BadTable(def: Fields, key: string) {
    || key !in def || !def[key].Object?
    || exists id ::
         && id in def[key].fields
         && (!Identifier(id) || !def[key].fields[id].Object? || !ValidParam(def[key].fields[id].fields, false))
  }

  /** An event is refused exactly for its name, level, description or output. */
  lemma EventRefusedExactly(def: Fields)
    ensures
      var level := StringField(def, "level");
      !ValidEvent(def) <==>
      || Nameless(def)
      || (level != "info" && level != "warning" && level != "error")
      || ("desc" in def && !def["desc"].String?)
      || BadTable(def, "output")
  {
    ChoicesExactly(StringField(def, "level"));
  }

  /** A service is refused exactly for its name, call type, description, input or output. */
  lemma ServiceRefusedExactly(def: Fields)
    ensures
      var callType := StringField(def, "call_type");
      !ValidService(def) <==>
      || Nameless(def)
      || (callType != "sync" && callType != "async")
      || ("desc" in def && !def["desc"].String?)
      || BadTable(def, "input")
      || BadTable(def, "output")
  {
    ChoicesExactly(StringField(def, "call_type"));
  }

  /** A model is refused exactly for an entry that is no object, has a bad identifier or is refused itself. */
  lemma ModelRefusedExactly(properties: Fields, events: Fields, services: Fields)
    ensures
      !ValidModel(properties, events, services) <==>
      || (exists id :: id in properties &&
           (!Identifier(id) || !properties[id].Object? || !ValidParam(properties[id].fields, true)))
      || (exists id :: id in events && (!Identifier(id) || !events[id].Object? || !ValidEvent(events[id].fields)))
      || (exists id :: id in services &&
           (!Identifier(id) || !services[id].Object? || !ValidService(services[id].fields)))
  {
  }
}
