/** The processor's parser of stored thing models, and its contract with the publication test. */
module Definition {
  import opened Numbers
  import opened Wrappers
  import opened Text
  import opened Json
  import opened GridCheck
  import opened CallCheck
  import opened Publication

  type Definitions = map<string, PropertyDefinition>

  datatype ThingsModel = ThingsModel(
    properties: Definitions, events: map<string, Definitions>, services: map<string, Definitions>)

  datatype ParseError = NotAnObjectMap | OutputNotObject(identifier: string, param: string)

  const INT64_LIMIT := 9223372036854775808.0

  /**
   * Go's `int(x)` on a 64-bit platform. Out of range the language leaves the result to the
   * implementation, which is what `overflow` stands for.
   */
  function ToInt64(x: real, overflow: int): int {
    if -INT64_LIMIT <= x < INT64_LIMIT then Trunc(x) else overflow
  }

  /** An integer of 64 bits is kept, any other is left to the platform. */
  lemma IntegersConvertExactly(n: int, overflow: int)
    ensures ToInt64(n as real, overflow) ==
            if -9223372036854775808 <= n <= 9223372036854775807 then n else overflow
  {
    FloorOfInteger(n);
  }

  function NumberIn(spec: Fields, key: string): Option<real> {
    var value := Field(spec, key);
    if value.Number? then Some(value.number) else None
  }

  function ParseProperty(body: Fields, overflow: int): PropertyDefinition {
    var spec := ObjectField(body, "spec");
    var precision := NumberIn(spec, "precision");
    PropertyDefinition(
      StringField(body, "data_type"),
      Field(body, "required") == Bool(true),
      NumberIn(spec, "min"),
      NumberIn(spec, "max"),
      NumberIn(spec, "step"),
      if precision.Some? then Some(ToInt64(precision.value, overflow)) else None)
  }

  /** Decoding into a map of objects: JSON null stands for an empty object. */
  function ObjectMap(raw: Value): Option<map<string, Fields>> {
    match raw
    case Null => Some(map[])
    case Object(fields) =>
      if forall id :: id in fields ==> fields[id].Object? || fields[id].Null? then
        Some(map id | id in fields :: if fields[id].Object? then fields[id].fields else map[])
      else None
    case _ => None
  }

  /** Bodies are decoded from null or an object of nulls and objects, null standing for an empty object. */
  lemma ObjectMapExactly(raw: Value)
    ensures ObjectMap(raw).Some? <==>
            raw.Null? || (raw.Object? && forall id :: id in raw.fields ==>
                raw.fields[id].Object? || raw.fields[id].Null?)
    ensures ObjectMap(raw).Some? && raw.Null? ==> ObjectMap(raw).value == map[]
    ensures ObjectMap(raw).Some? && raw.Object? ==>
              && ObjectMap(raw).value.Keys == raw.fields.Keys
              && forall id :: id in raw.fields ==>
                   ObjectMap(raw).value[id] == if raw.fields[id].Object? then raw.fields[id].fields else map[]
  {
  }

  /** What a definition is parsed to, field by field; anything of the wrong kind counts as absent. */
  lemma ParsedExactly(body: Fields, overflow: int)
    ensures
      var def := ParseProperty(body, overflow);
      var spec := ObjectField(body, "spec");
      && def.dataType == StringField(body, "data_type")
      && (def.required <==> "required" in body && body["required"].Bool? && body["required"].flag)
      && def.min == Limit(spec, "min") && def.max == Limit(spec, "max") && def.step == Limit(spec, "step")
      && (def.precision.Some? <==> Limit(spec, "precision").Some?)
  {
  }

  predicate OutputsAreObjects(body: Fields) {
    var output := ObjectField(body, "output");
    forall param :: param in output ==> output[param].Object?
  }

  function ParsedOutput(body: Fields, overflow: int): Definitions
    requires OutputsAreObjects(body)
  {
    var output := ObjectField(body, "output");
    map param | param in output :: ParseProperty(output[param].fields, overflow)
  }

  method ParseOutput(identifier: string, body: Fields, overflow: int) returns (r: Result<Definitions, ParseError>)
    ensures r.Success? <==> OutputsAreObjects(body)
    ensures r.Success? ==> r.value == ParsedOutput(body, overflow)
    ensures r.Failure? ==> r.error.OutputNotObject? && r.error.identifier == identifier
  {
    var raw := ObjectField(body, "output");
    var output: Definitions := map[];
    var rest := raw.Keys;
    while rest != {}
      invariant rest <= raw.Keys
      invariant forall param :: param in raw.Keys - rest ==> raw[param].Object?
      invariant output == map param | param in raw.Keys - rest :: ParseProperty(raw[param].fields, overflow)
      decreases |rest|
    {
      var param :| param in rest;
      if !raw[param].Object? {
        return Failure(OutputNotObject(identifier, param));
      }
      output := output[param := ParseProperty(raw[param].fields, overflow)];
      rest := rest - {param};
    }
    return Success(output);
  }

  /** A section that holds outputs: events or services. Absent bytes mean an empty section. */
  ghost predicate SectionParses(raw: Option<Value>) {
    raw.Some? ==>
      && ObjectMap(raw.value).Some?
      && forall id :: id in ObjectMap(raw.value).value ==> OutputsAreObjects(ObjectMap(raw.value).value[id])
  }

  ghost function ParsedSection(raw: Option<Value>, overflow: int): map<string, Definitions>
    requires SectionParses(raw)
  {
    if raw.None? then map[]
    else
      var bodies := ObjectMap(raw.value).value;
      map id | id in bodies :: ParsedOutput(bodies[id], overflow)
  }

  method ParseSection(raw: Option<Value>, overflow: int) returns (r: Result<map<string, Definitions>, ParseError>)
    ensures r.Success? <==> SectionParses(raw)
    ensures r.Success? ==> r.value == ParsedSection(raw, overflow)
  {
    if raw.None? {
      return Success(map[]);
    }
    var decoded := ObjectMap(raw.value);
    if decoded.None? {
      return Failure(NotAnObjectMap);
    }
    var bodies := decoded.value;
    var section: map<string, Definitions> := map[];
    var rest := bodies.Keys;
    while rest != {}
      invariant rest <= bodies.Keys
      invariant forall id :: id in bodies.Keys - rest ==> OutputsAreObjects(bodies[id])
      invariant section == map id | id in bodies.Keys - rest :: ParsedOutput(bodies[id], overflow)
      decreases |rest|
    {
      var id :| id in rest;
      var output := ParseOutput(id, bodies[id], overflow);
      if output.Failure? {
        return Failure(output.error);
      }
      section := section[id := output.value];
      rest := rest - {id};
    }
    return Success(section);
  }

  ghost predicate ModelParses(properties: Value, events: Option<Value>, services: Option<Value>) {
    ObjectMap(properties).Some? && SectionParses(events) && SectionParses(services)
  }

  ghost function ParsedModel(properties: Value, events: Option<Value>, services: Option<Value>, overflow: int)
    : ThingsModel
    requires ModelParses(properties, events, services)
  {
    var bodies := ObjectMap(properties).value;
    ThingsModel(
      map id | id in bodies :: ParseProperty(bodies[id], overflow),
      ParsedSection(events, overflow),
      ParsedSection(services, overflow))
  }

  method ParseProperties(bodies: map<string, Fields>, overflow: int) returns (parsed: Definitions)
    ensures parsed == map id | id in bodies :: ParseProperty(bodies[id], overflow)
  {
    parsed := map[];
    var rest := bodies.Keys;
    while rest != {}
      invariant rest <= bodies.Keys
      invariant parsed == map id | id in bodies.Keys - rest :: ParseProperty(bodies[id], overflow)
      decreases |rest|
    {
      var id :| id in rest;
      parsed := parsed[id := ParseProperty(bodies[id], overflow)];
      rest := rest - {id};
    }
  }

  method ParseModel(properties: Value, events: Option<Value>, services: Option<Value>, overflow: int)
    returns (r: Result<ThingsModel, ParseError>)
    ensures r.Success? <==> ModelParses(properties, events, services)
    ensures r.Success? ==> r.value == ParsedModel(properties, events, services, overflow)
  {
    var decoded := ObjectMap(properties);
    if decoded.None? {
      return Failure(NotAnObjectMap);
    }
    var parsed := ParseProperties(decoded.value, overflow);
    var parsedEvents := ParseSection(events, overflow);
    if parsedEvents.Failure? {
      return Failure(parsedEvents.error);
    }
    var parsedServices := ParseSection(services, overflow);
    if parsedServices.Failure? {
      return Failure(parsedServices.error);
    }
    return Success(ThingsModel(parsed, parsedEvents.value, parsedServices.value));
  }

  // ----- the contract between the two services -----

  /** What the processor counts on in a definition; the precision is judged apart. */
  predicate WellFormed(def: PropertyDefinition) {
    && def.dataType in DATA_TYPES
    && (def.min.Some? || def.max.Some? || def.step.Some? || def.precision.Some? ==> def.dataType in NUMERIC_DATA_TYPES)
    && (def.step.Some? ==> def.step.value > 0.0)
    && (def.min.Some? && def.max.Some? ==> def.min.value <= def.max.value)
  }

  /** A definition counts as well formed exactly if nothing in it contradicts its data type or itself. */
  lemma WellFormedExactly(def: PropertyDefinition)
    ensures
      var numeric := def.dataType == "int" || def.dataType == "float" || def.dataType == "double";
      !WellFormed(def) <==>
      || (!numeric && def.dataType != "bool" && def.dataType != "string")
      || (!numeric && (def.min.Some? || def.max.Some? || def.step.Some? || def.precision.Some?))
      || (def.step.Some? && def.step.value <= 0.0)
      || (def.min.Some? && def.max.Some? && def.min.value > def.max.value)
  {
    ChoicesExactly(def.dataType);
  }

  lemma SpecReadsAlike(spec: Fields)
    requires ReadNumberSpec(spec).Success?
    ensures
      var n := ReadNumberSpec(spec).value;
      && n.min == NumberIn(spec, "min")
      && n.max == NumberIn(spec, "max")
      && n.step == NumberIn(spec, "step")
      && n.precision == NumberIn(spec, "precision")
  {
  }

  /** A published definition is well formed once parsed. */
  lemma ValidParamIsWellFormed(body: Fields, requireAccessMode: bool, overflow: int)
    requires ValidParam(body, requireAccessMode)
    ensures WellFormed(ParseProperty(body, overflow))
  {
    if "spec" in body {
      SpecReadsAlike(body["spec"].fields);
    }
  }

  /** A published precision is parsed as a non-negative digit count on every platform iff it fits an int64. */
  lemma PrecisionSurvivesExactly(body: Fields, requireAccessMode: bool)
    requires ValidParam(body, requireAccessMode)
    requires NumberIn(ObjectField(body, "spec"), "precision").Some?
    ensures
      (forall overflow :: ParseProperty(body, overflow).precision.value >= 0) <==>
      NumberIn(ObjectField(body, "spec"), "precision").value < INT64_LIMIT
    ensures
      NumberIn(ObjectField(body, "spec"), "precision").value < INT64_LIMIT ==>
        forall overflow :: ParseProperty(body, overflow).precision.value as real ==
                           NumberIn(ObjectField(body, "spec"), "precision").value
  {
    SpecReadsAlike(body["spec"].fields);
    var precision := NumberIn(ObjectField(body, "spec"), "precision").value;
    assert ParseProperty(body, -1).precision.value == ToInt64(precision, -1);
  }

  lemma HugePrecisionIsValid()
    ensures ValidSpec("float", map["precision" := Number(INT64_LIMIT)])
  {
    var spec: Fields := map["precision" := Number(INT64_LIMIT)];
    assert ReadNumberSpec(spec) == Success(NumberSpec(None, None, None, Some(INT64_LIMIT)));
    assert Trunc(INT64_LIMIT) as real == INT64_LIMIT;
  }

  /** Such a definition does pass the publication test, and an overflowing conversion turns its precision negative. */
  lemma HugePrecisionIsPublished(body: Fields)
    requires body.Keys == {"name", "data_type", "required", "spec"}
    requires body["name"] == String("x") && body["data_type"] == String("float") && body["required"] == Bool(true)
    requires body["spec"] == Object(map["precision" := Number(INT64_LIMIT)])
    ensures ValidParam(body, false) && ParseProperty(body, -1).precision == Some(-1)
  {
    HugePrecisionIsValid();
    WordIsTrimmed("float");
    WordIsTrimmed("x");
  }

  ghost predicate AllWellFormed(definitions: Definitions) {
    forall id :: id in definitions ==> WellFormed(definitions[id])
  }

  lemma ValidParamsParse(params: Fields, requireAccessMode: bool, overflow: int)
    requires ValidParams(params, requireAccessMode)
    ensures ObjectMap(Object(params)).Some? && ObjectMap(Object(params)).value.Keys == params.Keys
    ensures
      forall id :: id in params ==>
        WellFormed(ParseProperty(ObjectMap(Object(params)).value[id], overflow))
  {
    forall id | id in params
      ensures WellFormed(ParseProperty(ObjectMap(Object(params)).value[id], overflow))
    {
      ValidParamIsWellFormed(params[id].fields, requireAccessMode, overflow);
    }
  }

  /** An event or a service whose output parameters are published parses to exactly those parameters. */
  lemma ValidOutputParses(body: Fields, overflow: int)
    requires ValidParamObject(body, "output")
    ensures OutputsAreObjects(body)
    ensures ParsedOutput(body, overflow).Keys == ObjectField(body, "output").Keys
    ensures AllWellFormed(ParsedOutput(body, overflow))
  {
    var output := body["output"].fields;
    forall id | id in output
      ensures WellFormed(ParseProperty(output[id].fields, overflow))
    {
      ValidParamIsWellFormed(output[id].fields, false, overflow);
    }
  }

  lemma ValidSectionParses(section: Fields, overflow: int)
    requires forall id :: id in section ==> section[id].Object? && ValidParamObject(section[id].fields, "output")
    ensures SectionParses(Some(Object(section)))
    ensures ParsedSection(Some(Object(section)), overflow).Keys == section.Keys
    ensures
      forall id :: id in section ==>
        var outputs := ParsedSection(Some(Object(section)), overflow)[id];
        AllWellFormed(outputs) && outputs.Keys == ObjectField(section[id].fields, "output").Keys
  {
    var bodies := ObjectMap(Object(section)).value;
    forall id | id in section
      ensures OutputsAreObjects(bodies[id])
      ensures
        var outputs := ParsedOutput(bodies[id], overflow);
        AllWellFormed(outputs) && outputs.Keys == ObjectField(section[id].fields, "output").Keys
    {
      ValidOutputParses(section[id].fields, overflow);
    }
  }

  /** Every published model parses, keeps exactly its identifiers and yields well-formed definitions. */
  lemma PublishedModelParses(properties: Fields, events: Fields, services: Fields, overflow: int)
    requires ValidModel(properties, events, services)
    ensures ModelParses(Object(properties), Some(Object(events)), Some(Object(services)))
    ensures
      var model := ParsedModel(Object(properties), Some(Object(events)), Some(Object(services)), overflow);
      && model.properties.Keys == properties.Keys
      && model.events.Keys == events.Keys
      && model.services.Keys == services.Keys
      && AllWellFormed(model.properties)
      && (forall id :: id in events ==>
           AllWellFormed(model.events[id]) && model.events[id].Keys == ObjectField(events[id].fields, "output").Keys)
      && (forall id :: id in services ==>
           AllWellFormed(model.services[id]) &&
               model.services[id].Keys == ObjectField(services[id].fields, "output").Keys)
  {
    ValidParamsParse(properties, true, overflow);
    ValidSectionParses(events, overflow);
    ValidSectionParses(services, overflow);
  }

  /** On a well-formed definition the unsupported-type branch is dead. */
  lemma SupportedTypesOnly(def: PropertyDefinition, value: Value)
    ensures (exists v :: CheckValue(def, v) == Some(UnsupportedDataType)) <==> def.dataType !in DATA_TYPES
    ensures WellFormed(def) ==> CheckValue(def, value) != Some(UnsupportedDataType)
  {
    assert CheckValue(def, Null) == Some(UnsupportedDataType) <==> def.dataType !in DATA_TYPES;
  }
}
