/**
 * Opening a published model in the editor and saving it untouched: what the processor then reads.
 * The editor and the services treat white space differently, and here it shows.
 */
module EditorMeaning {
  import opened Numbers
  import opened Wrappers
  import opened Text
  import opened Json
  import opened GridCheck
  import opened Publication
  import opened Definition
  import opened Editor
  import opened EditorRoundTrip

  /** The editor's test for a precision, on the numbers the services see. */
  ghost predicate NaturalIsWhole(codec: Codec<real>) {
    forall x: real :: codec.natural(x) <==> x >= 0.0 && Trunc(x) as real == x
  }

  /** The numbers in a definition are recovered from their texts. */
  ghost predicate BodyRecovers(codec: Codec<real>, body: Fields) {
    SpecRecovers(codec, ObjectField(body, "spec"))
  }

  /** The editor knows the choice as it is written, or falls back to what was meant anyway. */
  predicate ChoiceSurvives(body: Fields, key: string, allowed: seq<string>, default: string) {
    || (Field(body, key).String? && body[key].text in allowed)
    || StringField(body, key) == default
  }

  predicate TypeSurvives(body: Fields) {
    ChoiceSurvives(body, "data_type", Editor.DATA_TYPES, "string")
  }

  // ----- one parameter -----

  lemma AssembledNumbers(min: Option<real>, max: Option<real>, step: Option<real>, unit: string,
      precision: Option<real>)
    ensures
      var spec := Assemble(min, max, step, unit, precision);
      && NumberIn(spec, "min") == min && NumberIn(spec, "max") == max
      && NumberIn(spec, "step") == step && NumberIn(spec, "precision") == precision
  {
  }

  /** The choices of a closed set are words. */
  predicate Words(allowed: seq<string>) {
    forall s :: s in allowed ==> s != "" && Letter(s[0]) && Letter(s[|s| - 1])
  }

  lemma DataTypesAreWords()
    ensures Words(Editor.DATA_TYPES)
  {
    assert Letter("int"[0]) && Letter("float"[0]) && Letter("double"[0]) && Letter("bool"[0]) && Letter("string"[0]);
  }

  lemma AccessModesAreWords()
    ensures Words(Editor.ACCESS_MODES)
  {
  }

  lemma LevelsAreWords()
    ensures Words(Editor.EVENT_LEVELS)
  {
  }

  lemma CallTypesAreWords()
    ensures Words(Editor.CALL_TYPES)
  {
  }

  /** Reading a choice after the round trip. */
  lemma ChoiceAfter(body: Fields, key: string, allowed: seq<string>, default: string)
    requires Words(allowed) && default in allowed && StringField(body, key) in allowed
    ensures
      var after := OneOf(Get(body, key), allowed, default);
      TrimSpace(after) == after && (after == StringField(body, key) <==> ChoiceSurvives(body, key, allowed, default))
  {
    WordIsTrimmed(OneOf(Get(body, key), allowed, default));
    if Field(body, key).String? && body[key].text in allowed {
      WordIsTrimmed(body[key].text);
    }
  }

  lemma TypeAfter(body: Fields)
    requires StringField(body, "data_type") in Publication.DATA_TYPES
    ensures
      TrimSpace(OneOf(Get(body, "data_type"), Editor.DATA_TYPES, "string")) == StringField(body, "data_type") <==>
      TypeSurvives(body)
  {
    DataTypesAreWords();
    ChoiceAfter(body, "data_type", Editor.DATA_TYPES, "string");
  }

  /** A specification after the round trip: its numbers, and its unit unless the editor sees only white space. */
  function SpecSaved(was: Fields): Fields {
    Assemble(NumberIn(was, "min"), NumberIn(was, "max"), NumberIn(was, "step"),
             JsTrim(TextOf(Get(was, "unit"))), NumberIn(was, "precision"))
  }

  lemma SpecIsSaved(codec: Codec<real>, identifier: string, body: Fields, requireAccessMode: bool)
    requires NaturalIsWhole(codec) && BodyRecovers(codec, body) && ValidParam(body, requireAccessMode)
    ensures WriteSpec(codec, ReadParam(codec, identifier, Object(body))) == Some(SpecSaved(ObjectField(body, "spec")))
  {
    var was := ObjectField(body, "spec");
    if "spec" in body {
      SpecReadsAlike(was);
    }
    SpecIsReassembled(codec, was, ReadParam(codec, identifier, Object(body)));
  }

  /** The specification written back holds the numbers that were read. */
  lemma SpecAfter(codec: Codec<real>, identifier: string, body: Fields, requireAccessMode: bool) returns (spec: Fields)
    requires NaturalIsWhole(codec) && BodyRecovers(codec, body) && ValidParam(body, requireAccessMode)
    ensures WriteSpec(codec, ReadParam(codec, identifier, Object(body))) == Some(spec)
    ensures forall key :: key in {"min", "max", "step", "precision"} ==>
              NumberIn(spec, key) == NumberIn(ObjectField(body, "spec"), key)
  {
    var was := ObjectField(body, "spec");
    SpecIsSaved(codec, identifier, body, requireAccessMode);
    spec := SpecSaved(was);
    AssembledNumbers(NumberIn(was, "min"), NumberIn(was, "max"), NumberIn(was, "step"),
                     JsTrim(TextOf(Get(was, "unit"))), NumberIn(was, "precision"));
  }

  function PrecisionIn(spec: Fields, overflow: int): Option<int> {
    var precision := NumberIn(spec, "precision");
    if precision.Some? then Some(ToInt64(precision.value, overflow)) else None
  }

  /** What the processor reads from a definition the editor wrote. */
  lemma ParseWritten(codec: Codec<real>, row: ParamRow, spec: Fields, overflow: int)
    requires WriteSpec(codec, row) == Some(spec)
    ensures ParamFields(codec, row).Some?
    ensures ParseProperty(ParamFields(codec, row).value, overflow) ==
            PropertyDefinition(TrimSpace(row.dataType), row.required, NumberIn(spec, "min"), NumberIn(spec, "max"),
                               NumberIn(spec, "step"), PrecisionIn(spec, overflow))
  {
    var saved := ParamFields(codec, row).value;
    assert ObjectField(saved, "spec") == spec;
    assert Field(saved, "data_type") == String(row.dataType);
    assert Field(saved, "required") == Bool(row.required);
  }

  /** A published definition is always saved, and is read as before exactly when its data type survives. */
  lemma ParamKeepsMeaning(codec: Codec<real>, identifier: string, body: Fields, requireAccessMode: bool, overflow: int)
    requires NaturalIsWhole(codec) && BodyRecovers(codec, body) && ValidParam(body, requireAccessMode)
    ensures ParamFields(codec, ReadParam(codec, identifier, Object(body))).Some?
    ensures
      var saved := ParamFields(codec, ReadParam(codec, identifier, Object(body))).value;
      ParseProperty(saved, overflow) == ParseProperty(body, overflow) <==> TypeSurvives(body)
  {
    var spec := SpecAfter(codec, identifier, body, requireAccessMode);
    var row := ReadParam(codec, identifier, Object(body));
    TypeAfter(body);
    ParseWritten(codec, row, spec, overflow);
    RequiredAgrees(body, requireAccessMode);
    assert PrecisionIn(spec, overflow) == PrecisionIn(ObjectField(body, "spec"), overflow);
  }

  lemma RequiredAgrees(body: Fields, requireAccessMode: bool)
    requires ValidParam(body, requireAccessMode)
    ensures FlagOf(Get(body, "required")) == (Field(body, "required") == Bool(true))
  {
  }

  // ----- a map of parameters -----

  ghost predicate AllRecover(codec: Codec<real>, params: Fields) {
    forall id :: id in params && params[id].Object? ==> BodyRecovers(codec, params[id].fields)
  }

  predicate AllSurvive(params: Fields) {
    forall id :: id in params && params[id].Object? ==> TypeSurvives(params[id].fields)
  }

  /** The processor's reading of a map of objects. */
  function Readings(params: Fields, overflow: int): Definitions {
    map id | id in params && params[id].Object? :: ParseProperty(params[id].fields, overflow)
  }

  /** What is saved is an object, and reads as before exactly when the data type survives. */
  ghost predicate StaysAlike(definition: Value, saved: Value, overflow: int) {
    && definition.Object? && saved.Object?
    && (ParseProperty(saved.fields, overflow) == ParseProperty(definition.fields, overflow) <==>
        TypeSurvives(definition.fields))
  }

  ghost predicate ReadsAlike(params: Fields, saved: Fields, overflow: int) {
    saved.Keys == params.Keys && forall id :: id in params ==> StaysAlike(params[id], saved[id], overflow)
  }

  lemma ReadingsAgree(params: Fields, saved: Fields, overflow: int)
    requires ReadsAlike(params, saved, overflow)
    ensures Readings(saved, overflow) == Readings(params, overflow) <==> AllSurvive(params)
  {
    if Readings(saved, overflow) == Readings(params, overflow) {
      forall id | id in params && params[id].Object?
        ensures TypeSurvives(params[id].fields)
      {
        assert Readings(saved, overflow)[id] == Readings(params, overflow)[id];
      }
    }
  }

  lemma IdentifierIsClean(id: string)
    requires Identifier(id)
    ensures CleanKey(id)
  {
    assert IdentifierChar(id[0]) && IdentifierChar(id[|id| - 1]);
  }

  function WrittenAs(written: Option<Value>): Value {
    if written.Some? then written.value else Null
  }

  function SavedParams(codec: Codec<real>, params: Fields): Fields {
    map id | id in params :: WrittenAs(WriteParam(codec, ReadParam(codec, id, params[id])))
  }

  lemma ParamsAreSaved(codec: Codec<real>, params: Fields, rows: seq<ParamRow>)
    requires forall id :: id in params ==> CleanKey(id) && WriteParam(codec, ReadParam(codec, id, params[id])).Some?
    requires ParamRowsOf(codec, params, rows)
    ensures BuildParams(codec, rows) == Some(SavedParams(codec, params))
  {
    var keys :| Enumerates(keys, params) && |rows| == |keys|
      && forall i :: 0 <= i < |keys| ==> rows[i] == ReadParam(codec, keys[i], params[keys[i]]);
    assert forall i :: 0 <= i < |keys| ==> keys[i] in keys;
    BuildRestores(
      keys, SavedParams(codec, params), rows, (row: ParamRow) => row.identifier,
      (row: ParamRow) => WriteParam(codec, row));
  }

  /** The parameters of an event or a service, saved untouched. */
  lemma ParamsKeepMeaning(codec: Codec<real>, params: Fields, rows: seq<ParamRow>, overflow: int)
    requires NaturalIsWhole(codec) && AllRecover(codec, params) && ValidParams(params, false)
    requires ParamRowsOf(codec, params, rows)
    ensures BuildParams(codec, rows) == Some(SavedParams(codec, params))
    ensures ReadsAlike(params, SavedParams(codec, params), overflow)
  {
    forall id | id in params
      ensures CleanKey(id) && WriteParam(codec, ReadParam(codec, id, params[id])).Some?
      ensures StaysAlike(params[id], WrittenAs(WriteParam(codec, ReadParam(codec, id, params[id]))), overflow)
    {
      IdentifierIsClean(id);
      assert params[id].Object? && ValidParam(params[id].fields, false);
      ParamKeepsMeaning(codec, id, params[id].fields, false, overflow);
    }
    ParamsAreSaved(codec, params, rows);
  }

  // ----- properties -----

  /** The processor does not read the access mode. */
  lemma AccessModeIsNotRead(fields: Fields, mode: Value, overflow: int)
    ensures ParseProperty(fields["access_mode" := mode], overflow) == ParseProperty(fields, overflow)
  {
  }

  lemma PropertyKeepsMeaning(codec: Codec<real>, identifier: string, body: Fields, overflow: int)
    requires NaturalIsWhole(codec) && BodyRecovers(codec, body) && ValidParam(body, true)
    ensures
      var saved := WriteProperty(codec, ReadProperty(codec, identifier, Object(body)));
      && saved.Some? && saved.value.Object?
      && (ParseProperty(saved.value.fields, overflow) == ParseProperty(body, overflow) <==> TypeSurvives(body))
  {
    var row := ReadProperty(codec, identifier, Object(body));
    ParamKeepsMeaning(codec, identifier, body, true, overflow);
    AccessModeIsNotRead(ParamFields(codec, row.param).value, String(row.accessMode), overflow);
  }

  function SavedProperties(codec: Codec<real>, properties: Fields): Fields {
    map id | id in properties :: WrittenAs(WriteProperty(codec, ReadProperty(codec, id, properties[id])))
  }

  lemma PropertiesAreSaved(codec: Codec<real>, properties: Fields, rows: seq<PropertyRow>)
    requires forall id :: id in properties ==>
      CleanKey(id) && WriteProperty(codec, ReadProperty(codec, id, properties[id])).Some?
    requires PropertyRowsOf(codec, properties, rows)
    ensures BuildProperties(codec, rows) == Some(SavedProperties(codec, properties))
  {
    var keys :| Enumerates(keys, properties) && |rows| == |keys|
      && forall i :: 0 <= i < |keys| ==> rows[i] == ReadProperty(codec, keys[i], properties[keys[i]]);
    assert forall i :: 0 <= i < |keys| ==> keys[i] in keys;
    BuildRestores(
      keys, SavedProperties(codec, properties), rows,
      (row: PropertyRow) => row.param.identifier, (row: PropertyRow) => WriteProperty(codec, row));
  }

  lemma PropertiesKeepMeaning(codec: Codec<real>, properties: Fields, rows: seq<PropertyRow>, overflow: int)
    requires NaturalIsWhole(codec) && AllRecover(codec, properties) && ValidParams(properties, true)
    requires PropertyRowsOf(codec, properties, rows)
    ensures BuildProperties(codec, rows) == Some(SavedProperties(codec, properties))
    ensures ReadsAlike(properties, SavedProperties(codec, properties), overflow)
  {
    forall id | id in properties
      ensures CleanKey(id) && WriteProperty(codec, ReadProperty(codec, id, properties[id])).Some?
      ensures StaysAlike(properties[id], WrittenAs(WriteProperty(codec, ReadProperty(codec, id, properties[id]))),
          overflow)
    {
      IdentifierIsClean(id);
      assert properties[id].Object? && ValidParam(properties[id].fields, true);
      PropertyKeepsMeaning(codec, id, properties[id].fields, overflow);
    }
    PropertiesAreSaved(codec, properties, rows);
  }

  // ----- events and services -----

  function Output(definition: Value): Fields {
    if definition.Object? then ObjectField(definition.fields, "output") else map[]
  }

  function SavedEvent(codec: Codec<real>, definition: Value): Value {
    var body := FieldsOf(Some(definition));
    Object(map["name" := String(JsTrim(TextOf(Get(body, "name")))),
               "level" := String(OneOf(Get(body, "level"), Editor.EVENT_LEVELS, "info")),
               "desc" := String(JsTrim(TextOf(Get(body, "desc")))),
               "output" := Object(SavedParams(codec, FieldsOf(Get(body, "output"))))])
  }

  function ServiceRecord(name: string, callType: string, desc: string, input: Fields, output: Fields): Fields {
    map["name" := String(name), "call_type" := String(callType), "desc" := String(desc),
        "input" := Object(input), "output" := Object(output)]
  }

  function SavedService(codec: Codec<real>, definition: Value): Value {
    var body := FieldsOf(Some(definition));
    Object(ServiceRecord(
             JsTrim(TextOf(Get(body, "name"))), OneOf(Get(body, "call_type"), Editor.CALL_TYPES, "sync"),
             JsTrim(TextOf(Get(body, "desc"))), SavedParams(codec, FieldsOf(Get(body, "input"))),
             SavedParams(codec, FieldsOf(Get(body, "output")))))
  }

  predicate AllObjects(params: Fields) {
    forall id :: id in params ==> params[id].Object?
  }

  /** What an event or a service reports back reads as before exactly when every data type in it survives. */
  ghost predicate OutputStaysAlike(definition: Value, saved: Value, overflow: int) {
    && definition.Object? && saved.Object?
    && AllObjects(Output(definition)) && AllObjects(Output(saved))
    && (Readings(Output(saved), overflow) == Readings(Output(definition), overflow) <==> AllSurvive(Output(definition)))
  }

  lemma OutputIsRead(definition: Value, overflow: int)
    requires definition.Object? && AllObjects(Output(definition))
    ensures OutputsAreObjects(definition.fields)
    ensures ParsedOutput(definition.fields, overflow) == Readings(Output(definition), overflow)
  {
  }

  lemma OutputReadings(definition: Value, saved: Value, overflow: int)
    requires definition.Object? && saved.Object?
    requires ReadsAlike(Output(definition), Output(saved), overflow)
    ensures OutputStaysAlike(definition, saved, overflow)
  {
    ReadingsAgree(Output(definition), Output(saved), overflow);
    ReadsAlikeAreObjects(Output(definition), Output(saved), overflow);
  }

  lemma ReadsAlikeAreObjects(params: Fields, saved: Fields, overflow: int)
    requires ReadsAlike(params, saved, overflow)
    ensures AllObjects(params) && AllObjects(saved)
  {
    forall id | id in params
      ensures params[id].Object? && saved[id].Object?
    {
      assert StaysAlike(params[id], saved[id], overflow);
    }
  }

  lemma EventIsSaved(codec: Codec<real>, identifier: string, definition: Value, row: EventRow)
    requires definition.Object? && IsEventRow(codec, identifier, definition, row)
    requires BuildParams(codec, row.outputs) == Some(SavedParams(codec, Output(definition)))
    ensures WriteEvent(codec, row) == Some(SavedEvent(codec, definition))
  {
  }

  lemma EventKeepsMeaning(codec: Codec<real>, identifier: string, definition: Value, row: EventRow, overflow: int)
    requires definition.Object? && ValidEvent(definition.fields) && IsEventRow(codec, identifier, definition, row)
    requires NaturalIsWhole(codec) && AllRecover(codec, Output(definition))
    ensures WriteEvent(codec, row) == Some(SavedEvent(codec, definition))
    ensures OutputStaysAlike(definition, SavedEvent(codec, definition), overflow)
  {
    ParamsKeepMeaning(codec, Output(definition), row.outputs, overflow);
    EventIsSaved(codec, identifier, definition, row);
    OutputIsSaved(codec, definition);
    OutputReadings(definition, SavedEvent(codec, definition), overflow);
  }

  function Input(definition: Value): Fields {
    if definition.Object? then ObjectField(definition.fields, "input") else map[]
  }

  lemma ServiceIsSaved(codec: Codec<real>, identifier: string, definition: Value, row: ServiceRow)
    requires definition.Object? && IsServiceRow(codec, identifier, definition, row)
    requires BuildParams(codec, row.inputs) == Some(SavedParams(codec, Input(definition)))
    requires BuildParams(codec, row.outputs) == Some(SavedParams(codec, Output(definition)))
    ensures WriteService(codec, row) == Some(SavedService(codec, definition))
  {
  }

  lemma OutputIsSaved(codec: Codec<real>, definition: Value)
    requires definition.Object?
    ensures Output(SavedService(codec, definition)) == SavedParams(codec, Output(definition))
    ensures Output(SavedEvent(codec, definition)) == SavedParams(codec, Output(definition))
  {
  }

  lemma ServiceKeepsMeaning(codec: Codec<real>, identifier: string, definition: Value, row: ServiceRow, overflow: int)
    requires definition.Object? && ValidService(definition.fields) && IsServiceRow(codec, identifier, definition, row)
    requires NaturalIsWhole(codec) && AllRecover(codec, Input(definition)) && AllRecover(codec, Output(definition))
    ensures WriteService(codec, row) == Some(SavedService(codec, definition))
    ensures OutputStaysAlike(definition, SavedService(codec, definition), overflow)
  {
    ParamsKeepMeaning(codec, Input(definition), row.inputs, overflow);
    ParamsKeepMeaning(codec, Output(definition), row.outputs, overflow);
    ServiceIsSaved(codec, identifier, definition, row);
    OutputIsSaved(codec, definition);
    OutputReadings(definition, SavedService(codec, definition), overflow);
  }

  // ----- whole sections -----

  function SavedEvents(codec: Codec<real>, events: Fields): Fields {
    map id | id in events :: SavedEvent(codec, events[id])
  }

  function SavedServices(codec: Codec<real>, services: Fields): Fields {
    map id | id in services :: SavedService(codec, services[id])
  }

  ghost predicate SectionStaysAlike(section: Fields, saved: Fields, overflow: int) {
    saved.Keys == section.Keys && forall id :: id in section ==> OutputStaysAlike(section[id], saved[id], overflow)
  }

  /** A row that carries an entry of a section to what is saved under the same identifier. */
  ghost predicate Kept(section: Fields, saved: Fields, id: string, identifier: string, written: Option<Value>,
      overflow: int)
  {
    && id in section && id in saved && CleanKey(id) && identifier == id && written == Some(saved[id])
    && OutputStaysAlike(section[id], saved[id], overflow)
  }

  lemma EntriesStay(section: Fields, saved: Fields, keys: seq<string>, overflow: int)
    requires saved.Keys == section.Keys && forall key :: key in section ==> key in keys
    requires forall i :: 0 <= i < |keys| ==>
      keys[i] in section && OutputStaysAlike(section[keys[i]], saved[keys[i]], overflow)
    ensures SectionStaysAlike(section, saved, overflow)
  {
    forall id | id in section
      ensures OutputStaysAlike(section[id], saved[id], overflow)
    {
      var i :| 0 <= i < |keys| && keys[i] == id;
    }
  }

  lemma KeptSection<R>(
      section: Fields, saved: Fields, keys: seq<string>, rows: seq<R>, identifier: R -> string,
      write: R -> Option<Value>, overflow: int)
    requires saved.Keys == section.Keys && |rows| == |keys| && forall key :: key in section ==> key in keys
    requires forall i :: 0 <= i < |keys| ==>
        Kept(section, saved, keys[i], identifier(rows[i]), write(rows[i]), overflow)
    ensures Build(rows, identifier, write) == Some(saved)
    ensures SectionStaysAlike(section, saved, overflow)
  {
    KeptIsRestored(section, saved, keys, rows, identifier, write, overflow);
    EntriesStay(section, saved, keys, overflow);
  }

  lemma KeptIsRestored<R>(
      section: Fields, saved: Fields, keys: seq<string>, rows: seq<R>, identifier: R -> string,
      write: R -> Option<Value>, overflow: int)
    requires saved.Keys == section.Keys && |rows| == |keys| && forall key :: key in section ==> key in keys
    requires forall i :: 0 <= i < |keys| ==>
        Kept(section, saved, keys[i], identifier(rows[i]), write(rows[i]), overflow)
    ensures Build(rows, identifier, write) == Some(saved)
  {
    BuildRestores(keys, saved, rows, identifier, write);
  }

  lemma EventRowKeepsMeaning(codec: Codec<real>, events: Fields, id: string, row: EventRow, overflow: int)
    requires NaturalIsWhole(codec) && ValidEvents(events) && id in events
    requires AllRecover(codec, Output(events[id])) && IsEventRow(codec, id, events[id], row)
    ensures Kept(events, SavedEvents(codec, events), id, row.identifier, WriteEvent(codec, row), overflow)
  {
    IdentifierIsClean(id);
    EventKeepsMeaning(codec, id, events[id], row, overflow);
  }

  lemma EventsKeepMeaning(codec: Codec<real>, events: Fields, rows: seq<EventRow>, overflow: int)
    requires NaturalIsWhole(codec) && ValidEvents(events) && EventRowsOf(codec, events, rows)
    requires forall id :: id in events ==> AllRecover(codec, Output(events[id]))
    ensures BuildEvents(codec, rows) == Some(SavedEvents(codec, events))
    ensures SectionStaysAlike(events, SavedEvents(codec, events), overflow)
  {
    var keys :| Enumerates(keys, events) && |rows| == |keys|
      && forall i :: 0 <= i < |keys| ==> IsEventRow(codec, keys[i], events[keys[i]], rows[i]);
    forall i | 0 <= i < |keys|
      ensures Kept(events, SavedEvents(codec, events), keys[i], rows[i].identifier, WriteEvent(codec, rows[i]),
                   overflow)
    {
      assert keys[i] in keys;
      EventRowKeepsMeaning(codec, events, keys[i], rows[i], overflow);
    }
    EventsAreKept(codec, events, keys, rows, overflow);
  }

  lemma EventsAreKept(codec: Codec<real>, events: Fields, keys: seq<string>, rows: seq<EventRow>, overflow: int)
    requires |rows| == |keys| && forall key :: key in events ==> key in keys
    requires forall i :: 0 <= i < |keys| ==>
      Kept(events, SavedEvents(codec, events), keys[i], rows[i].identifier, WriteEvent(codec, rows[i]), overflow)
    ensures BuildEvents(codec, rows) == Some(SavedEvents(codec, events))
    ensures SectionStaysAlike(events, SavedEvents(codec, events), overflow)
  {
    KeptSection(
      events, SavedEvents(codec, events), keys, rows,
      (row: EventRow) => row.identifier, (row: EventRow) => WriteEvent(codec, row), overflow);
  }

  lemma ServiceRowKeepsMeaning(codec: Codec<real>, services: Fields, id: string, row: ServiceRow, overflow: int)
    requires NaturalIsWhole(codec) && ValidServices(services) && id in services
    requires AllRecover(codec, Input(services[id])) && AllRecover(codec, Output(services[id]))
    requires IsServiceRow(codec, id, services[id], row)
    ensures Kept(services, SavedServices(codec, services), id, row.identifier, WriteService(codec, row), overflow)
  {
    IdentifierIsClean(id);
    ServiceKeepsMeaning(codec, id, services[id], row, overflow);
  }

  lemma ServicesKeepMeaning(codec: Codec<real>, services: Fields, rows: seq<ServiceRow>, overflow: int)
    requires NaturalIsWhole(codec) && ValidServices(services) && ServiceRowsOf(codec, services, rows)
    requires forall id :: id in services ==>
      AllRecover(codec, Input(services[id])) && AllRecover(codec, Output(services[id]))
    ensures BuildServices(codec, rows) == Some(SavedServices(codec, services))
    ensures SectionStaysAlike(services, SavedServices(codec, services), overflow)
  {
    var keys :| Enumerates(keys, services) && |rows| == |keys|
      && forall i :: 0 <= i < |keys| ==> IsServiceRow(codec, keys[i], services[keys[i]], rows[i]);
    forall i | 0 <= i < |keys|
      ensures Kept(services, SavedServices(codec, services), keys[i], rows[i].identifier, WriteService(codec, rows[i]),
          overflow)
    {
      assert keys[i] in keys;
      ServiceRowKeepsMeaning(codec, services, keys[i], rows[i], overflow);
    }
    ServicesAreKept(codec, services, keys, rows, overflow);
  }

  lemma ServicesAreKept(codec: Codec<real>, services: Fields, keys: seq<string>, rows: seq<ServiceRow>, overflow: int)
    requires |rows| == |keys| && forall key :: key in services ==> key in keys
    requires forall i :: 0 <= i < |keys| ==>
      Kept(services, SavedServices(codec, services), keys[i], rows[i].identifier, WriteService(codec, rows[i]),
          overflow)
    ensures BuildServices(codec, rows) == Some(SavedServices(codec, services))
    ensures SectionStaysAlike(services, SavedServices(codec, services), overflow)
  {
    KeptSection(
      services, SavedServices(codec, services), keys, rows,
      (row: ServiceRow) => row.identifier, (row: ServiceRow) => WriteService(codec, row), overflow);
  }

  function SectionReadings(section: Fields, overflow: int): map<string, Definitions> {
    map id | id in section :: Readings(Output(section[id]), overflow)
  }

  predicate OutputSurvives(section: Fields, id: string) {
    id in section && AllSurvive(Output(section[id]))
  }

  /** The two readings of an entry agree exactly when its data types survive. */
  ghost predicate EntryAgrees(before: map<string, Definitions>, after: map<string, Definitions>, section: Fields,
      id: string)
  {
    id in before && id in after && (after[id] == before[id] <==> OutputSurvives(section, id))
  }

  lemma EntriesAgree(before: map<string, Definitions>, after: map<string, Definitions>, section: Fields)
    requires before.Keys == after.Keys == section.Keys
    requires forall id :: id in section ==> EntryAgrees(before, after, section, id)
    ensures after == before <==> forall id :: id in section ==> OutputSurvives(section, id)
  {
    if after == before {
      forall id | id in section
        ensures OutputSurvives(section, id)
      {
        assert EntryAgrees(before, after, section, id);
      }
    } else {
      var id :| id in before && after[id] != before[id];
      assert EntryAgrees(before, after, section, id);
    }
  }

  lemma EntryReadingsAgree(section: Fields, saved: Fields, id: string, overflow: int)
    requires id in section && id in saved && OutputStaysAlike(section[id], saved[id], overflow)
    ensures EntryAgrees(SectionReadings(section, overflow), SectionReadings(saved, overflow), section, id)
    ensures section[id].Object? && AllObjects(Output(section[id]))
    ensures saved[id].Object? && AllObjects(Output(saved[id]))
  {
  }

  lemma SectionIsRead(section: Fields, overflow: int)
    requires forall id :: id in section ==> section[id].Object? && AllObjects(Output(section[id]))
    ensures SectionParses(Some(Object(section)))
    ensures ParsedSection(Some(Object(section)), overflow) == SectionReadings(section, overflow)
  {
    forall id | id in section
      ensures OutputsAreObjects(section[id].fields)
      ensures ParsedOutput(section[id].fields, overflow) == Readings(Output(section[id]), overflow)
    {
      OutputIsRead(section[id], overflow);
    }
  }

  /** Two sections whose entries read alike one by one. */
  lemma SectionsAgree(section: Fields, saved: Fields, overflow: int)
    requires SectionStaysAlike(section, saved, overflow)
    ensures SectionParses(Some(Object(section))) && SectionParses(Some(Object(saved)))
    ensures ParsedSection(Some(Object(saved)), overflow) == ParsedSection(Some(Object(section)), overflow) <==>
            forall id :: id in section ==> OutputSurvives(section, id)
  {
    forall id | id in section
      ensures EntryAgrees(SectionReadings(section, overflow), SectionReadings(saved, overflow), section, id)
      ensures section[id].Object? && AllObjects(Output(section[id]))
      ensures saved[id].Object? && AllObjects(Output(saved[id]))
    {
      EntryReadingsAgree(section, saved, id, overflow);
    }
    SectionIsRead(section, overflow);
    SectionIsRead(saved, overflow);
    EntriesAgree(SectionReadings(section, overflow), SectionReadings(saved, overflow), section);
  }

  // ----- the whole model -----

  /** Every numeric limit in the model survives being shown as text. */
  ghost predicate ModelRecovers(codec: Codec<real>, properties: Fields, events: Fields, services: Fields) {
    && AllRecover(codec, properties)
    && (forall id :: id in events ==> AllRecover(codec, Output(events[id])))
    && (forall id :: id in services ==>
         AllRecover(codec, Input(services[id])) && AllRecover(codec, Output(services[id])))
  }

  predicate ModelSurvives(properties: Fields, events: Fields, services: Fields) {
    && AllSurvive(properties)
    && (forall id :: id in events ==> OutputSurvives(events, id))
    && (forall id :: id in services ==> OutputSurvives(services, id))
  }

  lemma PropertiesAgree(section: Fields, saved: Fields, overflow: int)
    requires ReadsAlike(section, saved, overflow)
    ensures ObjectMap(Object(section)).Some? && ObjectMap(Object(saved)).Some?
    ensures
      var before, after := ObjectMap(Object(section)).value, ObjectMap(Object(saved)).value;
      (map id | id in after :: ParseProperty(after[id], overflow)) ==
          (map id | id in before :: ParseProperty(before[id], overflow))
      <==> AllSurvive(section)
  {
    ReadingsAgree(section, saved, overflow);
    ReadsAlikeAreObjects(section, saved, overflow);
    PropertiesAreRead(section, overflow);
    PropertiesAreRead(saved, overflow);
  }

  lemma PropertiesAreRead(section: Fields, overflow: int)
    requires AllObjects(section)
    ensures ObjectMap(Object(section)).Some?
    ensures
      var bodies := ObjectMap(Object(section)).value;
      (map id | id in bodies :: ParseProperty(bodies[id], overflow)) == Readings(section, overflow)
  {
  }

  lemma ModelsAgree(properties: Fields, events: Fields, services: Fields, p: Fields, e: Fields, s: Fields,
      overflow: int)
    requires ReadsAlike(properties, p, overflow)
    requires SectionStaysAlike(events, e, overflow) && SectionStaysAlike(services, s, overflow)
    ensures ModelParses(Object(properties), Some(Object(events)), Some(Object(services)))
    ensures ModelParses(Object(p), Some(Object(e)), Some(Object(s)))
    ensures ParsedModel(Object(p), Some(Object(e)), Some(Object(s)), overflow) ==
            ParsedModel(Object(properties), Some(Object(events)), Some(Object(services)), overflow) <==>
            ModelSurvives(properties, events, services)
  {
    PropertiesAgree(properties, p, overflow);
    SectionsAgree(events, e, overflow);
    SectionsAgree(services, s, overflow);
  }

  /**
   * Opening a published model in the editor and saving it untouched never throws and keeps every
   * identifier; the processor then reads the model it read before exactly when every data type survives.
   */
  lemma SavingKeepsMeaning(
      codec: Codec<real>, properties: Fields, events: Fields, services: Fields,
      propertyRows: seq<PropertyRow>, eventRows: seq<EventRow>, serviceRows: seq<ServiceRow>, overflow: int)
    returns (p: Fields, e: Fields, s: Fields)
    requires NaturalIsWhole(codec) && ModelRecovers(codec, properties, events, services)
    requires ValidModel(properties, events, services)
    requires PropertyRowsOf(codec, properties, propertyRows)
    requires EventRowsOf(codec, events, eventRows) && ServiceRowsOf(codec, services, serviceRows)
    ensures BuildProperties(codec, propertyRows) == Some(p) && p.Keys == properties.Keys
    ensures BuildEvents(codec, eventRows) == Some(e) && e.Keys == events.Keys
    ensures BuildServices(codec, serviceRows) == Some(s) && s.Keys == services.Keys
    ensures p == SavedProperties(codec, properties) && e == SavedEvents(codec, events) &&
        s == SavedServices(codec, services)
    ensures ModelParses(Object(properties), Some(Object(events)), Some(Object(services)))
    ensures ModelParses(Object(p), Some(Object(e)), Some(Object(s)))
    ensures ParsedModel(Object(p), Some(Object(e)), Some(Object(s)), overflow) ==
            ParsedModel(Object(properties), Some(Object(events)), Some(Object(services)), overflow) <==>
            ModelSurvives(properties, events, services)
  {
    p, e, s := SavedProperties(codec, properties), SavedEvents(codec, events), SavedServices(codec, services);
    PropertiesKeepMeaning(codec, properties, propertyRows, overflow);
    EventsKeepMeaning(codec, events, eventRows, overflow);
    ServicesKeepMeaning(codec, services, serviceRows, overflow);
    ModelsAgree(properties, events, services, p, e, s, overflow);
  }

  /** The failing family is not empty: a padded data type is published and read, but the editor loses it. */
  lemma PaddedTypeIsLost(name: string, codec: Codec<real>, overflow: int) returns (body: Fields)
    requires TrimSpace(name) != ""
    ensures ValidParam(body, false) && ParseProperty(body, overflow).dataType == "int"
    ensures !TypeSurvives(body) && ReadParam(codec, "x", Object(body)).dataType == "string"
  {
    body := map["name" := String(name), "data_type" := String(" int "), "required" := Bool(true)];
    PaddedIntTrims();
  }

  lemma PaddedIntTrims()
    ensures TrimSpace(" int ") == "int"
  {
    assert " int "[1..] == "int ";
    assert "int "[..3] == "int";
    assert Trim("int", GoSpace) == "int";
    assert Trim("int ", GoSpace) == "int";
  }
}
