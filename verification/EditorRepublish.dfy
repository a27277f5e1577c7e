/** What the backend makes of a published model that was opened in the editor and saved untouched. */
module EditorRepublish {
  import opened Numbers
  import opened Wrappers
  import opened Text
  import opened Json
  import opened CallCheck
  import opened Publication
  import opened Definition
  import opened Editor
  import opened EditorRoundTrip
  import opened EditorMeaning

  /** The editor offers exactly what may be published. */
  lemma OffersArePublishable(s: string)
    ensures s in Editor.DATA_TYPES <==> s in Publication.DATA_TYPES
    ensures s in Editor.ACCESS_MODES <==> s in Publication.ACCESS_MODES
    ensures s in Editor.EVENT_LEVELS <==> s in Publication.EVENT_LEVELS
    ensures s in Editor.CALL_TYPES <==> s in Publication.CALL_TYPES
  {
    OffersExactly(s);
    ChoicesExactly(s);
  }

  // ----- what the backend needs of a parameter -----

  /** The editor's trimming leaves something the backend sees. */
  predicate NameSurvives(body: Fields) {
    Field(body, "name").String? && TrimSpace(JsTrim(body["name"].text)) != ""
  }

  predicate UnitSurvives(spec: Fields) {
    var unit := JsTrim(TextOf(Get(spec, "unit")));
    unit != "" ==> TrimSpace(unit) != ""
  }

  predicate Unlimited(spec: Fields) {
    NumberIn(spec, "min").None? && NumberIn(spec, "max").None? && NumberIn(spec, "step").None? &&
        NumberIn(spec, "precision").None?
  }

  /** Name and unit survive, and so does the data type, unless nothing depends on it. */
  predicate StaysPublishable(body: Fields) {
    var spec := ObjectField(body, "spec");
    NameSurvives(body) && UnitSurvives(spec) && (TypeSurvives(body) || Unlimited(spec))
  }

  // ----- one parameter -----

  lemma AssembledReads(min: Option<real>, max: Option<real>, step: Option<real>, unit: string, precision: Option<real>)
    ensures
      var spec := Assemble(min, max, step, unit, precision);
      && ReadNumberSpec(spec) == Success(NumberSpec(min, max, step, precision))
      && (ValidUnit(spec) <==> unit == "" || TrimSpace(unit) != "")
  {
  }

  /** Limits that fit a data type fit another, or none, only when there are none. */
  lemma LimitsFit(written: string, meant: string, n: NumberSpec)
    requires ValidNumbers(meant, n) && (written == meant || written == "string")
    ensures ValidNumbers(written, n) <==> written == meant || n == NumberSpec(None, None, None, None)
  {
  }

  lemma WrittenType(body: Fields)
    requires StringField(body, "data_type") in Publication.DATA_TYPES
    ensures
      var written := OneOf(Get(body, "data_type"), Editor.DATA_TYPES, "string");
      && TrimSpace(written) == written
      && (written == StringField(body, "data_type") <==> TypeSurvives(body))
      && (written == StringField(body, "data_type") || written == "string")
  {
    DataTypesAreWords();
    ChoiceAfter(body, "data_type", Editor.DATA_TYPES, "string");
  }

  /** The limits of the saved specification fit the data type the editor writes. */
  lemma LimitsAfter(body: Fields, requireAccessMode: bool)
    requires ValidParam(body, requireAccessMode)
    ensures
      var spec := ObjectField(body, "spec");
      ValidSpec(OneOf(Get(body, "data_type"), Editor.DATA_TYPES, "string"), SpecSaved(spec)) <==>
      UnitSurvives(spec) && (TypeSurvives(body) || Unlimited(spec))
  {
    var spec := ObjectField(body, "spec");
    var n := NumberSpec(NumberIn(spec, "min"), NumberIn(spec, "max"), NumberIn(spec, "step"),
        NumberIn(spec, "precision"));
    NumbersOf(body, requireAccessMode);
    WrittenType(body);
    LimitsFit(OneOf(Get(body, "data_type"), Editor.DATA_TYPES, "string"), StringField(body, "data_type"), n);
    AssembledReads(n.min, n.max, n.step, JsTrim(TextOf(Get(spec, "unit"))), n.precision);
  }

  lemma NumbersOf(body: Fields, requireAccessMode: bool)
    requires ValidParam(body, requireAccessMode)
    ensures
      var spec := ObjectField(body, "spec");
      var n := NumberSpec(NumberIn(spec, "min"), NumberIn(spec, "max"), NumberIn(spec, "step"),
          NumberIn(spec, "precision"));
      ReadNumberSpec(spec) == Success(n) && ValidNumbers(StringField(body, "data_type"), n)
  {
    if "spec" in body {
      SpecReadsAlike(body["spec"].fields);
    }
  }

  /** The fields of a parameter as the editor writes them. */
  function Fielded(name: string, dataType: string, required: bool, spec: Fields): Fields {
    var plain: Fields := map["name" := String(name), "data_type" := String(dataType), "required" := Bool(required)];
    if |spec| == 0 then plain else plain["spec" := Object(spec)]
  }

  /** What the publication check sees in them. */
  lemma FieldedIsValid(name: string, dataType: string, required: bool, spec: Fields)
    requires TrimSpace(dataType) == dataType && dataType in Publication.DATA_TYPES
    requires |spec| == 0 ==> ValidSpec(dataType, spec)
    ensures ValidParam(Fielded(name, dataType, required, spec), false) <==>
            TrimSpace(name) != "" && ValidSpec(dataType, spec)
  {
    var fields := Fielded(name, dataType, required, spec);
    assert StringField(fields, "data_type") == dataType;
    assert HasName(fields) <==> TrimSpace(name) != "";
  }

  lemma EmptySpecIsValid(dataType: string)
    ensures ValidSpec(dataType, map[])
  {
  }

  /** Saved untouched, a published parameter is still published exactly when it stays publishable. */
  lemma ParamStaysPublished(codec: Codec<real>, identifier: string, body: Fields, requireAccessMode: bool)
    requires NaturalIsWhole(codec) && BodyRecovers(codec, body) && ValidParam(body, requireAccessMode)
    ensures ParamFields(codec, ReadParam(codec, identifier, Object(body))).Some?
    ensures ValidParam(ParamFields(codec, ReadParam(codec, identifier, Object(body))).value, false) <==>
            StaysPublishable(body)
  {
    var row := ReadParam(codec, identifier, Object(body));
    var spec := SpecSaved(ObjectField(body, "spec"));
    SpecIsSaved(codec, identifier, body, requireAccessMode);
    LimitsAfter(body, requireAccessMode);
    if |spec| == 0 {
      assert spec == map[];
      EmptySpecIsValid(row.dataType);
    }
    WrittenType(body);
    FieldedIsValid(JsTrim(row.name), row.dataType, row.required, spec);
    assert ParamFields(codec, row) == Some(Fielded(JsTrim(row.name), row.dataType, row.required, spec));
  }

  // ----- properties: the access mode -----

  function ModeOf(body: Fields): string {
    StringField(body, "access_mode")
  }

  predicate ModeSurvives(body: Fields) {
    ChoiceSurvives(body, "access_mode", Editor.ACCESS_MODES, "readwrite")
  }

  lemma AccessModeIsLast(fields: Fields, mode: string)
    requires TrimSpace(mode) == mode && mode in Publication.ACCESS_MODES
    ensures ModeOf(fields["access_mode" := String(mode)]) == mode
    ensures ValidParam(fields["access_mode" := String(mode)], true) <==> ValidParam(fields, false)
  {
    var saved := fields["access_mode" := String(mode)];
    assert forall key :: key in {"name", "data_type", "required", "spec"} ==> Field(saved, key) == Field(fields, key);
    assert "spec" in saved <==> "spec" in fields;
  }

  lemma WrittenMode(body: Fields)
    requires ModeOf(body) in Publication.ACCESS_MODES
    ensures
      var written := OneOf(Get(body, "access_mode"), Editor.ACCESS_MODES, "readwrite");
      && TrimSpace(written) == written
      && (written == ModeOf(body) <==> ModeSurvives(body))
      && (written == ModeOf(body) || written == "readwrite")
  {
    AccessModesAreWords();
    ChoiceAfter(body, "access_mode", Editor.ACCESS_MODES, "readwrite");
  }

  /**
   * Saved untouched, a published property is still published exactly when it stays publishable, keeps its
   * access mode exactly when that survives, and is otherwise writable.
   */
  lemma PropertyStaysPublished(codec: Codec<real>, identifier: string, body: Fields)
    requires NaturalIsWhole(codec) && BodyRecovers(codec, body) && ValidParam(body, true)
    ensures
      var saved := WrittenAs(WriteProperty(codec, ReadProperty(codec, identifier, Object(body))));
      && saved.Object?
      && (ValidParam(saved.fields, true) <==> StaysPublishable(body))
      && (ModeOf(saved.fields) == ModeOf(body) <==> ModeSurvives(body))
      && (Writable(saved.fields) <==> Writable(body) || !ModeSurvives(body))
  {
    var row := ReadProperty(codec, identifier, Object(body));
    ParamStaysPublished(codec, identifier, body, true);
    WrittenMode(body);
    AccessModeIsLast(ParamFields(codec, row.param).value, row.accessMode);
  }

  /** A published read-only property whose access mode is padded becomes writable. */
  lemma ReadOnlyBecomesWritable(codec: Codec<real>, identifier: string, body: Fields)
    requires NaturalIsWhole(codec) && BodyRecovers(codec, body) && ValidParam(body, true)
    requires ModeOf(body) == "read" && body["access_mode"].text != "read"
    ensures !Writable(body)
    ensures
      var saved := WrittenAs(WriteProperty(codec, ReadProperty(codec, identifier, Object(body))));
      saved.Object? && Writable(saved.fields)
  {
    PropertyStaysPublished(codec, identifier, body);
    PaddedModeIsLost(body);
  }

  lemma PaddedReadTrims()
    ensures TrimSpace(" read ") == "read"
  {
    WordIsTrimmed("read");
    assert " read "[1..] == "read " && "read "[..4] == "read";
    assert Trim("read ", GoSpace) == Trim("read", GoSpace);
  }

  /** There are such properties: this one has no numbers at all. */
  lemma PaddedReadOnlyIsPublished() returns (body: Fields)
    ensures ValidParam(body, true) && ModeOf(body) == "read" && body["access_mode"].text != "read"
    ensures "spec" !in body
  {
    var fields := Fielded("x", "bool", true, map[]);
    body := fields["access_mode" := String(" read ")];
    WordIsTrimmed("x");
    WordIsTrimmed("bool");
    EmptySpecIsValid("bool");
    FieldedIsValid("x", "bool", true, map[]);
    PaddedReadTrims();
    assert StringField(body, "access_mode") == TrimSpace(" read ");
    assert forall key :: key in {"name", "data_type", "required", "spec"} ==> Field(body, key) == Field(fields, key);
    assert "spec" in body <==> "spec" in fields;
  }

  lemma PaddedModeIsLost(body: Fields)
    requires ModeOf(body) == "read" && Field(body, "access_mode").String? && body["access_mode"].text != "read"
    ensures !ModeSurvives(body)
  {
    var text := body["access_mode"].text;
    if text in Editor.ACCESS_MODES {
      AccessModesAreWords();
      WordIsTrimmed(text);
    }
  }

  const BYTE_ORDER_MARK: string := "\U{FEFF}"

  lemma MarkIsSeenByOne()
    ensures TrimSpace(BYTE_ORDER_MARK) == BYTE_ORDER_MARK && JsTrim(BYTE_ORDER_MARK) == ""
  {
    assert !GoSpace(BYTE_ORDER_MARK[0]) && Trimmed(BYTE_ORDER_MARK, GoSpace);
    assert JsSpace(BYTE_ORDER_MARK[0]) && BYTE_ORDER_MARK[1..] == "";
  }

  /** A byte order mark is a name to the backend only, so the condition can fail. */
  lemma InvisibleNameIsLost() returns (body: Fields)
    ensures ValidParam(body, false) && !NameSurvives(body)
  {
    body := Fielded(BYTE_ORDER_MARK, "bool", true, map[]);
    MarkIsSeenByOne();
    WordIsTrimmed("bool");
    EmptySpecIsValid("bool");
    FieldedIsValid(BYTE_ORDER_MARK, "bool", true, map[]);
    assert body["name"] == String(BYTE_ORDER_MARK) && TrimSpace("") == "";
  }

  // ----- maps of parameters -----

  predicate AllStayPublishable(params: Fields) {
    forall id :: id in params && params[id].Object? ==> StaysPublishable(params[id].fields)
  }

  /** One entry of a map of parameters, saved. */
  ghost predicate EntryStays(definition: Value, saved: Value, requireAccessMode: bool) {
    definition.Object? && saved.Object? &&
        (ValidParam(saved.fields, requireAccessMode) <==> StaysPublishable(definition.fields))
  }

  lemma EntriesStayPublished(params: Fields, saved: Fields, requireAccessMode: bool)
    requires saved.Keys == params.Keys
    requires forall id :: id in params ==> Identifier(id) && EntryStays(params[id], saved[id], requireAccessMode)
    ensures ValidParams(saved, requireAccessMode) <==> AllStayPublishable(params)
  {
    if ValidParams(saved, requireAccessMode) {
      forall id | id in params && params[id].Object?
        ensures StaysPublishable(params[id].fields)
      {
        assert saved[id].Object? && ValidParam(saved[id].fields, requireAccessMode);
        assert EntryStays(params[id], saved[id], requireAccessMode);
      }
    }
    if AllStayPublishable(params) {
      forall id | id in saved
        ensures Identifier(id) && saved[id].Object? && ValidParam(saved[id].fields, requireAccessMode)
      {
        assert EntryStays(params[id], saved[id], requireAccessMode) && StaysPublishable(params[id].fields);
      }
    }
  }

  lemma ParamsStayPublished(codec: Codec<real>, params: Fields)
    requires NaturalIsWhole(codec) && AllRecover(codec, params) && ValidParams(params, false)
    ensures ValidParams(SavedParams(codec, params), false) <==> AllStayPublishable(params)
  {
    var saved := SavedParams(codec, params);
    forall id | id in params
      ensures Identifier(id) && EntryStays(params[id], saved[id], false)
    {
      assert params[id].Object? && ValidParam(params[id].fields, false) && BodyRecovers(codec, params[id].fields);
      ParamStaysPublished(codec, id, params[id].fields, false);
    }
    EntriesStayPublished(params, saved, false);
  }

  lemma PropertiesStayPublished(codec: Codec<real>, properties: Fields)
    requires NaturalIsWhole(codec) && AllRecover(codec, properties) && ValidParams(properties, true)
    ensures ValidParams(SavedProperties(codec, properties), true) <==> AllStayPublishable(properties)
  {
    var saved := SavedProperties(codec, properties);
    forall id | id in properties
      ensures Identifier(id) && EntryStays(properties[id], saved[id], true)
    {
      assert properties[id].Object? && ValidParam(properties[id].fields, true) &&
          BodyRecovers(codec, properties[id].fields);
      PropertyStaysPublished(codec, id, properties[id].fields);
    }
    EntriesStayPublished(properties, saved, true);
  }

  // ----- events and services -----

  predicate EventStaysPublishable(definition: Value) {
    definition.Object? ==> NameSurvives(definition.fields) && AllStayPublishable(Output(definition))
  }

  predicate ServiceStaysPublishable(definition: Value) {
    definition.Object? ==>
      NameSurvives(definition.fields) && AllStayPublishable(Input(definition)) && AllStayPublishable(Output(definition))
  }

  predicate LevelSurvives(body: Fields) {
    ChoiceSurvives(body, "level", Editor.EVENT_LEVELS, "info")
  }

  predicate CallTypeSurvives(body: Fields) {
    ChoiceSurvives(body, "call_type", Editor.CALL_TYPES, "sync")
  }

  lemma SavedEventFields(codec: Codec<real>, definition: Value)
    requires definition.Object? && HasName(definition.fields)
    ensures
      var body, saved := definition.fields, SavedEvent(codec, definition).fields;
      && (HasName(saved) <==> NameSurvives(body))
      && Field(saved, "level") == String(OneOf(Get(body, "level"), Editor.EVENT_LEVELS, "info"))
      && ValidDescription(saved)
      && (ValidParamObject(saved, "output") <==> ValidParams(SavedParams(codec, Output(definition)), false))
  {
  }

  /**
   * A published event is still published exactly when it stays publishable, and keeps its level exactly when
   * that survives.
   */
  lemma EventStaysPublished(codec: Codec<real>, definition: Value)
    requires definition.Object? && ValidEvent(definition.fields)
    requires NaturalIsWhole(codec) && AllRecover(codec, Output(definition))
    ensures
      var saved := SavedEvent(codec, definition).fields;
      && (ValidEvent(saved) <==> EventStaysPublishable(definition))
      && (StringField(saved, "level") == StringField(definition.fields, "level") <==> LevelSurvives(definition.fields))
  {
    SavedEventFields(codec, definition);
    LevelsAreWords();
    ChoiceAfter(definition.fields, "level", Editor.EVENT_LEVELS, "info");
    ParamsStayPublished(codec, Output(definition));
  }

  lemma RecordFields(name: string, callType: string, desc: string, input: Fields, output: Fields)
    ensures
      var saved := ServiceRecord(name, callType, desc, input, output);
      && (HasName(saved) <==> TrimSpace(name) != "")
      && StringField(saved, "call_type") == TrimSpace(callType)
      && ValidDescription(saved)
      && (ValidParamObject(saved, "input") <==> ValidParams(input, false))
      && (ValidParamObject(saved, "output") <==> ValidParams(output, false))
  {
    var saved := ServiceRecord(name, callType, desc, input, output);
    assert Field(saved, "call_type") == String(callType);
  }

  lemma CallTypeAfter(body: Fields)
    requires StringField(body, "call_type") in Publication.CALL_TYPES
    ensures
      var after := OneOf(Get(body, "call_type"), Editor.CALL_TYPES, "sync");
      TrimSpace(after) == after && (after == StringField(body, "call_type") <==> CallTypeSurvives(body))
  {
    CallTypesAreWords();
    ChoiceAfter(body, "call_type", Editor.CALL_TYPES, "sync");
  }

  /** The same for services and their call type. */
  lemma ServiceStaysPublished(codec: Codec<real>, definition: Value)
    requires definition.Object? && ValidService(definition.fields)
    requires NaturalIsWhole(codec) && AllRecover(codec, Input(definition)) && AllRecover(codec, Output(definition))
    ensures
      var saved := SavedService(codec, definition).fields;
      && (ValidService(saved) <==> ServiceStaysPublishable(definition))
      && (StringField(saved, "call_type") == StringField(definition.fields, "call_type") <==>
           CallTypeSurvives(definition.fields))
  {
    ParamsStayPublished(codec, Input(definition));
    ParamsStayPublished(codec, Output(definition));
    ServiceTextsAfter(codec, definition);
  }

  /** Everything about a saved service but its parameters. */
  lemma ServiceTextsAfter(codec: Codec<real>, definition: Value)
    requires definition.Object? && StringField(definition.fields, "call_type") in Publication.CALL_TYPES
    requires HasName(definition.fields)
    ensures
      var body, saved := definition.fields, SavedService(codec, definition).fields;
      && (ValidService(saved) <==>
          && NameSurvives(body)
          && ValidParams(SavedParams(codec, Input(definition)), false)
          && ValidParams(SavedParams(codec, Output(definition)), false))
      && (StringField(saved, "call_type") == StringField(body, "call_type") <==> CallTypeSurvives(body))
  {
    var body := definition.fields;
    CallTypeAfter(body);
    RecordFields(
      JsTrim(TextOf(Get(body, "name"))), OneOf(Get(body, "call_type"), Editor.CALL_TYPES, "sync"),
      JsTrim(TextOf(Get(body, "desc"))), SavedParams(codec, Input(definition)), SavedParams(codec, Output(definition)));
  }

  // ----- the whole model -----

  predicate ModelStaysPublishable(properties: Fields, events: Fields, services: Fields) {
    && AllStayPublishable(properties)
    && (forall id :: id in events ==> EventStaysPublishable(events[id]))
    && (forall id :: id in services ==> ServiceStaysPublishable(services[id]))
  }

  ghost predicate EventKept(id: string, definition: Value, saved: Value) {
    Identifier(id) && saved.Object? && (ValidEvent(saved.fields) <==> EventStaysPublishable(definition))
  }

  ghost predicate ServiceKept(id: string, definition: Value, saved: Value) {
    Identifier(id) && saved.Object? && (ValidService(saved.fields) <==> ServiceStaysPublishable(definition))
  }

  lemma EventsAgree(events: Fields, saved: Fields)
    requires saved.Keys == events.Keys && forall id :: id in events ==> EventKept(id, events[id], saved[id])
    ensures ValidEvents(saved) <==> forall id :: id in events ==> EventStaysPublishable(events[id])
  {
    if ValidEvents(saved) {
      forall id | id in events
        ensures EventStaysPublishable(events[id])
      {
        assert EventKept(id, events[id], saved[id]) && ValidEvent(saved[id].fields);
      }
    } else {
      var id :| id in saved && !(Identifier(id) && saved[id].Object? && ValidEvent(saved[id].fields));
      assert EventKept(id, events[id], saved[id]);
    }
  }

  lemma ServicesAgree(services: Fields, saved: Fields)
    requires saved.Keys == services.Keys && forall id :: id in services ==> ServiceKept(id, services[id], saved[id])
    ensures ValidServices(saved) <==> forall id :: id in services ==> ServiceStaysPublishable(services[id])
  {
    if ValidServices(saved) {
      forall id | id in services
        ensures ServiceStaysPublishable(services[id])
      {
        assert ServiceKept(id, services[id], saved[id]) && ValidService(saved[id].fields);
      }
    } else {
      var id :| id in saved && !(Identifier(id) && saved[id].Object? && ValidService(saved[id].fields));
      assert ServiceKept(id, services[id], saved[id]);
    }
  }

  lemma EventsStayPublished(codec: Codec<real>, events: Fields)
    requires NaturalIsWhole(codec) && ValidEvents(events)
    requires forall id :: id in events ==> AllRecover(codec, Output(events[id]))
    ensures ValidEvents(SavedEvents(codec, events)) <==> forall id :: id in events ==> EventStaysPublishable(events[id])
  {
    EventsAreKept(codec, events);
    EventsAgree(events, SavedEvents(codec, events));
  }

  lemma EventsAreKept(codec: Codec<real>, events: Fields)
    requires NaturalIsWhole(codec) && ValidEvents(events)
    requires forall id :: id in events ==> AllRecover(codec, Output(events[id]))
    ensures SavedEvents(codec, events).Keys == events.Keys
    ensures forall id :: id in events ==> EventKept(id, events[id], SavedEvents(codec, events)[id])
  {
    forall id | id in events
      ensures EventKept(id, events[id], SavedEvents(codec, events)[id])
    {
      EventStaysPublished(codec, events[id]);
    }
  }

  lemma ServicesStayPublished(codec: Codec<real>, services: Fields)
    requires NaturalIsWhole(codec) && ValidServices(services)
    requires forall id :: id in services ==>
        AllRecover(codec, Input(services[id])) && AllRecover(codec, Output(services[id]))
    ensures ValidServices(SavedServices(codec, services)) <==>
            forall id :: id in services ==> ServiceStaysPublishable(services[id])
  {
    ServicesAreKept(codec, services);
    ServicesAgree(services, SavedServices(codec, services));
  }

  lemma ServicesAreKept(codec: Codec<real>, services: Fields)
    requires NaturalIsWhole(codec) && ValidServices(services)
    requires forall id :: id in services ==>
        AllRecover(codec, Input(services[id])) && AllRecover(codec, Output(services[id]))
    ensures SavedServices(codec, services).Keys == services.Keys
    ensures forall id :: id in services ==> ServiceKept(id, services[id], SavedServices(codec, services)[id])
  {
    forall id | id in services
      ensures ServiceKept(id, services[id], SavedServices(codec, services)[id])
    {
      ServiceIsKept(codec, services, id);
    }
  }

  lemma ServiceIsKept(codec: Codec<real>, services: Fields, id: string)
    requires NaturalIsWhole(codec) && ValidServices(services) && id in services
    requires AllRecover(codec, Input(services[id])) && AllRecover(codec, Output(services[id]))
    ensures ServiceKept(id, services[id], SavedServices(codec, services)[id])
  {
    ServiceStaysPublished(codec, services[id]);
  }

  /** The untouched save of a published model passes the publication check exactly when all of it stays publishable. */
  lemma SavingStaysPublished(codec: Codec<real>, properties: Fields, events: Fields, services: Fields)
    requires NaturalIsWhole(codec) && ModelRecovers(codec, properties, events, services)
    requires ValidModel(properties, events, services)
    ensures
      ValidModel(SavedProperties(codec, properties), SavedEvents(codec, events), SavedServices(codec, services)) <==>
      ModelStaysPublishable(properties, events, services)
  {
    PropertiesStayPublished(codec, properties);
    EventsStayPublished(codec, events);
    ServicesStayPublished(codec, services);
  }

  // ----- the choices only the backend reads -----

  ghost predicate SameChoice(section: Fields, saved: Fields, key: string) {
    && saved.Keys == section.Keys
    && forall id :: id in section ==>
         section[id].Object? && saved[id].Object? &&
             StringField(saved[id].fields, key) == StringField(section[id].fields, key)
  }

  predicate ChoicesSurvive(section: Fields, key: string, allowed: seq<string>, default: string) {
    forall id :: id in section && section[id].Object? ==> ChoiceSurvives(section[id].fields, key, allowed, default)
  }

  ghost predicate ChoiceKept(definition: Value, saved: Value, key: string, allowed: seq<string>, default: string) {
    && definition.Object? && saved.Object?
    && (StringField(saved.fields, key) == StringField(definition.fields, key) <==>
        ChoiceSurvives(definition.fields, key, allowed, default))
  }

  lemma ChoicesKept(section: Fields, saved: Fields, key: string, allowed: seq<string>, default: string)
    requires saved.Keys == section.Keys
    requires forall id :: id in section ==> ChoiceKept(section[id], saved[id], key, allowed, default)
    ensures SameChoice(section, saved, key) <==> ChoicesSurvive(section, key, allowed, default)
  {
    assert forall id :: id in section ==> ChoiceKept(section[id], saved[id], key, allowed, default);
  }

  /** Access modes, levels and call types are kept, each exactly when every one of them survives. */
  lemma SavingKeepsChoices(codec: Codec<real>, properties: Fields, events: Fields, services: Fields)
    requires NaturalIsWhole(codec) && ModelRecovers(codec, properties, events, services)
    requires ValidModel(properties, events, services)
    ensures SameChoice(properties, SavedProperties(codec, properties), "access_mode") <==>
            ChoicesSurvive(properties, "access_mode", Editor.ACCESS_MODES, "readwrite")
    ensures SameChoice(events, SavedEvents(codec, events), "level") <==>
            ChoicesSurvive(events, "level", Editor.EVENT_LEVELS, "info")
    ensures SameChoice(services, SavedServices(codec, services), "call_type") <==>
            ChoicesSurvive(services, "call_type", Editor.CALL_TYPES, "sync")
  {
    ModesKept(codec, properties);
    LevelsKept(codec, events);
    CallTypesKept(codec, services);
  }

  lemma ModesKept(codec: Codec<real>, properties: Fields)
    requires NaturalIsWhole(codec) && AllRecover(codec, properties) && ValidParams(properties, true)
    ensures SameChoice(properties, SavedProperties(codec, properties), "access_mode") <==>
            ChoicesSurvive(properties, "access_mode", Editor.ACCESS_MODES, "readwrite")
  {
    var saved := SavedProperties(codec, properties);
    forall id | id in properties
      ensures ChoiceKept(properties[id], saved[id], "access_mode", Editor.ACCESS_MODES, "readwrite")
    {
      ModeIsKept(codec, properties, id);
    }
    ChoicesKept(properties, saved, "access_mode", Editor.ACCESS_MODES, "readwrite");
  }

  lemma ModeIsKept(codec: Codec<real>, properties: Fields, id: string)
    requires NaturalIsWhole(codec) && AllRecover(codec, properties) && ValidParams(properties, true) && id in properties
    ensures ChoiceKept(properties[id], SavedProperties(codec, properties)[id], "access_mode", Editor.ACCESS_MODES,
        "readwrite")
  {
    assert properties[id].Object? && ValidParam(properties[id].fields, true) &&
        BodyRecovers(codec, properties[id].fields);
    PropertyStaysPublished(codec, id, properties[id].fields);
  }

  lemma LevelsKept(codec: Codec<real>, events: Fields)
    requires NaturalIsWhole(codec) && ValidEvents(events)
    requires forall id :: id in events ==> AllRecover(codec, Output(events[id]))
    ensures SameChoice(events, SavedEvents(codec, events), "level") <==>
            ChoicesSurvive(events, "level", Editor.EVENT_LEVELS, "info")
  {
    var saved := SavedEvents(codec, events);
    forall id | id in events
      ensures ChoiceKept(events[id], saved[id], "level", Editor.EVENT_LEVELS, "info")
    {
      EventStaysPublished(codec, events[id]);
    }
    ChoicesKept(events, saved, "level", Editor.EVENT_LEVELS, "info");
  }

  lemma CallTypesKept(codec: Codec<real>, services: Fields)
    requires NaturalIsWhole(codec) && ValidServices(services)
    requires forall id :: id in services ==>
        AllRecover(codec, Input(services[id])) && AllRecover(codec, Output(services[id]))
    ensures SameChoice(services, SavedServices(codec, services), "call_type") <==>
            ChoicesSurvive(services, "call_type", Editor.CALL_TYPES, "sync")
  {
    var saved := SavedServices(codec, services);
    forall id | id in services
      ensures ChoiceKept(services[id], saved[id], "call_type", Editor.CALL_TYPES, "sync")
    {
      CallTypeIsKept(codec, services, id);
    }
    ChoicesKept(services, saved, "call_type", Editor.CALL_TYPES, "sync");
  }

  lemma CallTypeIsKept(codec: Codec<real>, services: Fields, id: string)
    requires NaturalIsWhole(codec) && ValidServices(services) && id in services
    requires AllRecover(codec, Input(services[id])) && AllRecover(codec, Output(services[id]))
    ensures ChoiceKept(services[id], SavedServices(codec, services)[id], "call_type", Editor.CALL_TYPES, "sync")
  {
    ServiceStaysPublished(codec, services[id]);
  }

  // ----- the values the backend sends -----

  /** The backend accepts the same values for a saved definition exactly when its data type survives. */
  lemma BackendAcceptsAlike(codec: Codec<real>, identifier: string, body: Fields, requireAccessMode: bool)
    requires NaturalIsWhole(codec) && BodyRecovers(codec, body) && ValidParam(body, requireAccessMode)
    ensures ParamFields(codec, ReadParam(codec, identifier, Object(body))).Some?
    ensures
      var saved := ParamFields(codec, ReadParam(codec, identifier, Object(body))).value;
      (forall value :: ValueAccepted(saved, value) <==> ValueAccepted(body, value)) <==> TypeSurvives(body)
  {
    var row := ReadParam(codec, identifier, Object(body));
    var was := ObjectField(body, "spec");
    var spec := SpecSaved(was);
    SpecIsSaved(codec, identifier, body, requireAccessMode);
    WrittenType(body);
    AssembledReads(NumberIn(was, "min"), NumberIn(was, "max"), NumberIn(was, "step"),
                   JsTrim(TextOf(Get(was, "unit"))), NumberIn(was, "precision"));
    NumbersOf(body, requireAccessMode);
    var saved := ParamFields(codec, row).value;
    SameLimits(codec, row, spec);
    if TypeSurvives(body) {
      forall value
        ensures ValueAccepted(saved, value) <==> ValueAccepted(body, value)
      {
        SameReadingAccepts(saved, body, value);
      }
    } else {
      TextTellsStringsApart(saved);
      TextTellsStringsApart(body);
    }
  }

  lemma SameReadingAccepts(one: Fields, other: Fields, value: Value)
    requires StringField(one, "data_type") == StringField(other, "data_type")
    requires ReadNumberSpec(ObjectField(one, "spec")) == ReadNumberSpec(ObjectField(other, "spec"))
    ensures ValueAccepted(one, value) <==> ValueAccepted(other, value)
  {
  }

  lemma TextTellsStringsApart(body: Fields)
    ensures ValueAccepted(body, String("")) <==> StringField(body, "data_type") == "string"
  {
  }

  lemma SameLimits(codec: Codec<real>, row: ParamRow, spec: Fields)
    requires WriteSpec(codec, row) == Some(spec)
    ensures ParamFields(codec, row).Some?
    ensures
      var saved := ParamFields(codec, row).value;
      ObjectField(saved, "spec") == spec && StringField(saved, "data_type") == TrimSpace(row.dataType)
  {
    var saved := ParamFields(codec, row).value;
    assert Field(saved, "data_type") == String(row.dataType);
  }
}
