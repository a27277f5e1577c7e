/** Reading a model into rows and writing it back. */
module EditorRoundTrip {
  import opened Wrappers
  import opened Text
  import opened Json
  import opened Editor

  // ----- canonical definitions -----

  predicate CleanText<N>(fields: map<string, Tree<N>>, key: string) {
    key in fields && fields[key].String? && Trimmed(fields[key].text, JsSpace)
  }

  predicate Choice<N>(fields: map<string, Tree<N>>, key: string, allowed: seq<string>) {
    key in fields && fields[key].String? && fields[key].text in allowed
  }

  predicate CanonicalSpec<N(!new)>(codec: Codec<N>, spec: map<string, Tree<N>>) {
    && spec.Keys <= {"min", "max", "step", "unit", "precision"}
    && ("min" in spec ==> spec["min"].Number?)
    && ("max" in spec ==> spec["max"].Number?)
    && ("step" in spec ==> spec["step"].Number?)
    && ("unit" in spec ==> CleanText(spec, "unit") && spec["unit"].text != "")
    && ("precision" in spec ==> spec["precision"].Number? && codec.natural(spec["precision"].number))
  }

  /** The parts every parameter and property has. */
  predicate CanonicalBody<N(!new)>(codec: Codec<N>, body: map<string, Tree<N>>) {
    && CleanText(body, "name")
    && Choice(body, "data_type", DATA_TYPES)
    && "required" in body && body["required"].Bool?
    && ("spec" in body ==>
         body["spec"].Object? && |body["spec"].fields| > 0 && CanonicalSpec(codec, body["spec"].fields))
  }

  predicate CanonicalParam<N(!new)>(codec: Codec<N>, definition: Tree<N>) {
    && definition.Object?
    && definition.fields.Keys <= {"name", "data_type", "required", "spec"}
    && CanonicalBody(codec, definition.fields)
  }

  predicate CanonicalProperty<N(!new)>(codec: Codec<N>, definition: Tree<N>) {
    && definition.Object?
    && definition.fields.Keys <= {"name", "data_type", "required", "spec", "access_mode"}
    && CanonicalBody(codec, definition.fields)
    && Choice(definition.fields, "access_mode", ACCESS_MODES)
  }

  predicate CleanKey(key: string) {
    key != "" && Trimmed(key, JsSpace)
  }

  predicate CanonicalParams<N(!new)>(codec: Codec<N>, definition: Tree<N>) {
    definition.Object? && forall key :: key in definition.fields ==>
        CleanKey(key) && CanonicalParam(codec, definition.fields[key])
  }

  predicate EventShape<N>(fields: map<string, Tree<N>>) {
    && fields.Keys == {"name", "level", "desc", "output"}
    && CleanText(fields, "name")
    && CleanText(fields, "desc")
    && Choice(fields, "level", EVENT_LEVELS)
    && fields["output"].Object?
  }

  predicate ServiceShape<N>(fields: map<string, Tree<N>>) {
    && fields.Keys == {"name", "call_type", "desc", "input", "output"}
    && CleanText(fields, "name")
    && CleanText(fields, "desc")
    && Choice(fields, "call_type", CALL_TYPES)
    && fields["input"].Object?
    && fields["output"].Object?
  }

  predicate CanonicalEvent<N(!new)>(codec: Codec<N>, definition: Tree<N>) {
    definition.Object? && EventShape(definition.fields) && CanonicalParams(codec, definition.fields["output"])
  }

  predicate CanonicalService<N(!new)>(codec: Codec<N>, definition: Tree<N>) {
    && definition.Object?
    && ServiceShape(definition.fields)
    && CanonicalParams(codec, definition.fields["input"])
    && CanonicalParams(codec, definition.fields["output"])
  }

  /** A section of a model: identifiers the editor leaves alone, and canonical definitions. */
  ghost predicate CanonicalSection<N(!new)>(section: map<string, Tree<N>>, canonical: Tree<N> -> bool) {
    forall key :: key in section ==> CleanKey(key) && canonical(section[key])
  }

  // ----- the accumulation -----

  /** What ends up under a key is what the last row with that identifier wrote. */
  lemma {:induction false} LastRowWins<R, V>(rows: seq<R>, identifier: R -> string, write: R -> Option<V>, i: nat)
    requires Build(rows, identifier, write).Some? && i < |rows| && JsTrim(identifier(rows[i])) != ""
    requires forall j :: i < j < |rows| ==> JsTrim(identifier(rows[j])) != JsTrim(identifier(rows[i]))
    ensures write(rows[i]).Some?
    ensures JsTrim(identifier(rows[i])) in Build(rows, identifier, write).value
    ensures Build(rows, identifier, write).value[JsTrim(identifier(rows[i]))] == write(rows[i]).value
  {
    if i < |rows| - 1 {
      LastRowWins(rows[..|rows| - 1], identifier, write, i);
    }
  }

  /** Nothing else ends up in the result. */
  lemma {:induction false} BuiltFromRows<R, V>(
      rows: seq<R>, identifier: R -> string, write: R -> Option<V>, key: string)
    returns (i: nat)
    requires Build(rows, identifier, write).Some? && key in Build(rows, identifier, write).value
    ensures i < |rows| && JsTrim(identifier(rows[i])) == key && CleanKey(key)
    ensures write(rows[i]) == Some(Build(rows, identifier, write).value[key])
  {
    i := |rows| - 1;
    if key == "" || JsTrim(identifier(rows[i])) != key {
      var j := BuiltFromRows(rows[..i], identifier, write, key);
      i := j;
    }
  }

  function Restricted<V>(section: map<string, V>, keys: seq<string>): map<string, V> {
    map key | key in section && key in keys :: section[key]
  }

  lemma RestrictedGrows<V>(section: map<string, V>, keys: seq<string>, n: nat)
    requires n < |keys| && keys[n] in section
    ensures Restricted(section, keys[..n + 1]) == Restricted(section, keys[..n])[keys[n] := section[keys[n]]]
  {
    assert keys[..n + 1] == keys[..n] + [keys[n]];
  }

  /** The first `n` rows rebuild the entries under the first `n` keys. */
  ghost predicate Rebuilt<R, V>(
      keys: seq<string>, section: map<string, V>, rows: seq<R>, identifier: R -> string, write: R -> Option<V>, n: nat)
  {
    n <= |rows| == |keys| && Build(rows[..n], identifier, write) == Some(Restricted(section, keys[..n]))
  }

  /** A row that writes the entry under its key. */
  ghost predicate WritesEntry<R, V>(
      section: map<string, V>, key: string, row: R, identifier: R -> string, write: R -> Option<V>)
  {
    key in section && CleanKey(key) && identifier(row) == key && write(row) == Some(section[key])
  }

  lemma RebuiltNone<R, V>(
      keys: seq<string>, section: map<string, V>, rows: seq<R>, identifier: R -> string, write: R -> Option<V>)
    requires |rows| == |keys|
    ensures Rebuilt(keys, section, rows, identifier, write, 0)
  {
    assert Restricted(section, keys[..0]) == map[];
  }

  lemma RebuiltMore<R, V>(
      keys: seq<string>, section: map<string, V>, rows: seq<R>, identifier: R -> string, write: R -> Option<V>, n: nat)
    requires Rebuilt(keys, section, rows, identifier, write, n) && n < |rows|
    requires WritesEntry(section, keys[n], rows[n], identifier, write)
    ensures Rebuilt(keys, section, rows, identifier, write, n + 1)
  {
    BuildStep(rows, n, identifier, write);
    RestrictedGrows(section, keys, n);
  }

  lemma RebuiltAll<R, V>(
      keys: seq<string>, section: map<string, V>, rows: seq<R>, identifier: R -> string, write: R -> Option<V>)
    requires Rebuilt(keys, section, rows, identifier, write, |rows|) && forall key :: key in section ==> key in keys
    ensures Build(rows, identifier, write) == Some(section)
  {
    assert rows[..|rows|] == rows && keys[..|keys|] == keys;
    assert Restricted(section, keys) == section;
  }

  lemma RowsRebuild<R, V>(
      keys: seq<string>, section: map<string, V>, rows: seq<R>, identifier: R -> string, write: R -> Option<V>)
    requires |rows| == |keys|
    requires forall i :: 0 <= i < |keys| ==> WritesEntry(section, keys[i], rows[i], identifier, write)
    ensures Rebuilt(keys, section, rows, identifier, write, |rows|)
  {
    RebuiltNone(keys, section, rows, identifier, write);
    for n := 0 to |rows|
      invariant Rebuilt(keys, section, rows, identifier, write, n)
    {
      RebuiltMore(keys, section, rows, identifier, write, n);
    }
  }

  /** Rows that write a map's own entries under its own keys rebuild the map, in any order. */
  lemma BuildRestores<R, V>(
      keys: seq<string>, section: map<string, V>, rows: seq<R>, identifier: R -> string, write: R -> Option<V>)
    requires |rows| == |keys| && forall key :: key in section ==> key in keys
    requires forall i :: 0 <= i < |keys| ==>
      && keys[i] in section && CleanKey(keys[i]) && identifier(rows[i]) == keys[i]
      && write(rows[i]) == Some(section[keys[i]])
    ensures Build(rows, identifier, write) == Some(section)
  {
    assert forall i :: 0 <= i < |keys| ==> WritesEntry(section, keys[i], rows[i], identifier, write);
    RowsRebuild(keys, section, rows, identifier, write);
    RebuiltAll(keys, section, rows, identifier, write);
  }

  // ----- one parameter: what is written is canonical -----

  lemma AssembledIsCanonical<N(!new)>(
      codec: Codec<N>, min: Option<N>, max: Option<N>, step: Option<N>, unit: string, precision: Option<N>)
    requires Trimmed(unit, JsSpace) && (precision.Some? ==> codec.natural(precision.value))
    ensures CanonicalSpec(codec, Assemble(min, max, step, unit, precision))
  {
  }

  lemma WrittenSpecIsCanonical<N(!new)>(codec: Codec<N>, row: ParamRow)
    requires WriteSpec(codec, row).Some?
    ensures CanonicalSpec(codec, WriteSpec(codec, row).value)
  {
    AssembledIsCanonical(
      codec, NumberFrom(codec, row.min).value, NumberFrom(codec, row.max).value, NumberFrom(codec, row.step).value,
      JsTrim(row.unit), NaturalFrom(codec, row.precision).value);
  }

  lemma WrittenParamIsCanonical<N(!new)>(codec: Codec<N>, row: ParamRow)
    requires row.dataType in DATA_TYPES && WriteParam(codec, row).Some?
    ensures CanonicalParam(codec, WriteParam(codec, row).value)
  {
    WrittenSpecIsCanonical(codec, row);
  }

  lemma WrittenPropertyIsCanonical<N(!new)>(codec: Codec<N>, row: PropertyRow)
    requires row.param.dataType in DATA_TYPES && row.accessMode in ACCESS_MODES && WriteProperty(codec, row).Some?
    ensures CanonicalProperty(codec, WriteProperty(codec, row).value)
  {
    WrittenParamIsCanonical(codec, row.param);
  }

  // ----- one parameter: what is canonical is written back -----

  function NumberAt<N>(spec: map<string, Tree<N>>, key: string): Option<N> {
    if key in spec && spec[key].Number? then Some(spec[key].number) else None
  }

  /** The numbers of a specification are recovered from their texts. */
  ghost predicate SpecRecovers<N(!new)>(codec: Codec<N>, spec: map<string, Tree<N>>) {
    forall key :: key in spec && spec[key].Number? ==> TextRecovers(codec, spec[key].number)
  }

  lemma NumberComesBack<N(!new)>(codec: Codec<N>, spec: map<string, Tree<N>>, key: string)
    requires SpecRecovers(codec, spec) && (key in spec ==> spec[key].Number?)
    ensures NumberFrom(codec, SpecText(codec, spec, key)) == Some(NumberAt(spec, key))
  {
  }

  lemma AssembleRestores<N(!new)>(codec: Codec<N>, spec: map<string, Tree<N>>)
    requires CanonicalSpec(codec, spec)
    ensures Assemble(NumberAt(spec, "min"), NumberAt(spec, "max"), NumberAt(spec, "step"),
                     TextOf(Get(spec, "unit")), NumberAt(spec, "precision")) == spec
  {
    var written := Assemble(NumberAt(spec, "min"), NumberAt(spec, "max"), NumberAt(spec, "step"),
                            TextOf(Get(spec, "unit")), NumberAt(spec, "precision"));
    assert written == spec;
  }

  /** Writing the row read from a specification whose numbers are numbers. */
  lemma SpecIsReassembled<N(!new)>(codec: Codec<N>, spec: map<string, Tree<N>>, row: ParamRow)
    requires SpecRecovers(codec, spec)
    requires forall key :: key in spec && key in {"min", "max", "step", "precision"} ==> spec[key].Number?
    requires "precision" in spec ==> codec.natural(spec["precision"].number)
    requires row.min == SpecText(codec, spec, "min") && row.max == SpecText(codec, spec, "max")
    requires row.step == SpecText(codec, spec, "step") && row.precision == SpecText(codec, spec, "precision")
    requires row.unit == TextOf(Get(spec, "unit"))
    ensures WriteSpec(codec, row) ==
            Some(Assemble(NumberAt(spec, "min"), NumberAt(spec, "max"), NumberAt(spec, "step"),
                          JsTrim(row.unit), NumberAt(spec, "precision")))
  {
    NumberComesBack(codec, spec, "min");
    NumberComesBack(codec, spec, "max");
    NumberComesBack(codec, spec, "step");
    NumberComesBack(codec, spec, "precision");
  }

  lemma CanonicalSpecComesBack<N(!new)>(codec: Codec<N>, spec: map<string, Tree<N>>, row: ParamRow)
    requires SpecRecovers(codec, spec) && CanonicalSpec(codec, spec)
    requires row.min == SpecText(codec, spec, "min") && row.max == SpecText(codec, spec, "max")
    requires row.step == SpecText(codec, spec, "step") && row.precision == SpecText(codec, spec, "precision")
    requires row.unit == TextOf(Get(spec, "unit"))
    ensures WriteSpec(codec, row) == Some(spec)
  {
    SpecIsReassembled(codec, spec, row);
    AssembleRestores(codec, spec);
  }

  /** The fields a parameter has, without those of a property. */
  function ParamPart<N>(fields: map<string, Tree<N>>): map<string, Tree<N>> {
    map key | key in fields && key in {"name", "data_type", "required", "spec"} :: fields[key]
  }

  lemma ParamPartOfBody<N(!new)>(codec: Codec<N>, body: map<string, Tree<N>>)
    requires CanonicalBody(codec, body)
    ensures
      var plain := map["name" := body["name"], "data_type" := body["data_type"], "required" := body["required"]];
      ParamPart(body) == if "spec" in body then plain["spec" := body["spec"]] else plain
  {
    var plain := map["name" := body["name"], "data_type" := body["data_type"], "required" := body["required"]];
    assert ParamPart(body) == if "spec" in body then plain["spec" := body["spec"]] else plain;
  }

  lemma CanonicalBodyComesBack<N(!new)>(codec: Codec<N>, identifier: string, definition: Tree<N>)
    requires Sound(codec) && definition.Object? && CanonicalBody(codec, definition.fields)
    ensures ParamFields(codec, ReadParam(codec, identifier, definition)) == Some(ParamPart(definition.fields))
  {
    var spec := FieldsOf(Get(definition.fields, "spec"));
    var row := ReadParam(codec, identifier, definition);
    CanonicalSpecComesBack(codec, spec, row);
    ParamPartOfBody(codec, definition.fields);
  }

  lemma CanonicalParamComesBack<N(!new)>(codec: Codec<N>, identifier: string, definition: Tree<N>)
    requires Sound(codec) && CanonicalParam(codec, definition)
    ensures WriteParam(codec, ReadParam(codec, identifier, definition)) == Some(definition)
  {
    CanonicalBodyComesBack(codec, identifier, definition);
    assert definition.fields == ParamPart(definition.fields);
  }

  lemma CanonicalPropertyComesBack<N(!new)>(codec: Codec<N>, identifier: string, definition: Tree<N>)
    requires Sound(codec) && CanonicalProperty(codec, definition)
    ensures WriteProperty(codec, ReadProperty(codec, identifier, definition)) == Some(definition)
  {
    CanonicalBodyComesBack(codec, identifier, definition);
    assert definition.fields == ParamPart(definition.fields)["access_mode" := definition.fields["access_mode"]];
  }

  // ----- nested parameters -----

  /** Rows as the editor's closed choices allow them. */
  predicate TypedParams(rows: seq<ParamRow>) {
    forall row :: row in rows ==> row.dataType in DATA_TYPES
  }

  lemma WrittenParamsAreCanonical<N(!new)>(codec: Codec<N>, rows: seq<ParamRow>)
    requires TypedParams(rows) && BuildParams(codec, rows).Some?
    ensures CanonicalParams(codec, Object(BuildParams(codec, rows).value))
  {
    var built := BuildParams(codec, rows).value;
    forall key | key in built
      ensures CleanKey(key) && CanonicalParam(codec, built[key])
    {
      var i := BuiltFromRows(rows, (row: ParamRow) => row.identifier, (row: ParamRow) => WriteParam(codec, row), key);
      WrittenParamIsCanonical(codec, rows[i]);
    }
  }

  lemma CanonicalParamsComeBack<N(!new)>(codec: Codec<N>, params: map<string, Tree<N>>, rows: seq<ParamRow>)
    requires Sound(codec) && CanonicalParams(codec, Object(params)) && ParamRowsOf(codec, params, rows)
    ensures BuildParams(codec, rows) == Some(params)
  {
    var keys :| Enumerates(keys, params) && |rows| == |keys|
      && forall i :: 0 <= i < |keys| ==> rows[i] == ReadParam(codec, keys[i], params[keys[i]]);
    forall i | 0 <= i < |keys|
      ensures CleanKey(keys[i]) && WriteParam(codec, rows[i]) == Some(params[keys[i]])
    {
      assert keys[i] in keys;
      CanonicalParamComesBack(codec, keys[i], params[keys[i]]);
    }
    BuildRestores(keys, params, rows, (row: ParamRow) => row.identifier, (row: ParamRow) => WriteParam(codec, row));
  }

  lemma ReadParamsAreTyped<N(!new)>(codec: Codec<N>, params: map<string, Tree<N>>, rows: seq<ParamRow>)
    requires ParamRowsOf(codec, params, rows)
    ensures TypedParams(rows)
  {
  }

  // ----- properties -----

  predicate TypedProperties(rows: seq<PropertyRow>) {
    forall row :: row in rows ==> row.param.dataType in DATA_TYPES && row.accessMode in ACCESS_MODES
  }

  ghost predicate CanonicalProperties<N(!new)>(codec: Codec<N>, section: map<string, Tree<N>>) {
    CanonicalSection(section, definition => CanonicalProperty(codec, definition))
  }

  /** Whatever is in the table, a saved section is canonical. */
  lemma SavedPropertiesAreCanonical<N(!new)>(codec: Codec<N>, rows: seq<PropertyRow>)
    requires TypedProperties(rows) && BuildProperties(codec, rows).Some?
    ensures CanonicalProperties(codec, BuildProperties(codec, rows).value)
  {
    var built := BuildProperties(codec, rows).value;
    forall key | key in built
      ensures CleanKey(key) && CanonicalProperty(codec, built[key])
    {
      var i := BuiltFromRows(
        rows, (row: PropertyRow) => row.param.identifier, (row: PropertyRow) => WriteProperty(codec, row), key);
      WrittenPropertyIsCanonical(codec, rows[i]);
    }
  }

  lemma CanonicalPropertiesComeBack<N(!new)>(codec: Codec<N>, section: map<string, Tree<N>>, rows: seq<PropertyRow>)
    requires Sound(codec) && CanonicalProperties(codec, section) && PropertyRowsOf(codec, section, rows)
    ensures BuildProperties(codec, rows) == Some(section)
  {
    var keys :| Enumerates(keys, section) && |rows| == |keys|
      && forall i :: 0 <= i < |keys| ==> rows[i] == ReadProperty(codec, keys[i], section[keys[i]]);
    forall i | 0 <= i < |keys|
      ensures CleanKey(keys[i]) && WriteProperty(codec, rows[i]) == Some(section[keys[i]])
    {
      assert keys[i] in keys;
      CanonicalPropertyComesBack(codec, keys[i], section[keys[i]]);
    }
    BuildRestores(
      keys, section, rows, (row: PropertyRow) => row.param.identifier, (row: PropertyRow) => WriteProperty(codec, row));
  }

  /** Reading and writing is the identity exactly on canonical sections ... */
  lemma PropertyFixedPoints<N(!new)>(codec: Codec<N>, section: map<string, Tree<N>>, rows: seq<PropertyRow>)
    requires Sound(codec) && PropertyRowsOf(codec, section, rows)
    ensures BuildProperties(codec, rows) == Some(section) <==> CanonicalProperties(codec, section)
  {
    if BuildProperties(codec, rows) == Some(section) {
      SavedPropertiesAreCanonical(codec, rows);
    }
    if CanonicalProperties(codec, section) {
      CanonicalPropertiesComeBack(codec, section, rows);
    }
  }

  /** ... so a second pass changes nothing and throws nothing. */
  lemma PropertiesSettle<N(!new)>(
      codec: Codec<N>, section: map<string, Tree<N>>, rows: seq<PropertyRow>, saved: map<string, Tree<N>>,
      again: seq<PropertyRow>)
    requires Sound(codec) && PropertyRowsOf(codec, section, rows) && BuildProperties(codec, rows) == Some(saved)
    requires PropertyRowsOf(codec, saved, again)
    ensures BuildProperties(codec, again) == Some(saved)
  {
    SavedPropertiesAreCanonical(codec, rows);
    CanonicalPropertiesComeBack(codec, saved, again);
  }

  // ----- when saving throws -----

  lemma BuildThrowsExactly<R, V>(rows: seq<R>, identifier: R -> string, write: R -> Option<V>)
    ensures Build(rows, identifier, write).None? <==>
        exists i :: 0 <= i < |rows| && Unwritable(rows[i], identifier, write)
  {
    if i :| 0 <= i < |rows| && Unwritable(rows[i], identifier, write) {
      BuildStep(rows, i, identifier, write);
      BuildThrows(rows, i + 1, identifier, write);
    } else {
      AllWritable(rows, identifier, write);
    }
  }

  lemma {:induction false} AllWritable<R, V>(rows: seq<R>, identifier: R -> string, write: R -> Option<V>)
    requires forall i :: 0 <= i < |rows| ==> !Unwritable(rows[i], identifier, write)
    ensures Build(rows, identifier, write).Some?
  {
    if rows != [] {
      var n := |rows| - 1;
      AllWritable(rows[..n], identifier, write);
      assert !Unwritable(rows[n], identifier, write);
    }
  }

  /** A field whose text is neither blank nor a number, or a precision that is no whole number. */
  predicate Unreadable<N(!new)>(codec: Codec<N>, spec: map<string, Tree<N>>) {
    || NumberFrom(codec, SpecText(codec, spec, "min")).None?
    || NumberFrom(codec, SpecText(codec, spec, "max")).None?
    || NumberFrom(codec, SpecText(codec, spec, "step")).None?
    || NaturalFrom(codec, SpecText(codec, spec, "precision")).None?
  }

  /** A property the editor opens but cannot save. */
  predicate Blocking<N(!new)>(codec: Codec<N>, section: map<string, Tree<N>>, key: string) {
    key in section && JsTrim(key) != "" && Unreadable(codec, FieldsOf(Get(FieldsOf(Some(section[key])), "spec")))
  }

  lemma BlockingRow<N(!new)>(codec: Codec<N>, section: map<string, Tree<N>>, key: string)
    requires key in section
    ensures
      var row := ReadProperty(codec, key, section[key]);
      Unwritable(row, (row: PropertyRow) => row.param.identifier, (row: PropertyRow) => WriteProperty(codec, row)) <==>
      Blocking(codec, section, key)
  {
  }

  /** Saving what was opened throws exactly when some property under a non-blank identifier has an unreadable limit. */
  lemma PropertiesThrowExactly<N(!new)>(codec: Codec<N>, section: map<string, Tree<N>>, rows: seq<PropertyRow>)
    requires PropertyRowsOf(codec, section, rows)
    ensures BuildProperties(codec, rows).None? <==> exists key :: Blocking(codec, section, key)
  {
    var keys :| Enumerates(keys, section) && |rows| == |keys|
      && forall i :: 0 <= i < |keys| ==> rows[i] == ReadProperty(codec, keys[i], section[keys[i]]);
    assert forall i :: 0 <= i < |keys| ==> keys[i] in keys;
    BlockingRows(codec, section, keys, rows);
  }

  lemma BlockingRows<N(!new)>(codec: Codec<N>, section: map<string, Tree<N>>, keys: seq<string>, rows: seq<PropertyRow>)
    requires |rows| == |keys| && forall key :: key in section ==> key in keys
    requires forall i :: 0 <= i < |keys| ==>
      keys[i] in section && rows[i] == ReadProperty(codec, keys[i], section[keys[i]])
    ensures BuildProperties(codec, rows).None? <==> exists key :: Blocking(codec, section, key)
  {
    var identifier := (row: PropertyRow) => row.param.identifier;
    var write := (row: PropertyRow) => WriteProperty(codec, row);
    BuildThrowsExactly(rows, identifier, write);
    if i :| 0 <= i < |rows| && Unwritable(rows[i], identifier, write) {
      BlockingRow(codec, section, keys[i]);
    }
    if key :| Blocking(codec, section, key) {
      var i :| 0 <= i < |keys| && keys[i] == key;
      BlockingRow(codec, section, key);
      assert Unwritable(rows[i], identifier, write);
    }
  }

  /** A parameter the editor opens but cannot save blocks its parameters, as it blocks properties. */
  lemma ParamsThrowExactly<N(!new)>(codec: Codec<N>, params: map<string, Tree<N>>, rows: seq<ParamRow>)
    requires ParamRowsOf(codec, params, rows)
    ensures BuildParams(codec, rows).None? <==> SomeBlocking(codec, params)
  {
    var keys :| Enumerates(keys, params) && |rows| == |keys|
      && forall i :: 0 <= i < |keys| ==> rows[i] == ReadParam(codec, keys[i], params[keys[i]]);
    assert forall i :: 0 <= i < |keys| ==> keys[i] in keys;
    BlockingParamRows(codec, params, keys, rows);
  }

  ghost predicate SomeBlocking<N(!new)>(codec: Codec<N>, params: map<string, Tree<N>>) {
    exists key :: Blocking(codec, params, key)
  }

  lemma BlockingParamRow<N(!new)>(codec: Codec<N>, params: map<string, Tree<N>>, key: string)
    requires key in params
    ensures
      var row := ReadParam(codec, key, params[key]);
      Unwritable(row, (row: ParamRow) => row.identifier, (row: ParamRow) => WriteParam(codec, row)) <==>
      Blocking(codec, params, key)
  {
  }

  lemma BlockingParamRows<N(!new)>(codec: Codec<N>, params: map<string, Tree<N>>, keys: seq<string>,
      rows: seq<ParamRow>)
    requires |rows| == |keys| && forall key :: key in params ==> key in keys
    requires forall i :: 0 <= i < |keys| ==> keys[i] in params && rows[i] == ReadParam(codec, keys[i], params[keys[i]])
    ensures BuildParams(codec, rows).None? <==> SomeBlocking(codec, params)
  {
    var identifier := (row: ParamRow) => row.identifier;
    var write := (row: ParamRow) => WriteParam(codec, row);
    BuildThrowsExactly(rows, identifier, write);
    if i :| 0 <= i < |rows| && Unwritable(rows[i], identifier, write) {
      BlockingParamRow(codec, params, keys[i]);
    }
    if key :| Blocking(codec, params, key) {
      var i :| 0 <= i < |keys| && keys[i] == key;
      BlockingParamRow(codec, params, key);
      assert Unwritable(rows[i], identifier, write);
    }
  }

  function ParamsUnder<N>(definition: Tree<N>, key: string): map<string, Tree<N>> {
    FieldsOf(Get(FieldsOf(Some(definition)), key))
  }

  /** An event under a non-blank identifier with a parameter that cannot be saved. */
  ghost predicate BlockingEvent<N(!new)>(codec: Codec<N>, section: map<string, Tree<N>>, key: string) {
    key in section && JsTrim(key) != "" && SomeBlocking(codec, ParamsUnder(section[key], "output"))
  }

  lemma EventThrows<N(!new)>(codec: Codec<N>, key: string, definition: Tree<N>, row: EventRow)
    requires IsEventRow(codec, key, definition, row)
    ensures row.identifier == key
    ensures WriteEvent(codec, row).None? <==> SomeBlocking(codec, ParamsUnder(definition, "output"))
  {
    ParamsThrowExactly(codec, ParamsUnder(definition, "output"), row.outputs);
  }

  lemma EventsThrowExactly<N(!new)>(codec: Codec<N>, section: map<string, Tree<N>>, rows: seq<EventRow>)
    requires EventRowsOf(codec, section, rows)
    ensures BuildEvents(codec, rows).None? <==> exists key :: BlockingEvent(codec, section, key)
  {
    var keys :| Enumerates(keys, section) && |rows| == |keys|
      && forall i :: 0 <= i < |keys| ==> IsEventRow(codec, keys[i], section[keys[i]], rows[i]);
    forall i | 0 <= i < |keys|
      ensures keys[i] in section && rows[i].identifier == keys[i]
      ensures WriteEvent(codec, rows[i]).None? <==> SomeBlocking(codec, ParamsUnder(section[keys[i]], "output"))
    {
      assert keys[i] in keys;
      EventThrows(codec, keys[i], section[keys[i]], rows[i]);
    }
    BlockingEventRows(codec, section, keys, rows);
  }

  lemma BlockingEventRows<N(!new)>(codec: Codec<N>, section: map<string, Tree<N>>, keys: seq<string>,
      rows: seq<EventRow>)
    requires |rows| == |keys| && forall key :: key in section ==> key in keys
    requires forall i :: 0 <= i < |keys| ==>
      && keys[i] in section && rows[i].identifier == keys[i]
      && (WriteEvent(codec, rows[i]).None? <==> SomeBlocking(codec, ParamsUnder(section[keys[i]], "output")))
    ensures BuildEvents(codec, rows).None? <==> exists key :: BlockingEvent(codec, section, key)
  {
    var blocking := key => BlockingEvent(codec, section, key);
    ThrowsAtKey(rows, keys, (row: EventRow) => row.identifier, (row: EventRow) => WriteEvent(codec, row), blocking);
    assert forall key :: blocking(key) <==> BlockingEvent(codec, section, key);
  }

  /** A service under a non-blank identifier with an input or output that cannot be saved. */
  ghost predicate BlockingService<N(!new)>(codec: Codec<N>, section: map<string, Tree<N>>, key: string) {
    key in section && JsTrim(key) != "" && ServiceBlocks(codec, section[key])
  }

  ghost predicate ServiceBlocks<N(!new)>(codec: Codec<N>, definition: Tree<N>) {
    SomeBlocking(codec, ParamsUnder(definition, "input")) || SomeBlocking(codec, ParamsUnder(definition, "output"))
  }

  lemma ServiceThrows<N(!new)>(codec: Codec<N>, key: string, definition: Tree<N>, row: ServiceRow)
    requires IsServiceRow(codec, key, definition, row)
    ensures row.identifier == key
    ensures WriteService(codec, row).None? <==> ServiceBlocks(codec, definition)
  {
    ParamsThrowExactly(codec, ParamsUnder(definition, "input"), row.inputs);
    ParamsThrowExactly(codec, ParamsUnder(definition, "output"), row.outputs);
  }

  ghost predicate RowBlocks<N(!new)>(codec: Codec<N>, section: map<string, Tree<N>>, key: string, row: ServiceRow) {
    && key in section && row.identifier == key
    && (WriteService(codec, row).None? <==> ServiceBlocks(codec, section[key]))
  }

  lemma ServicesThrowExactly<N(!new)>(codec: Codec<N>, section: map<string, Tree<N>>, rows: seq<ServiceRow>)
    requires ServiceRowsOf(codec, section, rows)
    ensures BuildServices(codec, rows).None? <==> exists key :: BlockingService(codec, section, key)
  {
    var keys :| Enumerates(keys, section) && |rows| == |keys|
      && forall i :: 0 <= i < |keys| ==> IsServiceRow(codec, keys[i], section[keys[i]], rows[i]);
    assert forall i :: 0 <= i < |keys| ==> keys[i] in keys;
    ServiceRowsBlock(codec, section, keys, rows);
    BlockingServiceRows(codec, section, keys, rows);
  }

  lemma ServiceRowsBlock<N(!new)>(
      codec: Codec<N>, section: map<string, Tree<N>>, keys: seq<string>, rows: seq<ServiceRow>)
    requires |rows| == |keys|
    requires forall i :: 0 <= i < |keys| ==>
      keys[i] in section && IsServiceRow(codec, keys[i], section[keys[i]], rows[i])
    ensures forall i :: 0 <= i < |keys| ==> RowBlocks(codec, section, keys[i], rows[i])
  {
    forall i | 0 <= i < |keys|
      ensures RowBlocks(codec, section, keys[i], rows[i])
    {
      ServiceThrows(codec, keys[i], section[keys[i]], rows[i]);
    }
  }

  lemma BlockingServiceRows<N(!new)>(codec: Codec<N>, section: map<string, Tree<N>>, keys: seq<string>,
      rows: seq<ServiceRow>)
    requires |rows| == |keys| && forall key :: key in section ==> key in keys
    requires forall i :: 0 <= i < |keys| ==> RowBlocks(codec, section, keys[i], rows[i])
    ensures BuildServices(codec, rows).None? <==> exists key :: BlockingService(codec, section, key)
  {
    var blocking := key => BlockingService(codec, section, key);
    ThrowsAtKey(rows, keys, (row: ServiceRow) => row.identifier, (row: ServiceRow) => WriteService(codec, row),
        blocking);
    assert forall key :: blocking(key) <==> BlockingService(codec, section, key);
  }

  lemma ThrowsAtKey<R, V>(
      rows: seq<R>, keys: seq<string>, identifier: R -> string, write: R -> Option<V>, blocking: string -> bool)
    requires |rows| == |keys| && forall key :: blocking(key) ==> key in keys
    requires forall i :: 0 <= i < |keys| ==> (Unwritable(rows[i], identifier, write) <==> blocking(keys[i]))
    ensures Build(rows, identifier, write).None? <==> exists key :: blocking(key)
  {
    BuildThrowsExactly(rows, identifier, write);
    if key :| blocking(key) {
      var i :| 0 <= i < |keys| && keys[i] == key;
      assert Unwritable(rows[i], identifier, write);
    }
  }

  /** A row that writes an entry of a section back under its own key. */
  ghost predicate Carries<N(!new)>(section: map<string, Tree<N>>, key: string, identifier: string,
      written: Option<Tree<N>>)
  {
    key in section && CleanKey(key) && identifier == key && written == Some(section[key])
  }

  // ----- events -----

  predicate TypedEvent(row: EventRow) {
    row.level in EVENT_LEVELS && TypedParams(row.outputs)
  }

  predicate TypedEvents(rows: seq<EventRow>) {
    forall i :: 0 <= i < |rows| ==> TypedEvent(rows[i])
  }

  ghost predicate CanonicalEvents<N(!new)>(codec: Codec<N>, section: map<string, Tree<N>>) {
    CanonicalSection(section, definition => CanonicalEvent(codec, definition))
  }

  lemma EventShapeComesBack<N(!new)>(fields: map<string, Tree<N>>)
    requires EventShape(fields)
    ensures map["name" := String(JsTrim(TextOf(Get(fields, "name")))),
                "level" := String(OneOf(Get(fields, "level"), EVENT_LEVELS, "info")),
                "desc" := String(JsTrim(TextOf(Get(fields, "desc")))),
                "output" := Object(FieldsOf(Get(fields, "output")))] == fields
  {
  }

  lemma CanonicalEventComesBack<N(!new)>(codec: Codec<N>, identifier: string, definition: Tree<N>, row: EventRow)
    requires Sound(codec) && CanonicalEvent(codec, definition) && IsEventRow(codec, identifier, definition, row)
    ensures WriteEvent(codec, row) == Some(definition)
  {
    EventShapeComesBack(definition.fields);
    CanonicalParamsComeBack(codec, definition.fields["output"].fields, row.outputs);
  }

  lemma WrittenEventIsCanonical<N(!new)>(codec: Codec<N>, row: EventRow)
    requires TypedEvent(row) && WriteEvent(codec, row).Some?
    ensures CanonicalEvent(codec, WriteEvent(codec, row).value)
  {
    WrittenParamsAreCanonical(codec, row.outputs);
  }

  lemma SavedEventsAreCanonical<N(!new)>(codec: Codec<N>, rows: seq<EventRow>)
    requires TypedEvents(rows) && BuildEvents(codec, rows).Some?
    ensures CanonicalEvents(codec, BuildEvents(codec, rows).value)
  {
    var built := BuildEvents(codec, rows).value;
    forall key | key in built
      ensures CleanKey(key) && CanonicalEvent(codec, built[key])
    {
      var i := BuiltFromRows(rows, (row: EventRow) => row.identifier, (row: EventRow) => WriteEvent(codec, row), key);
      WrittenEventIsCanonical(codec, rows[i]);
    }
  }

  lemma CanonicalEventCarries<N(!new)>(codec: Codec<N>, section: map<string, Tree<N>>, key: string, row: EventRow)
    requires Sound(codec) && CanonicalEvents(codec, section) && key in section &&
        IsEventRow(codec, key, section[key], row)
    ensures Carries(section, key, row.identifier, WriteEvent(codec, row))
  {
    CanonicalEventComesBack(codec, key, section[key], row);
  }

  lemma CanonicalEventsComeBack<N(!new)>(codec: Codec<N>, section: map<string, Tree<N>>, rows: seq<EventRow>)
    requires Sound(codec) && CanonicalEvents(codec, section) && EventRowsOf(codec, section, rows)
    ensures BuildEvents(codec, rows) == Some(section)
  {
    var keys :| Enumerates(keys, section) && |rows| == |keys|
      && forall i :: 0 <= i < |keys| ==> IsEventRow(codec, keys[i], section[keys[i]], rows[i]);
    forall i | 0 <= i < |keys|
      ensures Carries(section, keys[i], rows[i].identifier, WriteEvent(codec, rows[i]))
    {
      assert keys[i] in keys;
      CanonicalEventCarries(codec, section, keys[i], rows[i]);
    }
    EventsAreRestored(codec, section, keys, rows);
  }

  lemma EventsAreRestored<N(!new)>(codec: Codec<N>, section: map<string, Tree<N>>, keys: seq<string>,
      rows: seq<EventRow>)
    requires |rows| == |keys| && forall key :: key in section ==> key in keys
    requires forall i :: 0 <= i < |keys| ==> Carries(section, keys[i], rows[i].identifier, WriteEvent(codec, rows[i]))
    ensures BuildEvents(codec, rows) == Some(section)
  {
    BuildRestores(keys, section, rows, (row: EventRow) => row.identifier, (row: EventRow) => WriteEvent(codec, row));
  }

  lemma ReadEventIsTyped<N(!new)>(codec: Codec<N>, identifier: string, definition: Tree<N>, row: EventRow)
    requires IsEventRow(codec, identifier, definition, row)
    ensures TypedEvent(row)
  {
    ReadParamsAreTyped(codec, FieldsOf(Get(FieldsOf(Some(definition)), "output")), row.outputs);
  }

  lemma ReadEventsAreTyped<N(!new)>(codec: Codec<N>, section: map<string, Tree<N>>, rows: seq<EventRow>)
    requires EventRowsOf(codec, section, rows)
    ensures TypedEvents(rows)
  {
    var keys :| Enumerates(keys, section) && |rows| == |keys|
      && forall i :: 0 <= i < |keys| ==> IsEventRow(codec, keys[i], section[keys[i]], rows[i]);
    forall i | 0 <= i < |keys|
      ensures TypedEvent(rows[i])
    {
      assert keys[i] in keys;
      ReadEventIsTyped(codec, keys[i], section[keys[i]], rows[i]);
    }
  }

  lemma EventFixedPoints<N(!new)>(codec: Codec<N>, section: map<string, Tree<N>>, rows: seq<EventRow>)
    requires Sound(codec) && EventRowsOf(codec, section, rows)
    ensures BuildEvents(codec, rows) == Some(section) <==> CanonicalEvents(codec, section)
  {
    ReadEventsAreTyped(codec, section, rows);
    if BuildEvents(codec, rows) == Some(section) {
      SavedEventsAreCanonical(codec, rows);
    }
    if CanonicalEvents(codec, section) {
      CanonicalEventsComeBack(codec, section, rows);
    }
  }

  lemma EventsSettle<N(!new)>(
      codec: Codec<N>, section: map<string, Tree<N>>, rows: seq<EventRow>, saved: map<string, Tree<N>>,
      again: seq<EventRow>)
    requires Sound(codec) && EventRowsOf(codec, section, rows) && BuildEvents(codec, rows) == Some(saved)
    requires EventRowsOf(codec, saved, again)
    ensures BuildEvents(codec, again) == Some(saved)
  {
    ReadEventsAreTyped(codec, section, rows);
    SavedEventsAreCanonical(codec, rows);
    CanonicalEventsComeBack(codec, saved, again);
  }

  // ----- services -----

  predicate TypedService(row: ServiceRow) {
    row.callType in CALL_TYPES && TypedParams(row.inputs) && TypedParams(row.outputs)
  }

  predicate TypedServices(rows: seq<ServiceRow>) {
    forall i :: 0 <= i < |rows| ==> TypedService(rows[i])
  }

  ghost predicate CanonicalServices<N(!new)>(codec: Codec<N>, section: map<string, Tree<N>>) {
    CanonicalSection(section, definition => CanonicalService(codec, definition))
  }

  lemma ServiceShapeComesBack<N(!new)>(fields: map<string, Tree<N>>)
    requires ServiceShape(fields)
    ensures map["name" := String(JsTrim(TextOf(Get(fields, "name")))),
                "call_type" := String(OneOf(Get(fields, "call_type"), CALL_TYPES, "sync")),
                "desc" := String(JsTrim(TextOf(Get(fields, "desc")))),
                "input" := Object(FieldsOf(Get(fields, "input"))),
                "output" := Object(FieldsOf(Get(fields, "output")))] == fields
  {
  }

  lemma CanonicalServiceComesBack<N(!new)>(codec: Codec<N>, identifier: string, definition: Tree<N>, row: ServiceRow)
    requires Sound(codec) && CanonicalService(codec, definition) && IsServiceRow(codec, identifier, definition, row)
    ensures WriteService(codec, row) == Some(definition)
  {
    ServiceShapeComesBack(definition.fields);
    CanonicalParamsComeBack(codec, definition.fields["input"].fields, row.inputs);
    CanonicalParamsComeBack(codec, definition.fields["output"].fields, row.outputs);
  }

  lemma WrittenServiceIsCanonical<N(!new)>(codec: Codec<N>, row: ServiceRow)
    requires TypedService(row)
    requires WriteService(codec, row).Some?
    ensures CanonicalService(codec, WriteService(codec, row).value)
  {
    WrittenParamsAreCanonical(codec, row.inputs);
    WrittenParamsAreCanonical(codec, row.outputs);
  }

  lemma SavedServicesAreCanonical<N(!new)>(codec: Codec<N>, rows: seq<ServiceRow>)
    requires TypedServices(rows) && BuildServices(codec, rows).Some?
    ensures CanonicalServices(codec, BuildServices(codec, rows).value)
  {
    var built := BuildServices(codec, rows).value;
    forall key | key in built
      ensures CleanKey(key) && CanonicalService(codec, built[key])
    {
      var i := BuiltFromRows(rows, (row: ServiceRow) => row.identifier, (row: ServiceRow) => WriteService(codec, row),
          key);
      WrittenServiceIsCanonical(codec, rows[i]);
    }
  }

  lemma CanonicalServiceCarries<N(!new)>(codec: Codec<N>, section: map<string, Tree<N>>, key: string, row: ServiceRow)
    requires Sound(codec) && CanonicalServices(codec, section) && key in section &&
        IsServiceRow(codec, key, section[key], row)
    ensures Carries(section, key, row.identifier, WriteService(codec, row))
  {
    CanonicalServiceComesBack(codec, key, section[key], row);
  }

  lemma CanonicalServicesComeBack<N(!new)>(codec: Codec<N>, section: map<string, Tree<N>>, rows: seq<ServiceRow>)
    requires Sound(codec) && CanonicalServices(codec, section) && ServiceRowsOf(codec, section, rows)
    ensures BuildServices(codec, rows) == Some(section)
  {
    var keys :| Enumerates(keys, section) && |rows| == |keys|
      && forall i :: 0 <= i < |keys| ==> IsServiceRow(codec, keys[i], section[keys[i]], rows[i]);
    forall i | 0 <= i < |keys|
      ensures Carries(section, keys[i], rows[i].identifier, WriteService(codec, rows[i]))
    {
      assert keys[i] in keys;
      CanonicalServiceCarries(codec, section, keys[i], rows[i]);
    }
    ServicesAreRestored(codec, section, keys, rows);
  }

  lemma ServicesAreRestored<N(!new)>(codec: Codec<N>, section: map<string, Tree<N>>, keys: seq<string>,
      rows: seq<ServiceRow>)
    requires |rows| == |keys| && forall key :: key in section ==> key in keys
    requires forall i :: 0 <= i < |keys| ==> Carries(section, keys[i], rows[i].identifier, WriteService(codec, rows[i]))
    ensures BuildServices(codec, rows) == Some(section)
  {
    BuildRestores(keys, section, rows, (row: ServiceRow) => row.identifier,
        (row: ServiceRow) => WriteService(codec, row));
  }

  lemma ReadServiceIsTyped<N(!new)>(codec: Codec<N>, identifier: string, definition: Tree<N>, row: ServiceRow)
    requires IsServiceRow(codec, identifier, definition, row)
    ensures TypedService(row)
  {
    ReadParamsAreTyped(codec, FieldsOf(Get(FieldsOf(Some(definition)), "input")), row.inputs);
    ReadParamsAreTyped(codec, FieldsOf(Get(FieldsOf(Some(definition)), "output")), row.outputs);
  }

  lemma ReadServicesAreTyped<N(!new)>(codec: Codec<N>, section: map<string, Tree<N>>, rows: seq<ServiceRow>)
    requires ServiceRowsOf(codec, section, rows)
    ensures TypedServices(rows)
  {
    var keys :| Enumerates(keys, section) && |rows| == |keys|
      && forall i :: 0 <= i < |keys| ==> IsServiceRow(codec, keys[i], section[keys[i]], rows[i]);
    forall i | 0 <= i < |keys|
      ensures TypedService(rows[i])
    {
      assert keys[i] in keys;
      ReadServiceIsTyped(codec, keys[i], section[keys[i]], rows[i]);
    }
  }

  lemma ServiceFixedPoints<N(!new)>(codec: Codec<N>, section: map<string, Tree<N>>, rows: seq<ServiceRow>)
    requires Sound(codec) && ServiceRowsOf(codec, section, rows)
    ensures BuildServices(codec, rows) == Some(section) <==> CanonicalServices(codec, section)
  {
    ReadServicesAreTyped(codec, section, rows);
    if BuildServices(codec, rows) == Some(section) {
      SavedServicesAreCanonical(codec, rows);
    }
    if CanonicalServices(codec, section) {
      CanonicalServicesComeBack(codec, section, rows);
    }
  }

  lemma ServicesSettle<N(!new)>(
      codec: Codec<N>, section: map<string, Tree<N>>, rows: seq<ServiceRow>, saved: map<string, Tree<N>>,
      again: seq<ServiceRow>)
    requires Sound(codec) && ServiceRowsOf(codec, section, rows) && BuildServices(codec, rows) == Some(saved)
    requires ServiceRowsOf(codec, saved, again)
    ensures BuildServices(codec, again) == Some(saved)
  {
    ReadServicesAreTyped(codec, section, rows);
    SavedServicesAreCanonical(codec, rows);
    CanonicalServicesComeBack(codec, saved, again);
  }

  /** The promise asked of the conversions can be kept. */
  lemma SoundCodecExists()
    ensures exists codec: Codec<int> :: Sound(codec)
  {
    var codec: Codec<int> := Codec(
      (value: Tree<int>) =>
        if !value.Number? then ""
        else if value.number < 0 then seq(-value.number, _ => '-')
        else seq(value.number + 1, _ => '+'),
      (text: string) => if text == "" then None else Some(if text[0] == '-' then -|text| else |text| - 1),
      (n: int) => n >= 0);
    forall n: int
      ensures TextRecovers(codec, n)
    {
      assert Trimmed(codec.toText(Number(n)), JsSpace);
    }
    assert Sound(codec);
  }
}
