/** The thing-model editor: from a stored model to table rows and back. */
module Editor {
  import opened Wrappers
  import opened Text
  import opened Json

  /**
   * The conversions of ECMAScript, with `N` its finite numbers: `String(x)`, `Number(text)` when it is
   * finite, and whether a number is a non-negative integer.
   */
  datatype Codec<!N(!new)> = Codec(toText: Tree<N> -> string, toNumber: string -> Option<N>, natural: N -> bool)

  function JsTrim(s: string): (t: string)
    ensures Trimmed(t, JsSpace)
    ensures Trimmed(s, JsSpace) ==> t == s
  {
    Trim(s, JsSpace)
  }

  /** ECMAScript's promise: a finite number is recovered from its text. */
  ghost predicate Sound<N(!new)>(codec: Codec<N>) {
    forall n: N :: TextRecovers(codec, n)
  }

  ghost predicate TextRecovers<N(!new)>(codec: Codec<N>, n: N) {
    var text := JsTrim(codec.toText(Number(n)));
    text != "" && codec.toNumber(text) == Some(n)
  }

  // ----- the closed sets of the drafts -----

  const DATA_TYPES: seq<string> := ["int", "float", "double", "bool", "string"]
  const ACCESS_MODES: seq<string> := ["read", "write", "readwrite"]
  const EVENT_LEVELS: seq<string> := ["info", "warning", "error"]
  const CALL_TYPES: seq<string> := ["sync", "async"]

  function OneOf<N>(value: Option<Tree<N>>, allowed: seq<string>, default: string): (s: string)
    requires default in allowed
    ensures s in allowed
  {
    if value.Some? && value.value.String? && value.value.text in allowed then value.value.text else default
  }

  /** A text that is one of the choices is kept as it is; anything else becomes the default. */
  lemma ChoiceExactly<N>(value: Option<Tree<N>>, allowed: seq<string>, default: string)
    requires default in allowed
    ensures forall s :: s in allowed ==> OneOf(Some(Tree<N>.String(s)), allowed, default) == s
    ensures value.None? || !value.value.String? || value.value.text !in allowed ==>
        OneOf(value, allowed, default) == default
  {
  }

  /** The choices each draft offers. */
  lemma OffersExactly(s: string)
    ensures s in DATA_TYPES <==> s == "int" || s == "float" || s == "double" || s == "bool" || s == "string"
    ensures s in ACCESS_MODES <==> s == "read" || s == "write" || s == "readwrite"
    ensures s in EVENT_LEVELS <==> s == "info" || s == "warning" || s == "error"
    ensures s in CALL_TYPES <==> s == "sync" || s == "async"
  {
    assert DATA_TYPES[0] == "int" && DATA_TYPES[1] == "float" && DATA_TYPES[2] == "double";
    assert DATA_TYPES[3] == "bool" && DATA_TYPES[4] == "string";
    assert ACCESS_MODES[0] == "read" && ACCESS_MODES[1] == "write" && ACCESS_MODES[2] == "readwrite";
    assert EVENT_LEVELS[0] == "info" && EVENT_LEVELS[1] == "warning" && EVENT_LEVELS[2] == "error";
    assert CALL_TYPES[0] == "sync" && CALL_TYPES[1] == "async";
  }

  // ----- reading a definition -----

  function Get<N>(fields: map<string, Tree<N>>, key: string): Option<Tree<N>> {
    if key in fields then Some(fields[key]) else None
  }

  function TextOf<N>(value: Option<Tree<N>>): string {
    if value.Some? && value.value.String? then value.value.text else ""
  }

  function FlagOf<N>(value: Option<Tree<N>>): bool {
    value.Some? && value.value.Bool? && value.value.flag
  }

  function FieldsOf<N>(value: Option<Tree<N>>): map<string, Tree<N>> {
    if value.Some? && value.value.Object? then value.value.fields else map[]
  }

  datatype ParamRow = ParamRow(
    identifier: string, name: string, dataType: string, required: bool,
    min: string, max: string, step: string, unit: string, precision: string)

  datatype PropertyRow = PropertyRow(param: ParamRow, accessMode: string)

  datatype EventRow = EventRow(identifier: string, name: string, desc: string, level: string, outputs: seq<ParamRow>)

  datatype ServiceRow = ServiceRow(
    identifier: string, name: string, desc: string, callType: string, inputs: seq<ParamRow>, outputs: seq<ParamRow>)

  function SpecText<N(!new)>(codec: Codec<N>, spec: map<string, Tree<N>>, key: string): string {
    if key in spec then codec.toText(spec[key]) else ""
  }

  function ReadParam<N(!new)>(codec: Codec<N>, identifier: string, definition: Tree<N>): ParamRow {
    var body := FieldsOf(Some(definition));
    var spec := FieldsOf(Get(body, "spec"));
    ParamRow(
      identifier,
      TextOf(Get(body, "name")),
      OneOf(Get(body, "data_type"), DATA_TYPES, "string"),
      FlagOf(Get(body, "required")),
      SpecText(codec, spec, "min"),
      SpecText(codec, spec, "max"),
      SpecText(codec, spec, "step"),
      TextOf(Get(spec, "unit")),
      SpecText(codec, spec, "precision"))
  }

  /**
   * Whatever is absent or of the wrong kind is shown blank, as text, as not required; limits of any kind as
   * their text.
   */
  lemma BlanksAreShown<N(!new)>(codec: Codec<N>, identifier: string, definition: Tree<N>)
    ensures
      var row := ReadParam(codec, identifier, definition);
      && row.identifier == identifier
      && (!definition.Object? ==> row == ParamRow(identifier, "", "string", false, "", "", "", "", ""))
      && (definition.Object? ==>
           var fields := definition.fields;
           && (row.required <==> "required" in fields && fields["required"].Bool? && fields["required"].flag)
           && row.name == (if "name" in fields && fields["name"].String? then fields["name"].text else "")
           && ("data_type" !in fields || !fields["data_type"].String? ==> row.dataType == "string")
           && ("spec" !in fields || !fields["spec"].Object? ==>
                row.min == "" && row.max == "" && row.step == "" && row.unit == "" && row.precision == ""))
  {
  }

  /** Limits are shown as the language writes them, the unit only if it is a text. */
  lemma LimitsAreShown<N(!new)>(codec: Codec<N>, identifier: string, definition: Tree<N>)
    requires definition.Object? && "spec" in definition.fields && definition.fields["spec"].Object?
    ensures
      var row, spec := ReadParam(codec, identifier, definition), definition.fields["spec"].fields;
      && row.min == (if "min" in spec then codec.toText(spec["min"]) else "")
      && row.max == (if "max" in spec then codec.toText(spec["max"]) else "")
      && row.step == (if "step" in spec then codec.toText(spec["step"]) else "")
      && row.precision == (if "precision" in spec then codec.toText(spec["precision"]) else "")
      && row.unit == (if "unit" in spec && spec["unit"].String? then spec["unit"].text else "")
  {
  }

  function ReadProperty<N(!new)>(codec: Codec<N>, identifier: string, definition: Tree<N>): PropertyRow {
    PropertyRow(
      ReadParam(codec, identifier, definition),
      OneOf(Get(FieldsOf(Some(definition)), "access_mode"), ACCESS_MODES, "readwrite"))
  }

  /** The keys of an object, each once, in whatever order they are enumerated. */
  ghost predicate Enumerates<N>(keys: seq<string>, fields: map<string, Tree<N>>) {
    && (forall i, j :: 0 <= i < j < |keys| ==> keys[i] != keys[j])
    && (forall key :: key in keys <==> key in fields)
  }

  ghost predicate ParamRowsOf<N(!new)>(codec: Codec<N>, params: map<string, Tree<N>>, rows: seq<ParamRow>) {
    exists keys :: Enumerates(keys, params) && |rows| == |keys|
      && forall i :: 0 <= i < |keys| ==> rows[i] == ReadParam(codec, keys[i], params[keys[i]])
  }

  ghost predicate IsEventRow<N(!new)>(codec: Codec<N>, identifier: string, definition: Tree<N>, row: EventRow) {
    var body := FieldsOf(Some(definition));
    && row.identifier == identifier
    && row.name == TextOf(Get(body, "name"))
    && row.desc == TextOf(Get(body, "desc"))
    && row.level == OneOf(Get(body, "level"), EVENT_LEVELS, "info")
    && ParamRowsOf(codec, FieldsOf(Get(body, "output")), row.outputs)
  }

  ghost predicate IsServiceRow<N(!new)>(codec: Codec<N>, identifier: string, definition: Tree<N>, row: ServiceRow) {
    var body := FieldsOf(Some(definition));
    && row.identifier == identifier
    && row.name == TextOf(Get(body, "name"))
    && row.desc == TextOf(Get(body, "desc"))
    && row.callType == OneOf(Get(body, "call_type"), CALL_TYPES, "sync")
    && ParamRowsOf(codec, FieldsOf(Get(body, "input")), row.inputs)
    && ParamRowsOf(codec, FieldsOf(Get(body, "output")), row.outputs)
  }

  // ----- writing a definition; `None` stands for a thrown error -----

  function NumberFrom<N(!new)>(codec: Codec<N>, text: string): Option<Option<N>> {
    var trimmed := JsTrim(text);
    if trimmed == "" then Some(None)
    else if codec.toNumber(trimmed).None? then None
    else Some(codec.toNumber(trimmed))
  }

  function NaturalFrom<N(!new)>(codec: Codec<N>, text: string): Option<Option<N>> {
    var number := NumberFrom(codec, text);
    if number.Some? && number.value.Some? && !codec.natural(number.value.value) then None else number
  }

  /** A blank limit is none, a text that is no number throws, and a precision must be a non-negative integer too. */
  lemma LimitsAreRead<N(!new)>(codec: Codec<N>, text: string, n: N)
    ensures NumberFrom(codec, text) == Some(None) <==> JsTrim(text) == ""
    ensures NumberFrom(codec, text).None? <==> JsTrim(text) != "" && codec.toNumber(JsTrim(text)).None?
    ensures NumberFrom(codec, text) == Some(Some(n)) <==> JsTrim(text) != "" && codec.toNumber(JsTrim(text)) == Some(n)
    ensures NaturalFrom(codec, text) == Some(None) <==> JsTrim(text) == ""
    ensures NaturalFrom(codec, text) == Some(Some(n)) <==>
            JsTrim(text) != "" && codec.toNumber(JsTrim(text)) == Some(n) && codec.natural(n)
  {
  }

  function WithNumber<N>(spec: map<string, Tree<N>>, key: string, number: Option<N>): map<string, Tree<N>> {
    if number.Some? then spec[key := Number(number.value)] else spec
  }

  /** A specification holds the numbers given and a unit that is not blank. */
  function Assemble<N>(min: Option<N>, max: Option<N>, step: Option<N>, unit: string, precision: Option<N>)
    : map<string, Tree<N>>
  {
    var numbers := WithNumber(WithNumber(WithNumber(map[], "min", min), "max", max), "step", step);
    WithNumber(if unit != "" then numbers["unit" := String(unit)] else numbers, "precision", precision)
  }

  function WriteSpec<N(!new)>(codec: Codec<N>, row: ParamRow): Option<map<string, Tree<N>>> {
    var min, max := NumberFrom(codec, row.min), NumberFrom(codec, row.max);
    var step, precision := NumberFrom(codec, row.step), NaturalFrom(codec, row.precision);
    if min.None? || max.None? || step.None? || precision.None? then None
    else Some(Assemble(min.value, max.value, step.value, JsTrim(row.unit), precision.value))
  }

  function ParamFields<N(!new)>(codec: Codec<N>, row: ParamRow): Option<map<string, Tree<N>>> {
    var spec := WriteSpec(codec, row);
    if spec.None? then None
    else
      var definition: map<string, Tree<N>> :=
        map["name" := String(JsTrim(row.name)), "data_type" := String(row.dataType), "required" := Bool(row.required)];
      Some(if |spec.value| == 0 then definition else definition["spec" := Object(spec.value)])
  }

  function WriteParam<N(!new)>(codec: Codec<N>, row: ParamRow): Option<Tree<N>> {
    var fields := ParamFields(codec, row);
    if fields.Some? then Some(Object(fields.value)) else None
  }

  function WriteProperty<N(!new)>(codec: Codec<N>, row: PropertyRow): Option<Tree<N>> {
    var fields := ParamFields(codec, row.param);
    if fields.None? then None else Some(Object(fields.value["access_mode" := String(row.accessMode)]))
  }

  /** The accumulation shared by all tables: blank identifiers are skipped, later rows overwrite earlier ones. */
  function Build<R, V>(rows: seq<R>, identifier: R -> string, write: R -> Option<V>): Option<map<string, V>> {
    if rows == [] then Some(map[])
    else
      var init, row := Build(rows[..|rows| - 1], identifier, write), rows[|rows| - 1];
      var key := JsTrim(identifier(row));
      if init.None? then None
      else if key == "" then init
      else if write(row).None? then None
      else Some(init.value[key := write(row).value])
  }

  /** A row the accumulation cannot write. */
  predicate Unwritable<R, V>(row: R, identifier: R -> string, write: R -> Option<V>) {
    JsTrim(identifier(row)) != "" && write(row).None?
  }

  /** The same as a loop: it throws at the first unwritable row. */
  method ObjectFromRows<R, V>(rows: seq<R>, identifier: R -> string, write: R -> Option<V>)
    returns (r: Option<map<string, V>>)
    ensures r == Build(rows, identifier, write)
    ensures r.None? <==> exists row :: row in rows && Unwritable(row, identifier, write)
  {
    var result: map<string, V> := map[];
    for i := 0 to |rows|
      invariant Build(rows[..i], identifier, write) == Some(result)
      invariant forall row :: row in rows[..i] ==> !Unwritable(row, identifier, write)
    {
      BuildStep(rows, i, identifier, write);
      var row := rows[i];
      var key := JsTrim(identifier(row));
      if key != "" {
        var definition := write(row);
        if definition.None? {
          assert row in rows && Unwritable(row, identifier, write);
          BuildThrows(rows, i + 1, identifier, write);
          return None;
        }
        result := result[key := definition.value];
      }
    }
    assert rows[..|rows|] == rows;
    return Some(result);
  }

  lemma BuildStep<R, V>(rows: seq<R>, i: nat, identifier: R -> string, write: R -> Option<V>)
    requires i < |rows|
    ensures var before, key := Build(rows[..i], identifier, write), JsTrim(identifier(rows[i]));
            Build(rows[..i + 1], identifier, write) ==
              if before.None? then None else if key == "" then before
              else if write(rows[i]).None? then None else Some(before.value[key := write(rows[i]).value])
  {
    assert rows[..i + 1][..i] == rows[..i];
  }

  lemma {:induction false} BuildThrows<R, V>(rows: seq<R>, n: nat, identifier: R -> string, write: R -> Option<V>)
    requires n <= |rows| && Build(rows[..n], identifier, write).None?
    ensures Build(rows, identifier, write).None?
    decreases |rows| - n
  {
    if n == |rows| {
      assert rows[..n] == rows;
    } else {
      BuildStep(rows, n, identifier, write);
      BuildThrows(rows, n + 1, identifier, write);
    }
  }

  function BuildParams<N(!new)>(codec: Codec<N>, rows: seq<ParamRow>): Option<map<string, Tree<N>>> {
    Build(rows, (row: ParamRow) => row.identifier, (row: ParamRow) => WriteParam(codec, row))
  }

  function WriteEvent<N(!new)>(codec: Codec<N>, row: EventRow): Option<Tree<N>> {
    var output := BuildParams(codec, row.outputs);
    if output.None? then None
    else Some(Object(map["name" := String(JsTrim(row.name)), "level" := String(row.level),
                         "desc" := String(JsTrim(row.desc)), "output" := Object(output.value)]))
  }

  function WriteService<N(!new)>(codec: Codec<N>, row: ServiceRow): Option<Tree<N>> {
    var input, output := BuildParams(codec, row.inputs), BuildParams(codec, row.outputs);
    if input.None? || output.None? then None
    else Some(Object(map["name" := String(JsTrim(row.name)), "call_type" := String(row.callType),
                         "desc" := String(JsTrim(row.desc)), "input" := Object(input.value),
                         "output" := Object(output.value)]))
  }

  function BuildProperties<N(!new)>(codec: Codec<N>, rows: seq<PropertyRow>): Option<map<string, Tree<N>>> {
    Build(rows, (row: PropertyRow) => row.param.identifier, (row: PropertyRow) => WriteProperty(codec, row))
  }

  function BuildEvents<N(!new)>(codec: Codec<N>, rows: seq<EventRow>): Option<map<string, Tree<N>>> {
    Build(rows, (row: EventRow) => row.identifier, (row: EventRow) => WriteEvent(codec, row))
  }

  function BuildServices<N(!new)>(codec: Codec<N>, rows: seq<ServiceRow>): Option<map<string, Tree<N>>> {
    Build(rows, (row: ServiceRow) => row.identifier, (row: ServiceRow) => WriteService(codec, row))
  }

  // ----- the rows of a whole model -----

  ghost predicate PropertyRowsOf<N(!new)>(codec: Codec<N>, model: map<string, Tree<N>>, rows: seq<PropertyRow>) {
    exists keys :: Enumerates(keys, model) && |rows| == |keys|
      && forall i :: 0 <= i < |keys| ==> rows[i] == ReadProperty(codec, keys[i], model[keys[i]])
  }

  ghost predicate EventRowsOf<N(!new)>(codec: Codec<N>, model: map<string, Tree<N>>, rows: seq<EventRow>) {
    exists keys :: Enumerates(keys, model) && |rows| == |keys|
      && forall i :: 0 <= i < |keys| ==> IsEventRow(codec, keys[i], model[keys[i]], rows[i])
  }

  ghost predicate ServiceRowsOf<N(!new)>(codec: Codec<N>, model: map<string, Tree<N>>, rows: seq<ServiceRow>) {
    exists keys :: Enumerates(keys, model) && |rows| == |keys|
      && forall i :: 0 <= i < |keys| ==> IsServiceRow(codec, keys[i], model[keys[i]], rows[i])
  }
}
