/** Decoded JSON trees, and how the backend reads fields out of them. */
module Json {
  import opened Wrappers
  import opened Text

  /** `N` is how a reader represents numbers. */
  datatype Tree<N> =
    | Null
    | Bool(flag: bool)
    | Number(number: N)
    | String(text: string)
    | Array(items: seq<Tree<N>>)
    | Object(fields: map<string, Tree<N>>)

  /** To the services a number is a float64, taken as an exact real. */
  type Value = Tree<real>

  type Fields = map<string, Value>

  /** The field under `key`, `Null` when there is none. */
  function Field(fields: Fields, key: string): Value {
    if key in fields then fields[key] else Null
  }

  /** The trimmed string under `key`, empty when there is none. */
  function StringField(fields: Fields, key: string): (s: string)
    ensures Trimmed(s, GoSpace)
  {
    var value := Field(fields, key);
    if value.String? then TrimSpace(value.text) else ""
  }

  /** An absent key is fine; a key holding anything but a number is an error. */
  function NumberField(fields: Fields, key: string): Result<Option<real>, string> {
    if key !in fields then Success(None)
    else if fields[key].Number? then Success(Some(fields[key].number))
    else Failure(key)
  }

  /** The object under `key`, empty when there is none. */
  function ObjectField(fields: Fields, key: string): Fields {
    var value := Field(fields, key);
    if value.Object? then value.fields else map[]
  }
}
