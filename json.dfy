/** The `serde_json::Value` tree that holds a request's params and body, and
    the one mutation the source performs on it: `value[key] = Value::String(..)`. */
module Json {
  import opened Wrappers

  /** Numbers are kept as integers: no operation of the model looks inside them. */
  datatype Json =
    | Null
    | Bool(b: bool)
    | Number(n: int)
    | Str(s: string)
    | Array(items: seq<Json>)
    | Object(fields: map<string, Json>)

  /** Values that `IndexMut<&str>` accepts: an object, or null (which becomes
      an empty object first). Indexing any other value panics. */
  predicate Indexable(j: Json) {
    j.Null? || j.Object?
  }

  /** What `value.get(key)` returns. */
  function Field(j: Json, key: string): Option<Json> {
    if j.Object? && key in j.fields then Some(j.fields[key]) else None
  }

  /** `j[key] = v`: inserts or replaces the entry under `key`, whatever it held
      before (a string, an array, an object), and leaves every other key alone. */
  function Upsert(j: Json, key: string, v: Json): (r: Json)
    requires Indexable(j)
    ensures r.Object?
    ensures Field(r, key) == Some(v)
    ensures forall k :: k != key ==> Field(r, k) == Field(j, k)
  {
    match j
    case Null => Object(map[key := v])
    case Object(m) => Object(m[key := v])
  }

  /** The value of the last pair whose key is `key`, if any. */
  function LastValue(pairs: seq<(string, string)>, key: string): Option<string> {
    if pairs == [] then None
    else if pairs[|pairs| - 1].0 == key then Some(pairs[|pairs| - 1].1)
    else LastValue(pairs[..|pairs| - 1], key)
  }

  /** The binaries' `for (key, val) in extra_params { params[key] = Value::String(val) }`,
      as a function of the table before the loop. */
  function UpsertStrings(j: Json, pairs: seq<(string, string)>): (r: Json)
    requires Indexable(j)
    ensures Indexable(r)
    ensures pairs != [] ==> r.Object?
    ensures pairs == [] ==> r == j
  {
    if pairs == [] then j
    else Upsert(UpsertStrings(j, pairs[..|pairs| - 1]), pairs[|pairs| - 1].0, Str(pairs[|pairs| - 1].1))
  }

  /** Last write wins: after the loop a key holds the string of its last pair,
      and a key no pair mentions holds what it held before. */
  lemma {:induction false} UpsertStringsLastWins(j: Json, pairs: seq<(string, string)>, key: string)
    requires Indexable(j)
    ensures Field(UpsertStrings(j, pairs), key) ==
              match LastValue(pairs, key)
              case Some(v) => Some(Str(v))
              case None => Field(j, key)
  {
    if pairs != [] {
      UpsertStringsLastWins(j, pairs[..|pairs| - 1], key);
    }
  }
}
