/** The override arguments that `RequestContext::update` consumes. */
module KeyVals {

  /** Where an override goes; the default kind is `Query`. */
  datatype KeyValType = Query | Header | Body

  /** `KeyValType::default()`: the kind a key without prefix selects. */
  function DefaultKind(): (k: KeyValType)
    ensures Prefix(k) == ""
  {
    Query
  }

  /** An override as `KeyVal::new` builds it: the three fields stored as given
      (the datatype's own equality is the derived `PartialEq`). */
  datatype KeyVal = KeyVal(kvType: KeyValType, key: string, val: string)

  /** The key prefix that selects each kind: none for a query parameter, `#`
      for a header, `@` for a body field. */
  function Prefix(kind: KeyValType): string {
    match kind
    case Query => ""
    case Header => "#"
    case Body => "@"
  }

  /** Splits a key into its kind and its bare name by the prefix convention. */
  function Classify(key: string): (KeyValType, string) {
    if |key| > 0 && key[0] == '#' then (Header, key[1..])
    else if |key| > 0 && key[0] == '@' then (Body, key[1..])
    else (DefaultKind(), key)
  }

  /** Classifying a key and writing it back with its prefix gives the key again. */
  lemma PrefixOfClassified(key: string)
    ensures Prefix(Classify(key).0) + Classify(key).1 == key
  {
    if |key| > 0 && (key[0] == '#' || key[0] == '@') {
      assert key == [key[0]] + key[1..];
    }
  }

  /** A prefixed name classifies as its kind and name; a bare name is only read
      as a query parameter when it does not itself start with a prefix character. */
  lemma ClassifyPrefixed(kind: KeyValType, name: string)
    requires kind == Query ==> name == [] || (name[0] != '#' && name[0] != '@')
    ensures Classify(Prefix(kind) + name) == (kind, name)
  {
    var key := Prefix(kind) + name;
    if kind == Query {
      assert key == name;
    } else {
      assert key[0] == Prefix(kind)[0] && key[1..] == name;
    }
  }
}
