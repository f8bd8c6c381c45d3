/** The libraries the core calls but whose code is not part of this model,
    passed in as functions so that every property below holds whatever they do. */
module Foreign {
  import opened Wrappers
  import opened Json
  import opened Changes

  datatype Libraries = Libraries(
    /** `HeaderName::from_str`: the normalised (lower-case) name, or `None` if invalid. */
    parseHeaderName: string -> Option<string>,
    /** `HeaderValue::from_str` succeeds. */
    validHeaderValue: string -> bool,
    /** `serde_qs::to_string` of the params, or `None` if it fails. */
    encodeQuery: Json -> Option<string>,
    /** `serde_json::to_string`. */
    serialize: Json -> string,
    /** `serde_json::from_str::<Value>`, or `None` if the text is not JSON. */
    parseJson: string -> Option<Json>,
    /** `serde_json::to_string_pretty`. */
    pretty: Json -> string,
    /** `StatusCode::canonical_reason`. */
    reason: nat -> Option<string>,
    /** `TextDiff::from_lines(old, new).grouped_ops(3)`, each operation expanded
        by `iter_inline_changes`. */
    groupLines: (string, string) -> seq<Group>,
    /** The hunks of `TextDiff::from_lines(old, new).unified_diff()`, each as text. */
    unifiedHunks: (string, string) -> seq<string>)
}
