/** The error values the core reports (all `anyhow::Error` in the source). */
module Errors {
  import opened Wrappers
  import opened Text
  import opened Http

  datatype Error =
    | ProfileNotFound(profile: string)
    | ApiProfileNotFound(profile: string)
    | ParamsNotObject(profile: string)
    | UnsupportedScheme
    | UnsupportedContentType(contentType: string)
    | InvalidHeaderName(name: string)
    | InvalidHeaderValue(value: string)
    | QueryEncoding
    | JsonParse(text: string)
    | MissingValue
    | ConfigFileNotFound
    | DefaultConfigNotFound(locations: seq<string>)
    | Transport

  /** The text of the errors the source formats itself; `None` for the ones
      whose text a library produces. */
  function Message(e: Error): Option<string> {
    match e
    case ProfileNotFound(p) => Some("profile " + p + " not found")
    case ApiProfileNotFound(p) => Some("api profile " + p + " not found")
    case ParamsNotObject(p) => Some("params must be an object in profile: " + p)
    case UnsupportedScheme => Some("unsupported scheme")
    case UnsupportedContentType(ct) => Some("unsupported content-type: " + DebugValue(ct))
    case MissingValue => Some("missing value")
    case ConfigFileNotFound => Some("config file not found")
    case DefaultConfigNotFound(locations) =>
      Some("Config file not found. You can either specify it with the --config option "
           + "or put it in one of the following locations: " + Join(locations, ", "))
    case _ => None
  }
}
