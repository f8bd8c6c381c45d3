/** The HTTP vocabulary the core works with: URLs, header maps, the request
    plan handed to the transport and the response it hands back. */
module Http {
  import opened Wrappers
  import opened Text

  /** A parsed `url::Url`: its scheme, everything up to the query, and the query. */
  datatype Url = Url(scheme: string, location: string, query: Option<string>)

  /** A request `http::HeaderMap`: each (normalised) name maps to its values. */
  type HeaderMap = map<string, seq<string>>

  const CONTENT_TYPE: string := "content-type"

  /** `HeaderMap::get`: the first value stored under `name`. */
  function HeaderGet(m: HeaderMap, name: string): Option<string> {
    if name in m && |m[name]| > 0 then Some(m[name][0]) else None
  }

  /** Everything the core asks the transport to perform: method, URL with its
      query, headers, serialised body and the client's default user agent. */
  datatype Plan = Plan(httpMethod: string, url: Url, headers: HeaderMap, body: Option<string>, userAgent: string)

  /** A response as the core consumes it: status code, headers in `HeaderMap`
      iteration order (values of one name are adjacent), body text. */
  datatype Response = Response(status: nat, headers: seq<(string, string)>, body: string)

  /** `HeaderMap::get` on a response's headers: the first value under `name`. */
  function ResponseHeader(hs: seq<(string, string)>, name: string): Option<string> {
    if hs == [] then None
    else if hs[0].0 == name then Some(hs[0].1)
    else ResponseHeader(hs[1..], name)
  }

  /** `HeaderMap::get_all`: every value under `name`, in order. */
  function AllValues(hs: seq<(string, string)>, name: string): (r: seq<string>)
    ensures |r| > 0 <==> ResponseHeader(hs, name).Some?
    ensures |r| > 0 ==> r[0] == ResponseHeader(hs, name).value
  {
    if hs == [] then []
    else if hs[0].0 == name then [hs[0].1] + AllValues(hs[1..], name)
    else AllValues(hs[1..], name)
  }

  /** `PartialEq` of `HeaderMap`: as many values in all, and every name of the
      first map has the same list of values in the second. */
  predicate SameHeaders(h1: seq<(string, string)>, h2: seq<(string, string)>) {
    && |h1| == |h2|
    && forall i :: 0 <= i < |h1| ==> AllValues(h1, h1[i].0) == AllValues(h2, h1[i].0)
  }

  predicate IsVisibleAscii(c: char) {
    (32 <= c as int < 127) || c == '\t'
  }

  predicate IsLowerHexDigit(c: char) {
    IsDigit(c) || 'a' <= c <= 'f'
  }

  /** `{:x}` of an integer. */
  function LowerHex(n: nat): (r: string)
    ensures |r| >= 1 && forall i :: 0 <= i < |r| ==> IsLowerHexDigit(r[i])
    decreases n
  {
    var d := "0123456789abcdef"[n % 16];
    if n < 16 then [d] else LowerHex(n / 16) + [d]
  }

  function EscapeChar(c: char): string {
    if c == '"' then "\\\""
    else if IsVisibleAscii(c) then [c]
    else "\\x" + LowerHex(c as int)
  }

  /** The body of `HeaderValue`'s `Debug` output: a double quote becomes `\"`,
      a byte that is not visible ASCII becomes `\x` and its hex code. */
  function EscapeValue(v: string): (r: string)
    ensures NoNewline(r)
    ensures (forall i :: 0 <= i < |v| ==> IsVisibleAscii(v[i]) && v[i] != '"') ==> r == v
  {
    if v == [] then [] else EscapeChar(v[0]) + EscapeValue(v[1..])
  }

  /** `format!("{:?}", header_value)`. */
  function DebugValue(v: string): (r: string)
    ensures NoNewline(r) && |r| >= 2 && r[0] == '"' && r[|r| - 1] == '"'
  {
    "\"" + EscapeValue(v) + "\""
  }

  /** `StatusCode`'s `Display`: the code and its canonical reason phrase. */
  function StatusDisplay(code: nat, reason: nat -> Option<string>): string {
    Decimal(code) + " " + reason(code).GetOr("<unknown status code>")
  }
}
