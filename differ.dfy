/** differ/src/lib.rs: the older API differ, which sends one request to two
    URLs and compares the raw responses. */
module Differ {
  import opened Wrappers
  import opened Text
  import opened Json
  import opened Http
  import opened Errors
  import opened Foreign
  import opened HeaderScan

  /** The user agent of every request. */
  const USER_AGENT: string := "API Diff/0.1.0"

  /** `ApiRequestConfig`: one method, params and header set, two URLs. */
  datatype ApiRequestConfig = ApiRequestConfig(httpMethod: string, url1: Url, url2: Url, params: Json, headers: HeaderMap)

  /** `ApiResponseConfig`; `jq` is read but never applied. */
  datatype ApiResponseConfig = ApiResponseConfig(skipHeaders: seq<string>, jq: Option<string>)

  datatype ApiConfig = ApiConfig(request: ApiRequestConfig, response: ApiResponseConfig)

  /** `DiffConfig`: the profiles live under the `apis` key. */
  datatype DiffConfig = DiffConfig(apis: map<string, ApiConfig>)

  datatype DiffResult = Equal | Diff(text: string)

  /** `ApiConfig::get_api` up to the point where the request is sent. */
  function GetApi(config: ApiConfig, url: Url, lib: Libraries): (r: Result<Plan, Error>)
    ensures url.scheme != "http" && url.scheme != "https" ==> r == Err(UnsupportedScheme)
    ensures r.Ok? <==> (url.scheme == "http" || url.scheme == "https") && lib.encodeQuery(config.request.params).Some?
    ensures r.Ok? ==> r.value == Plan(config.request.httpMethod, url.(query := lib.encodeQuery(config.request.params)),
                                      config.request.headers, None, USER_AGENT)
  {
    if url.scheme != "http" && url.scheme != "https" then Err(UnsupportedScheme)
    else
      match lib.encodeQuery(config.request.params)
      case None => Err(QueryEncoding)
      case Some(qs) => Ok(Plan(config.request.httpMethod, url.(query := Some(qs)), config.request.headers, None, USER_AGENT))
  }

  /** Both requests of a profile agree in everything but the URL they go to. */
  lemma {:induction false} RequestsDifferOnlyInUrl(config: ApiConfig, lib: Libraries)
    requires config.request.url1.scheme in {"http", "https"} && config.request.url2.scheme in {"http", "https"}
    ensures GetApi(config, config.request.url1, lib).Ok? <==> GetApi(config, config.request.url2, lib).Ok?
    ensures GetApi(config, config.request.url1, lib).Ok? ==>
              GetApi(config, config.request.url1, lib).value.(url := config.request.url2.(query := lib.encodeQuery(config.request.params)))
              == GetApi(config, config.request.url2, lib).value
  {
    var u1, u2 := config.request.url1, config.request.url2;
    assert u1.scheme == "http" || u1.scheme == "https";
    assert u2.scheme == "http" || u2.scheme == "https";
  }

  /** The unified diff headed "Response 1" / "Response 2": the file header is
      written before the first hunk only, so no hunks give no text. */
  function UnifiedText(hunks: seq<string>): (r: string)
    ensures hunks == [] ==> r == ""
    ensures hunks != [] ==> |r| >= 30 && r[..30] == "--- Response 1\n+++ Response 2\n"
  {
    if hunks == [] then "" else "--- Response 1\n+++ Response 2\n" + Join(hunks, "")
  }

  /** The report of differing status codes. */
  function StatusMismatch(s1: nat, s2: nat, lib: Libraries): string {
    "status code mismatch: " + StatusDisplay(s1, lib.reason) + " != " + StatusDisplay(s2, lib.reason)
  }

  /** `ApiConfig::diff_response` as a function of the two responses. */
  function ResponseDiff(options: ApiResponseConfig, res1: Response, res2: Response, lib: Libraries): DiffResult {
    if res1.status != res2.status then Diff(StatusMismatch(res1.status, res2.status, lib))
    else if !SameHeaders(res1.headers, res2.headers) && MismatchText(res1.headers, res2.headers, options.skipHeaders) != ""
    then Diff(MismatchText(res1.headers, res2.headers, options.skipHeaders))
    else if res1.body != res2.body then Diff(UnifiedText(lib.unifiedHunks(res1.body, res2.body)) + "\n")
    else Equal
  }

  /** `ApiConfig::diff_response`. */
  method DiffResponse(options: ApiResponseConfig, res1: Response, res2: Response, lib: Libraries) returns (r: DiffResult)
    ensures r == ResponseDiff(options, res1, res2, lib)
  {
    if res1.status != res2.status {
      return Diff(StatusMismatch(res1.status, res2.status, lib));
    }
    if !SameHeaders(res1.headers, res2.headers) {
      var buf := ScanHeaders(res1.headers, res2.headers, options.skipHeaders);
      if buf != "" {
        return Diff(buf);
      }
    }
    if res1.body != res2.body {
      var buf := UnifiedText(lib.unifiedHunks(res1.body, res2.body));
      return Diff(buf + "\n");
    }
    return Equal;
  }

  /** Responses compare equal exactly when their status codes agree, their
      headers are equal or every header of the first that is not skipped
      carries the second's first value under its name, and their bodies are
      the same text: no JSON normalisation happens here. */
  lemma EqualMeansAgreement(options: ApiResponseConfig, res1: Response, res2: Response, lib: Libraries)
    ensures ResponseDiff(options, res1, res2, lib) == Equal <==>
              && res1.status == res2.status
              && (SameHeaders(res1.headers, res2.headers)
                  || forall i :: 0 <= i < |res1.headers| ==> Matches(res1.headers[i], res2.headers, options.skipHeaders))
              && res1.body == res2.body
  {
    ScanEmptyIffAllMatch(res1.headers, res2.headers, options.skipHeaders);
  }

  /** Differing status codes are reported, with both codes and their reason
      phrases, before anything else is looked at. */
  lemma StatusComparedFirst(options: ApiResponseConfig, res1: Response, res2: Response, lib: Libraries)
    requires res1.status != res2.status
    ensures ResponseDiff(options, res1, res2, lib) ==
              Diff("status code mismatch: " + StatusDisplay(res1.status, lib.reason) + " != " + StatusDisplay(res2.status, lib.reason))
  {
  }

  /** Every reported difference is non-empty text; a body difference ends
      with a line break. */
  lemma DiffTextShape(options: ApiResponseConfig, res1: Response, res2: Response, lib: Libraries)
    ensures ResponseDiff(options, res1, res2, lib).Diff? ==> |ResponseDiff(options, res1, res2, lib).text| > 0
    ensures res1.status == res2.status && res1.body != res2.body && ResponseDiff(options, res1, res2, lib).Diff?
            && MismatchText(res1.headers, res2.headers, options.skipHeaders) == "" ==>
              var t := ResponseDiff(options, res1, res2, lib).text;
              t[|t| - 1] == '\n'
  {
    if res1.status != res2.status {
      var t := StatusMismatch(res1.status, res2.status, lib);
      assert t[0] == 's';
    }
  }

  /** `ApiConfig::diff`: `url1` is requested and answered before `url2`. */
  function ApiDiff(config: ApiConfig, lib: Libraries, transport: Plan -> Result<Response, Error>): (r: Result<DiffResult, Error>)
    ensures GetApi(config, config.request.url1, lib).Err? ==> r == Err(GetApi(config, config.request.url1, lib).error)
    ensures r.Ok? ==> GetApi(config, config.request.url1, lib).Ok? && GetApi(config, config.request.url2, lib).Ok?
  {
    var plan1 :- GetApi(config, config.request.url1, lib);
    var res1 :- transport(plan1);
    var plan2 :- GetApi(config, config.request.url2, lib);
    var res2 :- transport(plan2);
    Ok(ResponseDiff(config.response, res1, res2, lib))
  }

  /** `ApiConfig::diff`. */
  method DiffApi(config: ApiConfig, lib: Libraries, transport: Plan -> Result<Response, Error>) returns (r: Result<DiffResult, Error>)
    ensures r == ApiDiff(config, lib, transport)
  {
    var plan1 :- GetApi(config, config.request.url1, lib);
    var res1 :- transport(plan1);
    var plan2 :- GetApi(config, config.request.url2, lib);
    var res2 :- transport(plan2);
    var d := DiffResponse(config.response, res1, res2, lib);
    return Ok(d);
  }

  /** The lookup of `DiffConfig::diff` (and of the `cli` binary). */
  function GetProfile(config: DiffConfig, profile: string): (r: Result<ApiConfig, Error>)
    ensures r.Ok? <==> profile in config.apis
    ensures r.Ok? ==> r.value == config.apis[profile]
    ensures r.Err? ==> Message(r.error) == Some("api profile " + profile + " not found")
  {
    if profile in config.apis then Ok(config.apis[profile]) else Err(ApiProfileNotFound(profile))
  }

  /** `DiffConfig::diff`: the profile is looked up before any request is sent. */
  method DiffProfile(config: DiffConfig, profile: string, lib: Libraries, transport: Plan -> Result<Response, Error>)
    returns (r: Result<DiffResult, Error>)
    ensures profile !in config.apis ==> r == Err(ApiProfileNotFound(profile))
    ensures profile in config.apis ==> r == ApiDiff(config.apis[profile], lib, transport)
  {
    var api :- GetProfile(config, profile);
    r := DiffApi(api, lib, transport);
  }
}
