/** requester/src/diff.rs: comparing the responses of two requests. */
module RequesterDiff {
  import opened Wrappers
  import opened Http
  import opened Errors
  import opened Foreign
  import Render
  import opened HeaderScan
  import opened Req

  /** `ResponseContext`: what the comparison ignores. The `jq` filter is read
      from the configuration but never applied. */
  datatype ResponseOptions = ResponseOptions(skipHeaders: seq<string>, jq: Option<string>)

  /** `DiffContext`: the two requests of a profile and how to compare their responses. */
  datatype DiffSpec = DiffSpec(request1: RequestSpec, request2: RequestSpec, response: ResponseOptions)

  /** `DiffConfig`: profile name to comparison. */
  datatype DiffConfig = DiffConfig(ctxs: map<string, DiffSpec>)

  datatype DiffResult = Equal | Diff(text: string)

  /** `DiffConfig::get`. */
  function Get(config: DiffConfig, profile: string): (r: Result<DiffSpec, Error>)
    ensures r.Ok? <==> profile in config.ctxs
    ensures r.Ok? ==> r.value == config.ctxs[profile]
    ensures r.Err? ==> Message(r.error) == Some("profile " + profile + " not found")
  {
    if profile in config.ctxs then Ok(config.ctxs[profile]) else Err(ProfileNotFound(profile))
  }

  /** The body texts that are compared: when the first body is JSON both are
      pretty-printed, and then the second one must be JSON too; otherwise the
      raw texts. */
  function NormalizeBodies(body1: string, body2: string, lib: Libraries): (r: Result<(string, string), Error>)
    ensures lib.parseJson(body1).None? ==> r == Ok((body1, body2))
    ensures lib.parseJson(body1).Some? && lib.parseJson(body2).None? ==> r == Err(JsonParse(body2))
    ensures lib.parseJson(body1).Some? && lib.parseJson(body2).Some? ==>
              r == Ok((lib.pretty(lib.parseJson(body1).value), lib.pretty(lib.parseJson(body2).value)))
  {
    match lib.parseJson(body1)
    case None => Ok((body1, body2))
    case Some(j1) =>
      match lib.parseJson(body2)
      case None => Err(JsonParse(body2))
      case Some(j2) => Ok((lib.pretty(j1), lib.pretty(j2)))
  }

  /** The report of differing status codes. */
  function StatusMismatch(s1: nat, s2: nat, lib: Libraries): string {
    "status code mismatch: " + StatusDisplay(s1, lib.reason) + " != " + StatusDisplay(s2, lib.reason)
  }

  /** `diff_response` as a function of the two responses. */
  function ResponseDiff(options: ResponseOptions, res1: Response, res2: Response, lib: Libraries): Result<DiffResult, Error> {
    if res1.status != res2.status then Ok(Diff(StatusMismatch(res1.status, res2.status, lib)))
    else if !SameHeaders(res1.headers, res2.headers) && MismatchText(res1.headers, res2.headers, options.skipHeaders) != ""
    then Ok(Diff(MismatchText(res1.headers, res2.headers, options.skipHeaders)))
    else
      match NormalizeBodies(res1.body, res2.body, lib)
      case Err(e) => Err(e)
      case Ok((text1, text2)) =>
        if text1 != text2 then Ok(Diff(Render.RenderGroups(lib.groupLines(text1, text2)))) else Ok(Equal)
  }

  /** `DiffContext::diff_response`. */
  method DiffResponse(options: ResponseOptions, res1: Response, res2: Response, lib: Libraries)
    returns (r: Result<DiffResult, Error>)
    ensures r == ResponseDiff(options, res1, res2, lib)
  {
    if res1.status != res2.status {
      return Ok(Diff(StatusMismatch(res1.status, res2.status, lib)));
    }
    if !SameHeaders(res1.headers, res2.headers) {
      var buf := ScanHeaders(res1.headers, res2.headers, options.skipHeaders);
      if buf != "" {
        return Ok(Diff(buf));
      }
    }
    var text1, text2 := res1.body, res2.body;
    var json1 := lib.parseJson(text1);
    if json1.Some? {
      text1 := lib.pretty(json1.value);
      var json2 := lib.parseJson(text2);
      if json2.None? {
        return Err(JsonParse(res2.body));
      }
      text2 := lib.pretty(json2.value);
    }
    if text1 != text2 {
      var d := Render.BuildDiff(lib.groupLines(text1, text2));
      return Ok(Diff(d));
    }
    return Ok(Equal);
  }

  /** Two responses compare equal exactly when their status codes agree,
      their headers are equal or every header of the first that is not
      skipped carries the second's first value under its name, and their
      bodies agree after normalisation. */
  lemma EqualMeansAgreement(options: ResponseOptions, res1: Response, res2: Response, lib: Libraries)
    ensures ResponseDiff(options, res1, res2, lib) == Ok(Equal) <==>
              && res1.status == res2.status
              && (SameHeaders(res1.headers, res2.headers)
                  || forall i :: 0 <= i < |res1.headers| ==> Matches(res1.headers[i], res2.headers, options.skipHeaders))
              && NormalizeBodies(res1.body, res2.body, lib).Ok?
              && NormalizeBodies(res1.body, res2.body, lib).value.0 == NormalizeBodies(res1.body, res2.body, lib).value.1
  {
    ScanEmptyIffAllMatch(res1.headers, res2.headers, options.skipHeaders);
  }

  lemma SameHeadersReflexive(hs: seq<(string, string)>)
    ensures SameHeaders(hs, hs)
  {
  }

  /** A response compared with itself is equal, whatever the options. */
  lemma IdenticalResponsesAreEqual(options: ResponseOptions, res: Response, lib: Libraries)
    ensures ResponseDiff(options, res, res, lib) == Ok(Equal)
  {
    SameHeadersReflexive(res.headers);
  }

  /** JSON bodies are compared as values: formatting, whitespace and key
      order do not matter once both parse to the same value. */
  lemma JsonBodiesCompareAsValues(options: ResponseOptions, res1: Response, res2: Response, lib: Libraries)
    requires res1.status == res2.status && SameHeaders(res1.headers, res2.headers)
    requires lib.parseJson(res1.body).Some? && lib.parseJson(res1.body) == lib.parseJson(res2.body)
    ensures ResponseDiff(options, res1, res2, lib) == Ok(Equal)
  {
  }

  /** When only the first body is JSON the comparison fails with the parse
      error of the second; when the first is not JSON, the texts are compared
      as they are, even if the second is JSON. */
  lemma BodyFormatDecidedByFirst(options: ResponseOptions, res1: Response, res2: Response, lib: Libraries)
    requires res1.status == res2.status && SameHeaders(res1.headers, res2.headers)
    ensures lib.parseJson(res1.body).Some? && lib.parseJson(res2.body).None? ==>
              ResponseDiff(options, res1, res2, lib) == Err(JsonParse(res2.body))
    ensures lib.parseJson(res1.body).None? ==>
              (ResponseDiff(options, res1, res2, lib) == Ok(Equal) <==> res1.body == res2.body)
  {
  }

  /** Differing status codes are reported before anything else is looked at. */
  lemma StatusComparedFirst(options: ResponseOptions, res1: Response, res2: Response, lib: Libraries)
    requires res1.status != res2.status
    ensures ResponseDiff(options, res1, res2, lib) ==
              Ok(Diff("status code mismatch: " + StatusDisplay(res1.status, lib.reason) + " != " + StatusDisplay(res2.status, lib.reason)))
    ensures |ResponseDiff(options, res1, res2, lib).value.text| > 0
  {
    var t := StatusMismatch(res1.status, res2.status, lib);
    assert t[0] == 's';
  }

  /** `DiffContext::diff`: the first request is sent and answered before the
      second is sent; an error of either ends the comparison. */
  function ContextDiff(ctx: DiffSpec, lib: Libraries, transport: Plan -> Result<Response, Error>): (r: Result<DiffResult, Error>)
    ensures PlanSend(ctx.request1, lib).Err? ==> r == Err(PlanSend(ctx.request1, lib).error)
    ensures r.Ok? ==> PlanSend(ctx.request1, lib).Ok? && PlanSend(ctx.request2, lib).Ok?
  {
    var plan1 :- PlanSend(ctx.request1, lib);
    var res1 :- transport(plan1);
    var plan2 :- PlanSend(ctx.request2, lib);
    var res2 :- transport(plan2);
    ResponseDiff(ctx.response, res1, res2, lib)
  }

  /** `DiffContext::diff`. */
  method DiffContext(ctx: DiffSpec, lib: Libraries, transport: Plan -> Result<Response, Error>)
    returns (r: Result<DiffResult, Error>)
    ensures r == ContextDiff(ctx, lib, transport)
  {
    var plan1 :- PlanSend(ctx.request1, lib);
    var res1 :- transport(plan1);
    var plan2 :- PlanSend(ctx.request2, lib);
    var res2 :- transport(plan2);
    r := DiffResponse(ctx.response, res1, res2, lib);
  }

  /** `DiffConfig::diff`: the profile is looked up before any request is sent. */
  method DiffProfile(config: DiffConfig, profile: string, lib: Libraries, transport: Plan -> Result<Response, Error>)
    returns (r: Result<DiffResult, Error>)
    ensures profile !in config.ctxs ==> r == Err(ProfileNotFound(profile))
    ensures profile in config.ctxs ==> r == ContextDiff(config.ctxs[profile], lib, transport)
  {
    var ctx :- Get(config, profile);
    r := DiffContext(ctx, lib, transport);
  }
}
