/** requester/src/req.rs: the request profile store, the in-place application
    of overrides to a request, and the decisions `send` takes before any I/O. */
module Req {
  import opened Wrappers
  import opened Text
  import opened Json
  import opened Http
  import opened Errors
  import opened KeyVals
  import opened Foreign

  /** The user agent sent when a profile names none. */
  const USER_AGENT: string := "Requester/0.1.0"

  /** The value of a `RequestContext`: what a profile stores and what a clone
      of it starts from. */
  datatype RequestSpec = RequestSpec(
    httpMethod: string,
    url: Url,
    params: Json,
    headers: HeaderMap,
    body: Option<Json>,
    userAgent: Option<string>)
  {
    /** The tables that overrides index into are objects or null. */
    predicate WellFormed() {
      Indexable(params) && (body.Some? ==> Indexable(body.value))
    }
  }

  /** `RequestConfig`: profile name to request. */
  datatype RequestConfig = RequestConfig(ctxs: map<string, RequestSpec>)

  /** `is_empty_value`: the params are left out when written back. */
  function IsEmptyValue(v: Json): bool {
    v.Null? || (v.Object? && |v.fields| == 0)
  }

  /** `default_params`: the params of a profile that gives none. */
  function DefaultParams(): Json {
    Object(map[])
  }

  /** Leaving empty params out when writing a profile and reading the default
      back restores them exactly when they are not `null`. */
  lemma ParamsSurviveSkipAndDefault(p: Json)
    ensures (if IsEmptyValue(p) then DefaultParams() else p) == p <==> !p.Null?
  {
    if p.Object? && |p.fields| == 0 {
      assert p.fields == map[];
    }
  }

  /** The validation loop of `try_load`: every profile's params must be an
      object; otherwise the load fails naming one offending profile (which one
      depends on the map's iteration order). */
  method TryLoad(config: RequestConfig) returns (r: Result<RequestConfig, Error>)
    ensures r.Ok? <==> forall p :: p in config.ctxs ==> config.ctxs[p].params.Object?
    ensures r.Ok? ==> r.value == config
    ensures r.Err? ==> r.error.ParamsNotObject?
                       && r.error.profile in config.ctxs
                       && !config.ctxs[r.error.profile].params.Object?
  {
    var remaining := config.ctxs.Keys;
    while remaining != {}
      invariant remaining <= config.ctxs.Keys
      invariant forall p :: p in config.ctxs && p !in remaining ==> config.ctxs[p].params.Object?
      decreases remaining
    {
      var profile :| profile in remaining;
      if !config.ctxs[profile].params.Object? {
        return Err(ParamsNotObject(profile));
      }
      remaining := remaining - {profile};
    }
    return Ok(config);
  }

  /** `RequestConfig::get`: lookup by exact name. */
  function Get(config: RequestConfig, profile: string): (r: Result<RequestSpec, Error>)
    ensures r.Ok? <==> profile in config.ctxs
    ensures r.Ok? ==> r.value == config.ctxs[profile]
    ensures r.Err? ==> Message(r.error) == Some("profile " + profile + " not found")
  {
    if profile in config.ctxs then Ok(config.ctxs[profile]) else Err(ProfileNotFound(profile))
  }

  // ---------------------------------------------------------------------------
  // Applying overrides

  /** The state reached by applying overrides, and the error that stopped them, if any. */
  datatype Applied = Applied(spec: RequestSpec, failure: Option<Error>)

  /** Whether `update` gets past an override: only a header override can fail. */
  predicate Accepted(kv: KeyVal, lib: Libraries) {
    kv.kvType == Header ==> lib.parseHeaderName(kv.key).Some? && lib.validHeaderValue(kv.val)
  }

  /** The error of a rejected header override: the name is parsed first. */
  function Rejection(kv: KeyVal, lib: Libraries): Error {
    if lib.parseHeaderName(kv.key).None? then InvalidHeaderName(kv.key) else InvalidHeaderValue(kv.val)
  }

  /** One iteration of `update`'s loop. */
  function Step(s: RequestSpec, kv: KeyVal, lib: Libraries): (a: Applied)
    requires s.WellFormed()
    ensures a.spec.WellFormed()
    ensures a.failure.None? <==> Accepted(kv, lib)
    ensures a.failure.Some? ==> a == Applied(s, Some(Rejection(kv, lib)))
  {
    match kv.kvType
    case Query =>
      Applied(s.(params := Upsert(s.params, kv.key, Str(kv.val))), None)
    case Header =>
      (match lib.parseHeaderName(kv.key)
       case None => Applied(s, Some(InvalidHeaderName(kv.key)))
       case Some(name) =>
         if lib.validHeaderValue(kv.val) then Applied(s.(headers := s.headers[name := [kv.val]]), None)
         else Applied(s, Some(InvalidHeaderValue(kv.val))))
    case Body =>
      if s.body.Some? then Applied(s.(body := Some(Upsert(s.body.value, kv.key, Str(kv.val)))), None)
      else Applied(s, None)
  }

  /** `update` as a function of the request before the call: the overrides in
      order, stopping at the first one that fails, with no rollback. */
  function Apply(s: RequestSpec, values: seq<KeyVal>, lib: Libraries): (a: Applied)
    requires s.WellFormed()
    ensures a.spec.WellFormed()
    ensures a.spec.httpMethod == s.httpMethod && a.spec.url == s.url && a.spec.userAgent == s.userAgent
    ensures s.body.None? ==> a.spec.body.None?
    decreases |values|
  {
    if values == [] then Applied(s, None)
    else
      var before := Apply(s, values[..|values| - 1], lib);
      if before.failure.Some? then before else Step(before.spec, values[|values| - 1], lib)
  }

  /** Once an override has failed, later ones change nothing. */
  lemma {:induction false} ApplyStopsAtFailure(s: RequestSpec, values: seq<KeyVal>, n: nat, lib: Libraries)
    requires s.WellFormed() && n <= |values|
    requires Apply(s, values[..n], lib).failure.Some?
    ensures Apply(s, values, lib) == Apply(s, values[..n], lib)
    decreases |values| - n
  {
    if n < |values| {
      var init := values[..|values| - 1];
      assert init[..n] == values[..n];
      ApplyStopsAtFailure(s, init, n, lib);
    } else {
      assert values[..n] == values;
    }
  }

  lemma ApplyPrefix(s: RequestSpec, values: seq<KeyVal>, i: nat, lib: Libraries)
    requires s.WellFormed() && i < |values|
    requires Apply(s, values[..i], lib).failure.None?
    ensures Apply(s, values[..i + 1], lib) == Step(Apply(s, values[..i], lib).spec, values[i], lib)
  {
    assert values[..i + 1][..i] == values[..i];
  }

  /** `update` fails exactly when some header override has an invalid name or value. */
  lemma {:induction false} ApplySucceedsIffAllAccepted(s: RequestSpec, values: seq<KeyVal>, lib: Libraries)
    requires s.WellFormed()
    ensures Apply(s, values, lib).failure.None? <==> forall i :: 0 <= i < |values| ==> Accepted(values[i], lib)
    decreases |values|
  {
    if values != [] {
      var init := values[..|values| - 1];
      ApplySucceedsIffAllAccepted(s, init, lib);
      assert forall i :: 0 <= i < |init| ==> init[i] == values[i];
    }
  }

  /** No rollback: when `update` fails, it fails at a rejected header override
      whose predecessors were all accepted, and the request keeps every change
      those predecessors made. */
  lemma {:induction false} ApplyKeepsEarlierOverrides(s: RequestSpec, values: seq<KeyVal>, lib: Libraries)
    requires s.WellFormed()
    requires Apply(s, values, lib).failure.Some?
    ensures exists i :: 0 <= i < |values|
              && !Accepted(values[i], lib)
              && Apply(s, values[..i], lib) == Applied(Apply(s, values, lib).spec, None)
              && Apply(s, values, lib).failure == Some(Rejection(values[i], lib))
    decreases |values|
  {
    var init := values[..|values| - 1];
    var before := Apply(s, init, lib);
    if before.failure.Some? {
      ApplyKeepsEarlierOverrides(s, init, lib);
      var i :| 0 <= i < |init| && !Accepted(init[i], lib)
                && Apply(s, init[..i], lib) == Applied(before.spec, None)
                && before.failure == Some(Rejection(init[i], lib));
      assert init[..i] == values[..i];
    } else {
      var i := |values| - 1;
      assert values[..i] == init;
    }
  }

  /** The value of the last override of kind `kind` for key `key`, if any. */
  function LastOverride(values: seq<KeyVal>, kind: KeyValType, key: string): Option<string> {
    if values == [] then None
    else
      var v := values[|values| - 1];
      if v.kvType == kind && v.key == key then Some(v.val)
      else LastOverride(values[..|values| - 1], kind, key)
  }

  /** The value of the last header override whose name parses to `name`, if any. */
  function LastHeader(values: seq<KeyVal>, name: string, lib: Libraries): Option<string> {
    if values == [] then None
    else
      var v := values[|values| - 1];
      if v.kvType == Header && lib.parseHeaderName(v.key) == Some(name) then Some(v.val)
      else LastHeader(values[..|values| - 1], name, lib)
  }

  /** Last write wins for query parameters: after a successful `update` a key
      holds the string of its last `Query` override, replacing whatever it held
      (an array included); other keys keep their values. */
  lemma {:induction false} QueryLastWriteWins(s: RequestSpec, values: seq<KeyVal>, key: string, lib: Libraries)
    requires s.WellFormed()
    requires Apply(s, values, lib).failure.None?
    ensures Field(Apply(s, values, lib).spec.params, key) ==
              match LastOverride(values, Query, key)
              case Some(v) => Some(Str(v))
              case None => Field(s.params, key)
    decreases |values|
  {
    if values != [] {
      var init := values[..|values| - 1];
      QueryLastWriteWins(s, init, key, lib);
    }
  }

  /** A body override writes into an existing body, last write winning, and
      is dropped when the request has no body. */
  lemma {:induction false} BodyLastWriteWins(s: RequestSpec, values: seq<KeyVal>, key: string, lib: Libraries)
    requires s.WellFormed() && s.body.Some?
    requires Apply(s, values, lib).failure.None?
    ensures Apply(s, values, lib).spec.body.Some?
    ensures Field(Apply(s, values, lib).spec.body.value, key) ==
              match LastOverride(values, Body, key)
              case Some(v) => Some(Str(v))
              case None => Field(s.body.value, key)
    decreases |values|
  {
    if values != [] {
      var init := values[..|values| - 1];
      BodyLastWriteWins(s, init, key, lib);
    }
  }

  /** A header override replaces all values stored under its (normalised)
      name with its one value; the last one for a name wins. */
  lemma {:induction false} HeaderLastWriteWins(s: RequestSpec, values: seq<KeyVal>, name: string, lib: Libraries)
    requires s.WellFormed()
    requires Apply(s, values, lib).failure.None?
    ensures var h := Apply(s, values, lib).spec.headers;
            match LastHeader(values, name, lib)
            case Some(v) => name in h && h[name] == [v]
            case None => (name in h <==> name in s.headers) && (name in h ==> h[name] == s.headers[name])
    decreases |values|
  {
    if values != [] {
      var init := values[..|values| - 1];
      HeaderLastWriteWins(s, init, name, lib);
    }
  }

  predicate NoneOfKind(values: seq<KeyVal>, kind: KeyValType) {
    forall i :: 0 <= i < |values| ==> values[i].kvType != kind
  }

  /** Each kind of override touches only its own table: without query
      overrides the params are untouched, and likewise for headers and body. */
  lemma {:induction false} OverridesTouchOnlyTheirTarget(s: RequestSpec, values: seq<KeyVal>, lib: Libraries)
    requires s.WellFormed()
    ensures NoneOfKind(values, Query) ==> Apply(s, values, lib).spec.params == s.params
    ensures NoneOfKind(values, Header) ==> Apply(s, values, lib).spec.headers == s.headers
    ensures NoneOfKind(values, Body) ==> Apply(s, values, lib).spec.body == s.body
    decreases |values|
  {
    if values != [] {
      var init := values[..|values| - 1];
      OverridesTouchOnlyTheirTarget(s, init, lib);
      assert forall i :: 0 <= i < |init| ==> init[i] == values[i];
    }
  }

  function Pairs(values: seq<KeyVal>): (r: seq<(string, string)>)
    ensures |r| == |values|
    ensures forall i :: 0 <= i < |values| ==> r[i] == (values[i].key, values[i].val)
  {
    if values == [] then [] else Pairs(values[..|values| - 1]) + [(values[|values| - 1].key, values[|values| - 1].val)]
  }

  /** Query overrides do to the params exactly what the binaries' `key=value`
      loop does: they never fail and change nothing else. */
  lemma {:induction false} QueryOverridesAreParamUpserts(s: RequestSpec, values: seq<KeyVal>, lib: Libraries)
    requires s.WellFormed()
    requires forall i :: 0 <= i < |values| ==> values[i].kvType == Query
    ensures Apply(s, values, lib) == Applied(s.(params := UpsertStrings(s.params, Pairs(values))), None)
    decreases |values|
  {
    if values != [] {
      var init := values[..|values| - 1];
      QueryOverridesAreParamUpserts(s, init, lib);
      assert Pairs(values)[..|values| - 1] == Pairs(init);
    }
  }

  /** A request being prepared: a clone of a stored profile that overrides
      change in place. */
  class RequestContext {
    var httpMethod: string
    var url: Url
    var params: Json
    var headers: HeaderMap
    var body: Option<Json>
    var userAgent: Option<string>

    function Spec(): RequestSpec
      reads this
    {
      RequestSpec(httpMethod, url, params, headers, body, userAgent)
    }

    /** `.clone()` of a stored profile. */
    constructor (s: RequestSpec)
      ensures Spec() == s
    {
      httpMethod, url, params := s.httpMethod, s.url, s.params;
      headers, body, userAgent := s.headers, s.body, s.userAgent;
    }

    /** `RequestContext::update`. */
    method Update(values: seq<KeyVal>, lib: Libraries) returns (r: Result<(), Error>)
      requires Spec().WellFormed()
      modifies this
      ensures Spec() == Apply(old(Spec()), values, lib).spec
      ensures r == match Apply(old(Spec()), values, lib).failure
                   case None => Ok(())
                   case Some(e) => Err(e)
    {
      ghost var start := Spec();
      var i := 0;
      while i < |values|
        invariant 0 <= i <= |values|
        invariant Apply(start, values[..i], lib) == Applied(Spec(), None)
      {
        var v := values[i];
        ApplyPrefix(start, values, i, lib);
        match v.kvType {
          case Query =>
            params := Upsert(params, v.key, Str(v.val));
          case Header =>
            var name := lib.parseHeaderName(v.key);
            if name.None? {
              ApplyStopsAtFailure(start, values, i + 1, lib);
              return Err(InvalidHeaderName(v.key));
            }
            if !lib.validHeaderValue(v.val) {
              ApplyStopsAtFailure(start, values, i + 1, lib);
              return Err(InvalidHeaderValue(v.val));
            }
            headers := headers[name.value := [v.val]];
          case Body =>
            if body.Some? {
              body := Some(Upsert(body.value, v.key, Str(v.val)));
            }
        }
        i := i + 1;
      }
      assert values[..i] == values;
      return Ok(());
    }
  }

  // ---------------------------------------------------------------------------
  // Preparing a request

  /** `send` accepts the content type: no body, no content type, or a JSON one. */
  predicate ContentTypeAccepted(s: RequestSpec) {
    s.body.Some? && HeaderGet(s.headers, CONTENT_TYPE).Some? ==>
      Contains(HeaderGet(s.headers, CONTENT_TYPE).value, "application/json")
  }

  /** The decisions of `RequestContext::send` up to the point where the
      request is handed to the transport. */
  function PlanSend(s: RequestSpec, lib: Libraries): (r: Result<Plan, Error>)
    ensures s.url.scheme != "http" && s.url.scheme != "https" ==> r == Err(UnsupportedScheme)
    ensures r.Ok? <==> && (s.url.scheme == "http" || s.url.scheme == "https")
                       && lib.encodeQuery(s.params).Some?
                       && lib.validHeaderValue(s.userAgent.GetOr(USER_AGENT))
                       && ContentTypeAccepted(s)
    ensures r.Ok? ==> && r.value.httpMethod == s.httpMethod
                      && r.value.url == s.url.(query := lib.encodeQuery(s.params))
                      && r.value.userAgent == s.userAgent.GetOr(USER_AGENT)
                      && r.value.body == (if s.body.Some? then Some(lib.serialize(s.body.value)) else None)
    ensures r.Ok? && s.body.Some? ==>
              && HeaderGet(r.value.headers, CONTENT_TYPE).Some?
              && Contains(HeaderGet(r.value.headers, CONTENT_TYPE).value, "application/json")
    ensures r.Ok? ==> r.value.headers == s.headers
                      || (s.body.Some? && HeaderGet(s.headers, CONTENT_TYPE).None?
                          && r.value.headers == s.headers[CONTENT_TYPE := ["application/json"]])
    ensures r.Err? && r.error.UnsupportedContentType? ==>
              s.body.Some? && HeaderGet(s.headers, CONTENT_TYPE) == Some(r.error.contentType)
    ensures (s.url.scheme == "http" || s.url.scheme == "https") && lib.encodeQuery(s.params).None? ==>
              r == Err(QueryEncoding)
    ensures (s.url.scheme == "http" || s.url.scheme == "https") && lib.encodeQuery(s.params).Some?
            && !lib.validHeaderValue(s.userAgent.GetOr(USER_AGENT)) ==>
              r == Err(InvalidHeaderValue(s.userAgent.GetOr(USER_AGENT)))
    ensures && (s.url.scheme == "http" || s.url.scheme == "https") && lib.encodeQuery(s.params).Some?
            && lib.validHeaderValue(s.userAgent.GetOr(USER_AGENT))
            && s.body.Some? && HeaderGet(s.headers, CONTENT_TYPE).Some?
            && !Contains(HeaderGet(s.headers, CONTENT_TYPE).value, "application/json") ==>
              r == Err(UnsupportedContentType(HeaderGet(s.headers, CONTENT_TYPE).value))
  {
    var userAgent := s.userAgent.GetOr(USER_AGENT);
    if s.url.scheme != "http" && s.url.scheme != "https" then Err(UnsupportedScheme)
    else match lib.encodeQuery(s.params)
      case None => Err(QueryEncoding)
      case Some(qs) =>
        if !lib.validHeaderValue(userAgent) then Err(InvalidHeaderValue(userAgent))
        else
          var url := s.url.(query := Some(qs));
          match s.body
          case None => Ok(Plan(s.httpMethod, url, s.headers, None, userAgent))
          case Some(body) =>
            match HeaderGet(s.headers, CONTENT_TYPE)
            case Some(contentType) =>
              if Contains(contentType, "application/json")
              then Ok(Plan(s.httpMethod, url, s.headers, Some(lib.serialize(body)), userAgent))
              else Err(UnsupportedContentType(contentType))
            case None =>
              var headers := s.headers[CONTENT_TYPE := ["application/json"]];
              assert HeaderGet(headers, CONTENT_TYPE) == Some("application/json");
              assert Contains("application/json", "application/json");
              Ok(Plan(s.httpMethod, url, headers, Some(lib.serialize(body)), userAgent))
  }

  /** `RequestConfig::send`: the profile is looked up before anything else. */
  function SendProfile(config: RequestConfig, profile: string, lib: Libraries): (r: Result<Plan, Error>)
    ensures profile !in config.ctxs ==> r == Err(ProfileNotFound(profile))
    ensures profile in config.ctxs ==> r == PlanSend(config.ctxs[profile], lib)
  {
    var spec :- Get(config, profile);
    PlanSend(spec, lib)
  }
}
