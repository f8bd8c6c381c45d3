/** xdiff/src/main.rs: the `xdiff` command line over requester's diff profiles. */
module Xdiff {
  import opened Wrappers
  import opened Json
  import opened Http
  import opened Errors
  import opened Foreign
  import opened KeyVals
  import opened CliUtils
  import opened Req
  import opened RequesterDiff

  /** The file name searched for without `--config`. */
  const CONFIG_NAME: string := "xdiff.yml"

  /** The parsed arguments: each `-e` value has already been split by
      `parse_key_val` and `--config` checked by `get_config_file`. */
  datatype Args = Args(profile: string, extraParams: seq<(string, string)>, config: Option<string>)

  /** `args.config.unwrap_or(get_default_config("xdiff.yml")?)` as written:
      the argument of `unwrap_or` is evaluated, and its error returned,
      before `--config` is looked at. */
  function ResolveConfigAsWritten(config: Option<string>, home: string, pathExists: string -> bool): (r: Result<string, Error>)
    ensures GetDefaultConfig(CONFIG_NAME, home, pathExists).Err? ==> r == Err(GetDefaultConfig(CONFIG_NAME, home, pathExists).error)
  {
    var fallback :- GetDefaultConfig(CONFIG_NAME, home, pathExists);
    Ok(config.GetOr(fallback))
  }

  /** A config file named with `--config` is refused whenever none of the
      default locations holds one. */
  lemma GivenConfigRefusedWithoutDefault(path: string, home: string, pathExists: string -> bool)
    requires pathExists(path)
    requires !pathExists(home + "/.config/" + CONFIG_NAME) && !pathExists("./" + CONFIG_NAME) && !pathExists("/etc/" + CONFIG_NAME)
    ensures ResolveConfigAsWritten(Some(path), home, pathExists) == Err(DefaultConfigNotFound(Candidates(CONFIG_NAME, home)))
  {
  }

  /** The intended resolution: the default locations are searched only when
      `--config` is absent. */
  function ResolveConfig(config: Option<string>, home: string, pathExists: string -> bool): (r: Result<string, Error>)
    ensures config.Some? ==> r == Ok(config.value)
    ensures config.None? ==> r == GetDefaultConfig(CONFIG_NAME, home, pathExists)
  {
    match config
    case Some(path) => Ok(path)
    case None => GetDefaultConfig(CONFIG_NAME, home, pathExists)
  }

  /** The two resolutions differ only where the written one fails: whenever
      it succeeds, the intended one picks the same file. */
  lemma ResolutionsAgreeWhenDefaultExists(config: Option<string>, home: string, pathExists: string -> bool)
    ensures ResolveConfigAsWritten(config, home, pathExists).Ok? ==>
              ResolveConfig(config, home, pathExists) == ResolveConfigAsWritten(config, home, pathExists)
    ensures config.Some? ==> ResolveConfig(config, home, pathExists).Ok?
  {
  }

  /** The `extra_params` loop of `main`: each pair is written as a string into
      the params of both requests. */
  method ApplyExtraParams(ctx: DiffSpec, pairs: seq<(string, string)>) returns (c: DiffSpec)
    requires Indexable(ctx.request1.params) && Indexable(ctx.request2.params)
    ensures c == ctx.(request1 := ctx.request1.(params := UpsertStrings(ctx.request1.params, pairs)),
                      request2 := ctx.request2.(params := UpsertStrings(ctx.request2.params, pairs)))
  {
    c := ctx;
    var i := 0;
    while i < |pairs|
      invariant 0 <= i <= |pairs|
      invariant c == ctx.(request1 := ctx.request1.(params := UpsertStrings(ctx.request1.params, pairs[..i])),
                          request2 := ctx.request2.(params := UpsertStrings(ctx.request2.params, pairs[..i])))
    {
      var (key, val) := pairs[i];
      assert pairs[..i + 1][..i] == pairs[..i];
      c := c.(request1 := c.request1.(params := Upsert(c.request1.params, key, Str(val))));
      c := c.(request2 := c.request2.(params := Upsert(c.request2.params, key, Str(val))));
      i := i + 1;
    }
    assert pairs[..i] == pairs;
  }

  /** After the loop both requests hold the same value under every key a
      pair names, the last pair's; a key that starts with `#` or `@` is a
      parameter name like any other and reaches neither headers nor body. */
  lemma ExtraParamsReachBothRequests(ctx: DiffSpec, pairs: seq<(string, string)>, key: string, v: string)
    requires Indexable(ctx.request1.params) && Indexable(ctx.request2.params)
    requires LastValue(pairs, key) == Some(v)
    ensures Field(UpsertStrings(ctx.request1.params, pairs), key) == Some(Str(v))
    ensures Field(UpsertStrings(ctx.request2.params, pairs), key) == Some(Str(v))
  {
    UpsertStringsLastWins(ctx.request1.params, pairs, key);
    UpsertStringsLastWins(ctx.request2.params, pairs, key);
  }

  /** The override values `update` would receive for the same pairs: every
      pair is a query override, whatever its key looks like. */
  function AsQueryOverrides(pairs: seq<(string, string)>): (r: seq<KeyVal>)
    ensures |r| == |pairs|
    ensures forall i :: 0 <= i < |pairs| ==> r[i] == KeyVal(Query, pairs[i].0, pairs[i].1)
  {
    if pairs == [] then [] else AsQueryOverrides(pairs[..|pairs| - 1]) + [KeyVal(Query, pairs[|pairs| - 1].0, pairs[|pairs| - 1].1)]
  }

  /** The loop does to each request what `update` does with the same pairs as
      query overrides. */
  lemma {:induction false} ExtraParamsAreQueryOverrides(s: RequestSpec, pairs: seq<(string, string)>, lib: Libraries)
    requires s.WellFormed()
    ensures Apply(s, AsQueryOverrides(pairs), lib) == Applied(s.(params := UpsertStrings(s.params, pairs)), None)
  {
    var values := AsQueryOverrides(pairs);
    QueryOverridesAreParamUpserts(s, values, lib);
    assert Pairs(values) == pairs;
  }

  /** What `main` prints for a result, line break included. */
  function Report(result: DiffResult): (r: string)
    ensures result.Equal? ==> r == "API responses are equal\n"
    ensures result.Diff? ==> r == result.text + "\n"
  {
    match result
    case Equal => "API responses are equal\n"
    case Diff(d) => d + "\n"
  }

  /** Every profile's params can take the extra parameters. */
  predicate ParamsIndexable(config: DiffConfig) {
    forall p :: p in config.ctxs ==> Indexable(config.ctxs[p].request1.params) && Indexable(config.ctxs[p].request2.params)
  }

  /** The profile `main` diffs: the one stored under `--profile`, the params
      of both requests given the extra parameters in order. */
  function Prepared(args: Args, config: DiffConfig): (r: Result<DiffSpec, Error>)
    requires ParamsIndexable(config)
    ensures args.profile !in config.ctxs ==> r == Err(ProfileNotFound(args.profile))
    ensures args.profile in config.ctxs ==>
              var stored := config.ctxs[args.profile];
              r == Ok(stored.(request1 := stored.request1.(params := UpsertStrings(stored.request1.params, args.extraParams)),
                              request2 := stored.request2.(params := UpsertStrings(stored.request2.params, args.extraParams))))
  {
    var ctx :- RequesterDiff.Get(config, args.profile);
    Ok(ctx.(request1 := ctx.request1.(params := UpsertStrings(ctx.request1.params, args.extraParams)),
            request2 := ctx.request2.(params := UpsertStrings(ctx.request2.params, args.extraParams))))
  }

  /** The plan of `sent` queries its params and otherwise keeps the method,
      body and user agent of `stored`. */
  predicate SentWithParams(sent: RequestSpec, stored: RequestSpec, lib: Libraries) {
    PlanSend(sent, lib).Ok? ==>
      && PlanSend(sent, lib).value.url.query == lib.encodeQuery(sent.params)
      && PlanSend(sent, lib).value.httpMethod == stored.httpMethod
      && PlanSend(sent, lib).value.userAgent == stored.userAgent.GetOr(Req.USER_AGENT)
      && PlanSend(sent, lib).value.body == (if stored.body.Some? then Some(lib.serialize(stored.body.value)) else None)
  }

  /** Both requests `main` sends carry the extra parameters: each plan's query
      encodes params in which every key a pair names holds the last such
      pair's string, and the plans are otherwise what the stored requests
      give: the extra parameters cannot reach headers or body. */
  lemma ExtraParamsReachBothPlans(args: Args, config: DiffConfig, lib: Libraries, key: string, v: string)
    requires ParamsIndexable(config) && args.profile in config.ctxs
    requires LastValue(args.extraParams, key) == Some(v)
    ensures var ctx := Prepared(args, config).value;
            var stored := config.ctxs[args.profile];
            && Field(ctx.request1.params, key) == Some(Str(v))
            && Field(ctx.request2.params, key) == Some(Str(v))
            && SentWithParams(ctx.request1, stored.request1, lib)
            && SentWithParams(ctx.request2, stored.request2, lib)
  {
    var stored := config.ctxs[args.profile];
    UpsertStringsLastWins(stored.request1.params, args.extraParams, key);
    UpsertStringsLastWins(stored.request2.params, args.extraParams, key);
  }

  /** `main` once the config file is chosen: load it, prepare the profile,
      diff it and print the result. */
  function OutcomeFrom(file: string, args: Args, load: string -> Result<DiffConfig, Error>,
                       lib: Libraries, transport: Plan -> Result<Response, Error>): (r: Result<string, Error>)
    requires forall f :: load(f).Ok? ==> ParamsIndexable(load(f).value)
    ensures load(file).Err? ==> r == Err(load(file).error)
    ensures load(file).Ok? && args.profile !in load(file).value.ctxs ==> r == Err(ProfileNotFound(args.profile))
    ensures r.Ok? ==> exists d :: r.value == Report(d)
  {
    var config :- load(file);
    assert ParamsIndexable(config);
    var ctx :- Prepared(args, config);
    var result :- ContextDiff(ctx, lib, transport);
    Ok(Report(result))
  }

  /** `main` as written, with the eager default-config search. */
  function OutcomeAsWritten(args: Args, home: string, pathExists: string -> bool, load: string -> Result<DiffConfig, Error>,
                            lib: Libraries, transport: Plan -> Result<Response, Error>): (r: Result<string, Error>)
    requires forall f :: load(f).Ok? ==> ParamsIndexable(load(f).value)
    ensures GetDefaultConfig(CONFIG_NAME, home, pathExists).Err? ==> r == Err(GetDefaultConfig(CONFIG_NAME, home, pathExists).error)
  {
    var file :- ResolveConfigAsWritten(args.config, home, pathExists);
    OutcomeFrom(file, args, load, lib, transport)
  }

  /** `main` with the config resolution corrected. */
  function Outcome(args: Args, home: string, pathExists: string -> bool, load: string -> Result<DiffConfig, Error>,
                   lib: Libraries, transport: Plan -> Result<Response, Error>): (r: Result<string, Error>)
    requires forall f :: load(f).Ok? ==> ParamsIndexable(load(f).value)
    ensures args.config.Some? ==> r == OutcomeFrom(args.config.value, args, load, lib, transport)
  {
    var file :- ResolveConfig(args.config, home, pathExists);
    OutcomeFrom(file, args, load, lib, transport)
  }

  /** The corrected `main` behaves as the written one wherever the written
      one gets past the default-config search; it differs only where that
      search fails although `--config` names a file. */
  lemma CorrectedMainAgreesWithWritten(args: Args, home: string, pathExists: string -> bool,
                                       load: string -> Result<DiffConfig, Error>, lib: Libraries,
                                       transport: Plan -> Result<Response, Error>)
    requires forall f :: load(f).Ok? ==> ParamsIndexable(load(f).value)
    ensures ResolveConfigAsWritten(args.config, home, pathExists).Ok? ==>
              Outcome(args, home, pathExists, load, lib, transport) == OutcomeAsWritten(args, home, pathExists, load, lib, transport)
    ensures Outcome(args, home, pathExists, load, lib, transport) != OutcomeAsWritten(args, home, pathExists, load, lib, transport) ==>
              args.config.Some? && GetDefaultConfig(CONFIG_NAME, home, pathExists).Err?
  {
    ResolutionsAgreeWhenDefaultExists(args.config, home, pathExists);
  }

  /** `main`: the printed text, or the error it exits with. */
  method Run(args: Args, home: string, pathExists: string -> bool, load: string -> Result<DiffConfig, Error>,
             lib: Libraries, transport: Plan -> Result<Response, Error>) returns (r: Result<string, Error>)
    requires forall f :: load(f).Ok? ==> ParamsIndexable(load(f).value)
    ensures r == Outcome(args, home, pathExists, load, lib, transport)
  {
    var file :- ResolveConfig(args.config, home, pathExists);
    var config :- load(file);
    var ctx :- RequesterDiff.Get(config, args.profile);
    ctx := ApplyExtraParams(ctx, args.extraParams);
    var result :- DiffContext(ctx, lib, transport);
    return Ok(Report(result));
  }
}
