/** cli/src/main.rs: the `differ` command line. */
module Cli {
  import opened Wrappers
  import opened Json
  import opened Http
  import opened Errors
  import opened Foreign
  import opened Differ

  /** The config path used without `--config`; the `~` is not expanded. */
  const DEFAULT_CONFIG: string := "~/.config/differ.yaml"

  /** The parsed arguments: each `-e` value has already been split by
      `parse_key_val` and `--config` checked by `get_config_file`. */
  datatype Args = Args(api: string, extraParams: seq<(string, string)>, config: Option<string>)

  /** The `extra_params` loop of `main`: each pair upserts a string into the
      profile's params, in order. */
  method ApplyExtraParams(config: ApiConfig, pairs: seq<(string, string)>) returns (c: ApiConfig)
    requires Indexable(config.request.params)
    ensures c == config.(request := config.request.(params := UpsertStrings(config.request.params, pairs)))
  {
    c := config;
    var i := 0;
    while i < |pairs|
      invariant 0 <= i <= |pairs|
      invariant c == config.(request := config.request.(params := UpsertStrings(config.request.params, pairs[..i])))
    {
      var (key, val) := pairs[i];
      assert pairs[..i + 1][..i] == pairs[..i];
      c := c.(request := c.request.(params := Upsert(c.request.params, key, Str(val))));
      i := i + 1;
    }
    assert pairs[..i] == pairs;
  }

  /** What `main` prints for a result, line break included. */
  function Report(result: DiffResult): (r: string)
    ensures result.Equal? ==> r == "API responses are equal\n"
    ensures result.Diff? ==> r == result.text + "\n"
  {
    match result
    case Equal => "API responses are equal\n"
    case Diff(d) => d + "\n"
  }

  /** Only the text is printed, so a difference whose text is the equality
      message cannot be told apart from equal responses. */
  lemma ReportLosesKind(d: string)
    ensures Report(Diff(d)) == Report(Equal) <==> d == "API responses are equal"
  {
    if Report(Diff(d)) == Report(Equal) {
      assert d == Report(Diff(d))[..|d|];
    }
  }

  /** Every profile's params can take the extra parameters. */
  predicate ParamsIndexable(config: DiffConfig) {
    forall p :: p in config.apis ==> Indexable(config.apis[p].request.params)
  }

  /** The profile `main` diffs: the one stored under `--api`, its params
      given the extra parameters in order. */
  function Prepared(args: Args, config: DiffConfig): (r: Result<ApiConfig, Error>)
    requires ParamsIndexable(config)
    ensures args.api !in config.apis ==> r == Err(ApiProfileNotFound(args.api))
    ensures args.api in config.apis ==>
              var stored := config.apis[args.api];
              r == Ok(stored.(request := stored.request.(params := UpsertStrings(stored.request.params, args.extraParams))))
  {
    var api :- GetProfile(config, args.api);
    Ok(api.(request := api.request.(params := UpsertStrings(api.request.params, args.extraParams))))
  }

  /** Both requests `main` sends carry the extra parameters: each plan's query
      encodes params in which every key a pair names holds the last such
      pair's string, and method and headers are the stored profile's. */
  lemma ExtraParamsReachBothPlans(args: Args, config: DiffConfig, lib: Libraries, key: string, v: string)
    requires ParamsIndexable(config) && args.api in config.apis
    requires LastValue(args.extraParams, key) == Some(v)
    ensures var api := Prepared(args, config).value;
            var stored := config.apis[args.api];
            && Field(api.request.params, key) == Some(Str(v))
            && (forall url :: url in {api.request.url1, api.request.url2} && GetApi(api, url, lib).Ok? ==>
                  && GetApi(api, url, lib).value.url.query == lib.encodeQuery(api.request.params)
                  && GetApi(api, url, lib).value.httpMethod == stored.request.httpMethod
                  && GetApi(api, url, lib).value.headers == stored.request.headers)
  {
    UpsertStringsLastWins(config.apis[args.api].request.params, args.extraParams, key);
  }

  /** `main` as a function of its inputs: `load` reads and parses a config
      file, `transport` performs a request. */
  function Outcome(args: Args, load: string -> Result<DiffConfig, Error>, lib: Libraries,
                   transport: Plan -> Result<Response, Error>): (r: Result<string, Error>)
    requires forall f :: load(f).Ok? ==> ParamsIndexable(load(f).value)
    ensures load(args.config.GetOr(DEFAULT_CONFIG)).Err? ==> r == Err(load(args.config.GetOr(DEFAULT_CONFIG)).error)
    ensures load(args.config.GetOr(DEFAULT_CONFIG)).Ok? && args.api !in load(args.config.GetOr(DEFAULT_CONFIG)).value.apis
            ==> r == Err(ApiProfileNotFound(args.api))
    ensures r.Ok? ==> exists d :: r.value == Report(d)
  {
    var config :- load(args.config.GetOr(DEFAULT_CONFIG));
    assert ParamsIndexable(config);
    var api :- Prepared(args, config);
    var result :- ApiDiff(api, lib, transport);
    Ok(Report(result))
  }

  /** `main`: the printed text, or the error it exits with. */
  method Run(args: Args, load: string -> Result<DiffConfig, Error>, lib: Libraries,
             transport: Plan -> Result<Response, Error>) returns (r: Result<string, Error>)
    requires forall f :: load(f).Ok? ==> ParamsIndexable(load(f).value)
    ensures r == Outcome(args, load, lib, transport)
  {
    var config :- load(args.config.GetOr(DEFAULT_CONFIG));
    var api :- GetProfile(config, args.api);
    api := ApplyExtraParams(api, args.extraParams);
    var result :- DiffApi(api, lib, transport);
    return Ok(Report(result));
  }
}
