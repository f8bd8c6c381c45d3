# xdiff: a verified model of the request and response-diff engine

xdiff is a small Rust workspace for comparing two HTTP APIs. It has four parts:

- **`requester`**: holds named request profiles and applies `key=value` overrides to a request. It sends the two requests of a diff profile and decides whether the responses differ. When they do, it renders a line diff.
- **`differ`**: the older sibling of `requester`. It sends one request to two URLs and compares the raw responses.
- **`cli-utils`**: the argument helpers shared by the binaries. It splits `key=value` and searches for the config file.
- **`cli` and `xdiff`**: the two binaries. They upsert the extra parameters into the profile and print the outcome.

This project models that engine in Dafny and proves what it promises. The modules follow the source:

| module | models |
|---|---|
| `KeyVals` | `KeyValType` and `KeyVal` (requester/src/lib.rs) |
| `Req` | requester/src/req.rs |
| `RequestContext` (class in `Req`) | the mutable request that `update` changes in place |
| `RequesterDiff` | requester/src/diff.rs |
| `HeaderScan` | the header loop shared by requester/src/diff.rs and differ/src/lib.rs |
| `Render` | `build_diff` and `Line` in requester/src/diff.rs |
| `Differ` | differ/src/lib.rs |
| `CliUtils` | cli-utils/src/lib.rs |
| `Cli` | cli/src/main.rs |
| `Xdiff` | xdiff/src/main.rs |

The supporting modules are `Wrappers` (`Option`, `Result`), `Text` (decimal digits, padding, substring search), `Json`, `Http`, `Changes` (the tagged line changes the line-diff library produces) and `Errors`. `Errors` holds the error values and their messages, as the source words them.

Several libraries are called but not modelled: header parsing, `serde_qs`, `serde_json` parsing and printing, canonical reason phrases, and the line-diff grouping of `similar`. They are passed in as the functions of a `Foreign.Libraries` record, so every property below holds whatever those libraries do. The network transport is a function from a request `Plan` to a `Response` or an error. File existence and config loading are parameters too.

`update` works in place, so `Req.RequestContext` is a class. Its `Update` method is proved against `Req.Apply`, a fold over the overrides. The properties of the source are proved about that fold:
- the last write wins;
- when an override fails, there is no rollback;
- each kind of override touches only its own table.

The loops that write the diff report are methods. Each is proved equal to a function over its input:
- the header scan, `HeaderScan.ScanHeaders`;
- `build_diff`, `Render.BuildDiff`;
- the binaries' parameter loops.

The lemmas then say what those functions mean.

The `cli` binary has its own copy of `parse_key_val` (cli/src/main.rs:25-30) and of `get_config_file` (cli/src/main.rs:32-39). Both behave like the shared ones in cli-utils, so `CliUtils.ParseKeyVal` and `CliUtils.GetConfigFile` model both copies.

## Model

| member | source | states |
|---|---|---|
| KeyVals.DefaultKind | requester/src/lib.rs:10-14 | the default kind is the one selected by a key with no prefix (Query) |
| KeyVals.PrefixOfClassified | requester/src/lib.rs:12-18 | a key's kind prefix followed by its bare name gives back the key |
| KeyVals.ClassifyPrefixed | requester/src/lib.rs:12-18 | `#name` is a Header override and `@name` a Body override; a name without prefix is a Query override |
| Text.DecimalRoundTrip | requester/src/diff.rs:44 | the decimal digits written for a line number read back as that number |
| Text.DecimalFits | requester/src/diff.rs:44 | a number's decimal form fits in k columns exactly when the number is below 10^k |
| Text.ContainsIffOccurs | requester/src/req.rs:127 | the content-type test holds exactly when "application/json" occurs somewhere in the value |
| Json.Upsert | requester/src/req.rs:89 | `params[key] = v` leaves an object that holds v under key, whatever was there before; every other key is unchanged, and null becomes an object |
| Json.UpsertStringsLastWins | cli/src/main.rs:57-59 | after the loop, a key holds the string of its last pair; a key no pair names keeps its old value |
| Http.DebugValue | requester/src/diff.rs:99-101 | a header value's `{:?}` form is quoted and has no line break; plain visible-ASCII values appear unchanged inside the quotes |
| Render.Sign | requester/src/diff.rs:137-141 | Delete, Insert and Equal get distinct signs (`-`, `+`, space), and a sign gives back its tag |
| Render.LineColumn | requester/src/diff.rs:38-47 | an absent line number is four spaces; every column is at least four characters wide |
| Render.ColumnRoundTrip | requester/src/diff.rs:40-47 | reading a column back gives the 0-based index it was written from, or absence |
| Render.ColumnWidth | requester/src/diff.rs:44 | the column is exactly four wide iff the 1-based number has at most four digits |
| Render.Separator | requester/src/diff.rs:133 | the group separator is 80 dashes and a line break |
| Render.WriteChange | requester/src/diff.rs:136-158 | one change is written as the two line columns, " \|", its sign, its text, and a line break when it lacks one |
| Render.WriteGroup | requester/src/diff.rs:135-159 | a group is its changes written in order |
| Render.BuildDiff | requester/src/diff.rs:128-163 | the diff text is the groups in order, with a separator before every group except the first |
| Render.RenderGroupsAppend | requester/src/diff.rs:131-134 | rendering two non-empty runs of groups is rendering each with one separator between them |
| Render.DecodeRenderedChange | requester/src/diff.rs:142-148 | the first 11 characters of a rendered change decode to its old index, new index and tag |
| Render.RenderedChangeEndsLine | requester/src/diff.rs:156-158 | every rendered change ends its line, whether or not its text had a final newline |
| Req.ParamsSurviveSkipAndDefault | requester/src/req.rs:45-51 | leaving empty params out when saving, then reading back the `{}` default, restores them exactly unless they were null |
| Req.TryLoad | requester/src/req.rs:57-64 | loading succeeds, with the config unchanged, iff every profile's params is an object; otherwise the error names a profile whose params is not |
| Req.Get | requester/src/req.rs:68-72 | the request stored under exactly that name, or "profile X not found" |
| Req.Step | requester/src/req.rs:87-102 | one override fails only when it is a header with an invalid name (checked first) or value; a failed step changes nothing |
| Req.Apply | requester/src/req.rs:85-106 | the overrides never change method, URL or user agent, nor give a bodiless request a body |
| Req.ApplyStopsAtFailure | requester/src/req.rs:93-94 | after the first failed override, later overrides have no effect |
| Req.ApplySucceedsIffAllAccepted | requester/src/req.rs:91-96 | `update` fails iff some header override has an invalid name or value |
| Req.ApplyKeepsEarlierOverrides | requester/src/req.rs:86-96 | on failure there is no rollback: the request holds every change made before the first rejected override, and the error is that override's |
| Req.QueryLastWriteWins | requester/src/req.rs:86-90 | a params key holds the string of its last Query override, replacing any earlier value including an array; other keys are unchanged |
| Req.BodyLastWriteWins | requester/src/req.rs:97-101 | with a body present, a body key holds its last Body override's string and other keys are unchanged |
| Req.HeaderLastWriteWins | requester/src/req.rs:91-96 | a header name holds exactly the one value of its last override, replacing all earlier values; names without an override are unchanged |
| Req.OverridesTouchOnlyTheirTarget | requester/src/req.rs:85-106 | without Query overrides the params are unchanged, and likewise for headers and body |
| Req.QueryOverridesAreParamUpserts | requester/src/req.rs:88-90 | Query-only overrides never fail and are exactly the binaries' string upsert loop on params |
| Req.RequestContext.constructor | requester/src/req.rs:21-39 | a clone holds exactly the stored request |
| Req.RequestContext.Update | requester/src/req.rs:85-106 | the in-place loop leaves the request as the fold of the overrides and returns its first error, if any |
| Req.PlanSend | requester/src/req.rs:108-148 | a scheme other than http/https fails with "unsupported scheme" before anything else; then a failed query encoding, then an invalid user agent ("Requester/0.1.0" by default), then a body whose content type lacks "application/json" fail, in that order and each with its own error (the content type as it was set); otherwise the plan is built, and a body without content type gets `application/json` |
| Req.SendProfile | requester/src/req.rs:74-81 | an unknown profile fails before anything is prepared |
| HeaderScan.ScanHeaders | requester/src/diff.rs:93-105 | the loop's buffer is the mismatch text of the first response's headers |
| HeaderScan.ScanEmptyIffAllMatch | requester/src/diff.rs:93-108 | nothing is reported iff every unskipped header of the first response has the second's first value under its name |
| HeaderScan.ScanSeesOnlyFirstResponseNames | requester/src/diff.rs:93-97 | the second response matters only through the names the first carries; headers only it has are never reported |
| HeaderScan.SkipIsRemoval | requester/src/diff.rs:94-96 | skipping a name by exact string match is the same as removing its headers from the first response |
| HeaderScan.OnlyValueMismatchesEndLines | requester/src/diff.rs:98-102 | the report has no line break iff every reported header is missing from the second response |
| RequesterDiff.Get | requester/src/diff.rs:56-60 | the profile stored under exactly that name, or "profile X not found" |
| RequesterDiff.NormalizeBodies | requester/src/diff.rs:111-118 | if body 1 is JSON, both are pretty-printed and a non-JSON body 2 is an error; otherwise both raw texts |
| RequesterDiff.DiffResponse | requester/src/diff.rs:80-125 | the method computes the decision sequence of `diff_response` |
| RequesterDiff.EqualMeansAgreement | requester/src/diff.rs:83-124 | Equal iff statuses agree, headers are equal or all unskipped first-response headers match, and normalised bodies agree |
| RequesterDiff.IdenticalResponsesAreEqual | requester/src/diff.rs:80-125 | a response compared with itself is Equal under any options |
| RequesterDiff.JsonBodiesCompareAsValues | requester/src/diff.rs:114-124 | bodies that parse to the same JSON value compare equal whatever their formatting |
| RequesterDiff.BodyFormatDecidedByFirst | requester/src/diff.rs:114-118 | a JSON body 1 with a non-JSON body 2 is a parse error; with a non-JSON body 1, raw texts decide |
| RequesterDiff.StatusComparedFirst | requester/src/diff.rs:83-89 | differing statuses give `Diff("status code mismatch: " + s1 + " != " + s2)`, each status as code and reason phrase, whatever the headers and bodies |
| RequesterDiff.ContextDiff | requester/src/diff.rs:73-78 | an error preparing request 1 is returned before request 2 is prepared; success needs both requests prepared |
| RequesterDiff.DiffContext | requester/src/diff.rs:73-78 | sends request 1, then request 2, then compares |
| RequesterDiff.DiffProfile | requester/src/diff.rs:62-69 | an unknown profile fails with "profile X not found" before any request |
| Differ.GetApi | differ/src/lib.rs:77-94 | scheme other than http/https is "unsupported scheme"; otherwise the profile's method, headers and encoded params with user agent "API Diff/0.1.0" and no body |
| Differ.RequestsDifferOnlyInUrl | differ/src/lib.rs:70-88 | the two requests of a profile agree in everything but the URL |
| Differ.UnifiedText | differ/src/lib.rs:128-135 | the unified diff starts with the "Response 1"/"Response 2" header when it has hunks, and is empty otherwise |
| Differ.DiffResponse | differ/src/lib.rs:96-140 | the method computes the decision sequence of `diff_response` |
| Differ.EqualMeansAgreement | differ/src/lib.rs:97-139 | Equal iff statuses agree, headers are equal or all unskipped first-response headers match, and raw bodies are the same text |
| Differ.StatusComparedFirst | differ/src/lib.rs:97-103 | differing statuses give `Diff("status code mismatch: " + s1 + " != " + s2)`, each status as code and reason phrase, whatever the headers and bodies |
| Differ.DiffTextShape | differ/src/lib.rs:97-136 | a Diff text is never empty; a body diff ends with a line break |
| Differ.ApiDiff | differ/src/lib.rs:70-75 | an error preparing the url1 request comes first; success needs both requests prepared |
| Differ.DiffApi | differ/src/lib.rs:70-75 | requests url1, then url2, then compares |
| Differ.GetProfile | differ/src/lib.rs:59-63 | the profile under exactly that name in `apis`, or "api profile X not found" |
| Differ.DiffProfile | differ/src/lib.rs:59-66 | an unknown api profile fails before any request |
| CliUtils.ParseKeyVal | cli-utils/src/lib.rs:6-13 | fails with "missing value" iff there is no `=` (the empty string included) |
| CliUtils.ParseKeyValSplits | cli-utils/src/lib.rs:7-12 | key + "=" + value is the input, and the key holds no `=` (the value may) |
| CliUtils.ParseKeyValJoined | cli/src/main.rs:25-30 | any key without `=` and any value, either possibly empty, come back from their joined form |
| CliUtils.GetConfigFile | cli-utils/src/lib.rs:15-22 | the path iff it exists, else "config file not found" |
| CliUtils.FirstExisting | cli-utils/src/lib.rs:31-35 | the first existing path in order, or none iff none exists |
| CliUtils.GetDefaultConfig | cli-utils/src/lib.rs:24-38 | the first existing of `$HOME/.config/name`, `./name`, `/etc/name`; else an error listing all three |
| Cli.ApplyExtraParams | cli/src/main.rs:57-59 | the loop leaves the profile's params as the in-order string upserts of the pairs, with nothing else changed |
| Cli.Report | cli/src/main.rs:63-70 | Equal prints "API responses are equal", a Diff prints its text |
| Cli.ReportLosesKind | cli/src/main.rs:63-70 | a Diff whose text is the equality message prints the same as Equal, and no other does |
| Cli.Prepared | cli/src/main.rs:51-59 | the profile diffed is the one stored under `--api`, with the extra parameters upserted into its params and nothing else changed, or "api profile X not found" |
| Cli.ExtraParamsReachBothPlans | cli/src/main.rs:57-61 | both requests sent query params holding each named key's last extra value, with the stored method and headers |
| Cli.Outcome | cli/src/main.rs:42-72 | a config load error (from `--config` or "~/.config/differ.yaml") is returned; an unknown api profile fails with "api profile X not found" before any request; success prints a report |
| Cli.Run | cli/src/main.rs:42-72 | the steps of `main` give its outcome |
| Xdiff.ResolveConfigAsWritten | xdiff/src/main.rs:28 | the default search's error is returned even when `--config` is given |
| Xdiff.GivenConfigRefusedWithoutDefault | xdiff/src/main.rs:28 | an existing `--config` file is refused when no default location holds a config |
| Xdiff.ResolveConfig | xdiff/src/main.rs:28 | `--config` wins; the default locations are searched only without it |
| Xdiff.ResolutionsAgreeWhenDefaultExists | xdiff/src/main.rs:28 | whenever the written resolution succeeds, the intended one picks the same file |
| Xdiff.ApplyExtraParams | xdiff/src/main.rs:33-36 | both requests' params receive the same in-order string upserts, with nothing else changed |
| Xdiff.ExtraParamsReachBothRequests | xdiff/src/main.rs:33-36 | both requests end up with the last pair's string under each named key, `#`/`@` keys included as plain names |
| Xdiff.ExtraParamsAreQueryOverrides | xdiff/src/main.rs:33-36 | the loop does what `update` does with the pairs as Query overrides, whatever their prefix |
| Xdiff.Report | xdiff/src/main.rs:40-47 | Equal prints "API responses are equal", a Diff prints its text |
| Xdiff.Prepared | xdiff/src/main.rs:31-36 | the profile diffed is the one stored under `--profile`, with the extra parameters upserted into both requests' params and nothing else changed, or "profile X not found" |
| Xdiff.ExtraParamsReachBothPlans | xdiff/src/main.rs:33-38 | both requests sent query params holding each named key's last extra value, and keep their stored method, body and user agent |
| Xdiff.OutcomeFrom | xdiff/src/main.rs:29-48 | a config load error is returned; an unknown profile fails with "profile X not found" before any request; success prints a report |
| Xdiff.OutcomeAsWritten | xdiff/src/main.rs:25-49 | `main` as written fails with the default search's error whenever no default config exists |
| Xdiff.Outcome | xdiff/src/main.rs:25-49 | with the corrected resolution, a given `--config` file is loaded directly |
| Xdiff.CorrectedMainAgreesWithWritten | xdiff/src/main.rs:28 | corrected and written `main` agree whenever the written resolution succeeds, and differ only when `--config` is given and no default config exists |
| Xdiff.Run | xdiff/src/main.rs:25-49 | the steps of `main`, with the corrected resolution, give its corrected outcome |

## Left out

- Network transport, `async`/`tokio` and `res.text()` decoding: a request is reduced to the `Plan` handed to a transport function, and a response to its status, ordered header list and body text.
- File and environment access (`fs::read_to_string`, `Path::exists`, `std::env::var`): existence is a predicate parameter, `$HOME` is a string parameter, and loading a config file is a function parameter.
- `HOME` unset: `get_default_config` panics on `std::env::var("HOME").unwrap()`; the model takes the home directory as given.
- YAML and serde (de)serialisation, the serde field attributes and `serde_qs`: they are foreign functions. `try_load` keeps only its validation loop. `is_empty_value` and `default_params` are modelled for the round trip they serve.
- JSON parsing, compact and pretty printing: foreign functions; "parses" is their `None`/`Some`.
- `Value`'s `IndexMut` panics on values other than objects and null: `Json.Upsert` requires an indexable value. This is why `Req.RequestSpec.WellFormed`, `Cli.Run` and `Xdiff.Run` require indexable params.
- `Req.PlanSend`: the `to_str().unwrap()` panic on a non-text content type is not modelled. Among `Client::builder().build()` failures, only an invalid user agent is modelled.
- `Differ.GetApi`: the constant user agent is taken to be a valid header value. Client-build failures are not modelled.
- Header names and values are taken as already normalised strings. The `http` crate lower-cases names, so an upper-case `skip_headers` entry never matches; the model keeps the exact string comparison.
- The line-diff algorithm of `similar` (`from_lines`, `grouped_ops(3)`, `iter_inline_changes`, `unified_diff` hunks) and `console` styling: groups of tagged changes and hunk texts are inputs, and styling is the identity on text.
- The `jq` option is carried in both response configs but never applied, as in the source.
- `KeyVal::new` and `KeyVal` equality are the datatype constructor and Dafny's structural equality.
- Command-line parsing by `clap` is not modelled: the models start from parsed arguments. Each `-e` value has been through `parse_key_val` and `--config` through `get_config_file`.
- Xdiff.Run: models `main` with the corrected config resolution of the Findings row. With `--config` given and no default config, the program as written exits with the default search's error; `Xdiff.OutcomeAsWritten` keeps that behaviour, and `Xdiff.CorrectedMainAgreesWithWritten` shows it is the only difference.
- Http.DebugValue: header values are byte strings, modelled with one char per byte (every code below 256). Decoding such bytes into chars, or encoding a char above 255 into UTF-8 bytes, is not modelled. For such a char the model writes one `\x` escape of its code point, where `HeaderValue` escapes each byte. The `Sensitive` form of sensitive values is not modelled either; responses do not mark their headers sensitive.
- `println!` is not modelled; `Report` gives the printed text.
- `Req.TryLoad`: which offending profile is named depends on `HashMap` iteration order. The model states only that the named profile is one whose params is not an object.
- xreq/src/main.rs (presentation and a foreign query engine) and differ/examples/config.rs (a sample config printer) are not part of this model.
- Response headers are compared with `HeaderMap`'s equality as the `http` crate defines it: equal length, and the same value list for every name of the first map. The scan compares each value of the first response with the first value the second response has under that name. So a multi-valued header can be reported even when both responses carry the same values. The model keeps this behaviour.

## Findings

| source | as written | input that shows it | evidently intended | confidence | as-written member | corrected member |
|---|---|---|---|---|---|---|
| xdiff/src/main.rs:28 | `args.config.unwrap_or(get_default_config("xdiff.yml")?)` evaluates the default search, and returns its error, before looking at `--config` | `--config ./my.yml` with `./my.yml` present and no `xdiff.yml` in `$HOME/.config`, `.` or `/etc` | a given `--config` is used and the default locations are searched only without it | high, not executed | Xdiff.ResolveConfigAsWritten, Xdiff.GivenConfigRefusedWithoutDefault, Xdiff.OutcomeAsWritten | Xdiff.ResolveConfig, Xdiff.ResolutionsAgreeWhenDefaultExists, Xdiff.Outcome, Xdiff.CorrectedMainAgreesWithWritten |
