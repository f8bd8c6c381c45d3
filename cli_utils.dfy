/** cli-utils/src/lib.rs: the argument helpers the binaries share. */
module CliUtils {
  import opened Wrappers
  import opened Text
  import opened Errors

  /** The position of the first `c` in `s`, if any. */
  function FirstIndex(s: string, c: char): (r: Option<nat>)
    ensures r.None? <==> c !in s
    ensures r.Some? ==> r.value < |s| && s[r.value] == c && c !in s[..r.value]
  {
    if s == [] then None
    else if s[0] == c then Some(0)
    else match FirstIndex(s[1..], c)
      case None => None
      case Some(i) =>
        assert s[..i + 1] == [s[0]] + s[1..][..i];
        Some(i + 1)
  }

  /** `parse_key_val`: split at the first `=`. The key part always exists;
      without a `=` the value is missing. */
  function ParseKeyVal(s: string): (r: Result<(string, string), Error>)
    ensures r.Err? <==> '=' !in s
    ensures r.Err? ==> r.error == MissingValue
  {
    match FirstIndex(s, '=')
    case None => Err(MissingValue)
    case Some(i) => Ok((s[..i], s[i + 1..]))
  }

  /** A parsed pair puts the text back together, and its key holds no `=`
      (the value may). */
  lemma ParseKeyValSplits(s: string)
    requires ParseKeyVal(s).Ok?
    ensures var (k, v) := ParseKeyVal(s).value; k + "=" + v == s && '=' !in k
  {
    var i := FirstIndex(s, '=').value;
    assert s == s[..i] + [s[i]] + s[i + 1..];
  }

  /** Joining a key without `=` to any value and parsing gives the pair back;
      either part may be empty. */
  lemma ParseKeyValJoined(k: string, v: string)
    requires '=' !in k
    ensures ParseKeyVal(k + "=" + v) == Ok((k, v))
  {
    var s := k + "=" + v;
    assert s[|k|] == '=';
    assert s[..|k|] == k;
    assert s[|k| + 1..] == v;
  }

  /** `get_config_file`: the path, if it exists. */
  function GetConfigFile(s: string, pathExists: string -> bool): (r: Result<string, Error>)
    ensures r.Ok? <==> pathExists(s)
    ensures r.Ok? ==> r.value == s
    ensures r.Err? ==> Message(r.error) == Some("config file not found")
  {
    if pathExists(s) then Ok(s) else Err(ConfigFileNotFound)
  }

  /** The places `get_default_config` looks, in order. */
  function Candidates(name: string, home: string): (r: seq<string>)
    ensures |r| == 3
  {
    [home + "/.config/" + name, "./" + name, "/etc/" + name]
  }

  /** The first path that pathExists, searching in order. */
  function FirstExisting(paths: seq<string>, pathExists: string -> bool): (r: Option<string>)
    ensures r.None? <==> forall i :: 0 <= i < |paths| ==> !pathExists(paths[i])
    ensures r.Some? ==> exists i :: 0 <= i < |paths| && paths[i] == r.value && pathExists(r.value)
                          && forall j :: 0 <= j < i ==> !pathExists(paths[j])
  {
    if paths == [] then None
    else if pathExists(paths[0]) then Some(paths[0])
    else
      var rest := FirstExisting(paths[1..], pathExists);
      if rest.Some? then
        assert exists i :: 0 <= i < |paths| && paths[i] == rest.value && pathExists(rest.value)
                            && forall j :: 0 <= j < i ==> !pathExists(paths[j]) by {
          var i :| 0 <= i < |paths[1..]| && paths[1..][i] == rest.value && pathExists(rest.value)
                   && forall j :: 0 <= j < i ==> !pathExists(paths[1..][j]);
          assert paths[i + 1] == rest.value;
          assert forall j :: 0 <= j < i + 1 ==> !pathExists(paths[j]) by {
            forall j | 0 <= j < i + 1 ensures !pathExists(paths[j]) {
              if j > 0 { assert paths[j] == paths[1..][j - 1]; }
            }
          }
        }
        rest
      else rest
  }

  /** `get_default_config`: the first existing candidate; otherwise an error
      that lists all three candidates. */
  function GetDefaultConfig(name: string, home: string, pathExists: string -> bool): (r: Result<string, Error>)
    ensures r.Ok? <==> pathExists(home + "/.config/" + name) || pathExists("./" + name) || pathExists("/etc/" + name)
    ensures r.Ok? ==> r.value == (if pathExists(home + "/.config/" + name) then home + "/.config/" + name
                                  else if pathExists("./" + name) then "./" + name
                                  else "/etc/" + name)
    ensures r.Err? ==> r.error == DefaultConfigNotFound(Candidates(name, home))
  {
    var paths := Candidates(name, home);
    match FirstExisting(paths, pathExists)
    case Some(p) =>
      assert paths[0] == home + "/.config/" + name && paths[1] == "./" + name && paths[2] == "/etc/" + name;
      Ok(p)
    case None =>
      assert !pathExists(paths[0]) && !pathExists(paths[1]) && !pathExists(paths[2]);
      Err(DefaultConfigNotFound(paths))
  }
}
