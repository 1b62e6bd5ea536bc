/** The application configuration of `config.ts`, built from the process
    environment, given here as a map from variable name to value (a name
    that is not in the map is unset). */
module Config {
  import opened Wrappers
  import opened Text
  import UserCli

  type Env = map<string, string>

  /** `process.env[name]`: `None` when the variable is unset. */
  function Lookup(env: Env, name: string): Option<string> {
    if name in env then Some(env[name]) else None
  }

  /** `NodeEnv`, one of `NODE_ENVS`. */
  datatype NodeEnv = Dev | Test | Prod

  function EnvName(e: NodeEnv): string {
    match e
    case Dev => "dev"
    case Test => "test"
    case Prod => "prod"
  }

  /** `NODE_ENVS`, in declaration order. */
  const NodeEnvs: seq<NodeEnv> := [Dev, Test, Prod]

  /** The environment named `s`, if `s` is in `NODE_ENVS`. */
  function ParseNodeEnv(s: string): (r: Option<NodeEnv>)
    ensures r.Some? ==> EnvName(r.value) == s
    ensures r.None? ==> forall e :: EnvName(e) != s
  {
    if s == "dev" then Some(Dev)
    else if s == "test" then Some(Test)
    else if s == "prod" then Some(Prod)
    else None
  }

  /** Every environment's name is read back as that environment. */
  lemma EnvNameRoundTrip(e: NodeEnv)
    ensures ParseNodeEnv(EnvName(e)) == Some(e)
    ensures e in NodeEnvs
  {
  }

  /** What `validateNodeEnv` returns, with the lines it prints. */
  datatype Validated = Validated(env: NodeEnv, printed: seq<string>)

  /** `${env}` for a possibly undefined string. */
  function Shown(v: Option<string>): string {
    v.GetOr("undefined")
  }

  /** `validateNodeEnv(env)`: a known name is kept silently; anything else
      (unset, empty, or unknown) becomes `dev` with a warning printed. */
  function ValidateNodeEnv(v: Option<string>): (r: Validated)
    ensures r.printed == [] <==> (v.Some? && exists e :: EnvName(e) == v.value)
    ensures r.printed == [] ==> EnvName(r.env) == v.value
    ensures r.printed != [] ==> r.env == Dev
    ensures r.printed != [] ==>
      r.printed == [UserCli.Print("Invalid NODE_ENV: " + Shown(v) + ", defaulting to 'dev'", [])]
  {
    match v
    case Some(s) =>
      (match ParseNodeEnv(s)
       case Some(e) => Validated(e, [])
       case None => Validated(Dev, [UserCli.Print("Invalid NODE_ENV: " + Shown(v) + ", defaulting to 'dev'", [])]))
    case None => Validated(Dev, [UserCli.Print("Invalid NODE_ENV: " + Shown(v) + ", defaulting to 'dev'", [])])
  }

  /** The defaults of one environment (`environmentDefaults[env]`). */
  datatype Defaults = Defaults(nodeEnv: NodeEnv, mockData: bool)

  /** `environmentDefaults`: mock data in development and test only. */
  function EnvironmentDefaults(e: NodeEnv): (r: Defaults)
    ensures r.nodeEnv == e
    ensures r.mockData <==> e != Prod
  {
    match e
    case Dev => Defaults(Dev, true)
    case Test => Defaults(Test, true)
    case Prod => Defaults(Prod, false)
  }

  /** One of the letters of `true`, in either case. */
  predicate TrueLetter(c: char, i: nat)
    requires i < 4
  {
    c == "true"[i] || c == "TRUE"[i]
  }

  /** `parseBoolean(value)`: `value?.toLowerCase() === 'true'`; an unset
      value gives `false`. */
  function ParseBoolean(v: Option<string>): (r: bool)
    ensures v.None? ==> !r
  {
    v.Some? && ToLower(v.value) == "true"
  }

  /** `parseBoolean` accepts exactly the four-letter spellings of `true` in
      any mixture of cases. */
  lemma ParseBooleanAcceptsAnyCase(s: string)
    ensures ParseBoolean(Some(s)) <==> |s| == 4 && forall i :: 0 <= i < 4 ==> TrueLetter(s[i], i)
  {
    if ParseBoolean(Some(s)) {
      forall i | 0 <= i < 4
        ensures TrueLetter(s[i], i)
      {
        assert LowerChar(s[i]) == "true"[i];
      }
    }
    if |s| == 4 && forall i :: 0 <= i < 4 ==> TrueLetter(s[i], i) {
      assert ToLower(s) == "true";
    }
  }

  /** `requiredEnvVars`, in declaration order. */
  const RequiredEnvVars: seq<string> := ["AI_API_KEY", "AI_BASE_URL", "AI_MODEL", "SEARCH_API_KEY"]

  /** `!process.env[key]`: the variable is unset or empty. */
  predicate Missing(env: Env, key: string) {
    key !in env || env[key] == ""
  }

  /** `sub` is `keys` with some entries dropped, the rest kept in order. */
  predicate SubsequenceOf(sub: seq<string>, keys: seq<string>)
    decreases |keys|
  {
    if |sub| == 0 then true
    else if |keys| == 0 then false
    else if sub[0] == keys[0] then SubsequenceOf(sub[1..], keys[1..])
    else SubsequenceOf(sub, keys[1..])
  }

  /** `keys.filter(key => !process.env[key])`. */
  function MissingKeys(env: Env, keys: seq<string>): (r: seq<string>)
    ensures forall k :: k in r <==> k in keys && Missing(env, k)
    ensures SubsequenceOf(r, keys)
  {
    if |keys| == 0 then []
    else if Missing(env, keys[0]) then [keys[0]] + MissingKeys(env, keys[1..])
    else MissingKeys(env, keys[1..])
  }

  const MissingPrefix: string := "Missing required environment variables: "

  /** `validateRequiredEnv()`: throws, naming every missing variable in
      declaration order, unless all four are set and non-empty. */
  function ValidateRequiredEnv(env: Env): (r: Result<(), string>)
    ensures r.Success? <==> AllSet(env)
    ensures r.Failure? ==> r.error == MissingPrefix + Join(MissingKeys(env, RequiredEnvVars), ", ")
  {
    var missing := MissingKeys(env, RequiredEnvVars);
    assert |missing| > 0 ==> missing[0] in missing;
    if |missing| > 0 then Failure(MissingPrefix + Join(missing, ", "))
    else Success(())
  }

  /** Every missing variable is named in the error message. */
  lemma MissingVariablesAreNamed(env: Env, k: string)
    requires k in RequiredEnvVars && Missing(env, k)
    ensures ValidateRequiredEnv(env).Failure?
    ensures Contains(ValidateRequiredEnv(env).error, k)
  {
    var missing := MissingKeys(env, RequiredEnvVars);
    assert k in missing;
    PrefixedJoinNames(MissingPrefix, missing, k);
  }

  /** A text made of a prefix and a comma-separated list names each entry
      of the list. */
  lemma PrefixedJoinNames(prefix: string, parts: seq<string>, k: string)
    requires k in parts
    ensures Contains(prefix + Join(parts, ", "), k)
  {
    var i :| 0 <= i < |parts| && parts[i] == k;
    JoinContainsPart(parts, ", ", i);
    var j :| OccursAt(Join(parts, ", "), k, j);
    assert OccursAt(prefix + Join(parts, ", "), k, |prefix| + j) by {
      var m := prefix + Join(parts, ", ");
      assert m[|prefix| + j..|prefix| + j + |k|] == Join(parts, ", ")[j..j + |k|];
    }
  }

  /** With nothing set, all four are named, in declaration order. */
  lemma EmptyEnvironmentMessage()
    ensures ValidateRequiredEnv(map[]) == Failure(MissingPrefix + Join(RequiredEnvVars, ", "))
  {
    var keys := RequiredEnvVars;
    assert MissingKeys(map[], keys[3..]) == keys[3..];
    assert MissingKeys(map[], keys[2..]) == keys[2..];
    assert MissingKeys(map[], keys[1..]) == keys[1..];
  }

  /** Each part of a join occurs in the joined text. */
  lemma {:induction false} JoinContainsPart(parts: seq<string>, sep: string, i: nat)
    requires i < |parts|
    ensures exists j :: OccursAt(Join(parts, sep), parts[i], j)
  {
    var s := Join(parts, sep);
    if |parts| == 1 {
      assert OccursAt(s, parts[i], 0);
    } else if i == 0 {
      assert s == parts[0] + (sep + Join(parts[1..], sep));
      assert s[..|parts[0]|] == parts[0];
      assert OccursAt(s, parts[i], 0);
    } else {
      JoinContainsPart(parts[1..], sep, i - 1);
      var t := Join(parts[1..], sep);
      var j :| OccursAt(t, parts[1..][i - 1], j);
      var off := |parts[0]| + |sep|;
      assert s == (parts[0] + sep) + t;
      assert s[off + j..off + j + |parts[i]|] == t[j..j + |parts[i]|];
      assert OccursAt(s, parts[i], off + j);
    }
  }

  /** The `ai` section: the four required variables, verbatim. */
  datatype Ai = Ai(apiKey: string, baseUrl: string, model: string, searchApiKey: string)

  /** `Config`. */
  datatype Config = Config(nodeEnv: NodeEnv, mockData: bool, ai: Ai)

  /** The configuration once the required variables are known to be set. */
  function Assemble(env: Env, mockData: bool, e: NodeEnv): (r: Config)
    requires AllSet(env)
    ensures r.nodeEnv == e && r.mockData == mockData
    ensures CopiesAi(env, r.ai)
  {
    AllSetKeys(env);
    Config(e, mockData,
           Ai(env["AI_API_KEY"], env["AI_BASE_URL"], env["AI_MODEL"], env["SEARCH_API_KEY"]))
  }

  /** The four required variables are set and non-empty. */
  predicate AllSet(env: Env) {
    forall k :: k in RequiredEnvVars ==> !Missing(env, k)
  }

  lemma AllSetKeys(env: Env)
    requires AllSet(env)
    ensures "AI_API_KEY" in env && "AI_BASE_URL" in env && "AI_MODEL" in env && "SEARCH_API_KEY" in env
  {
    assert RequiredEnvVars[0] == "AI_API_KEY" && RequiredEnvVars[1] == "AI_BASE_URL";
    assert RequiredEnvVars[2] == "AI_MODEL" && RequiredEnvVars[3] == "SEARCH_API_KEY";
    assert !Missing(env, "AI_API_KEY") && !Missing(env, "AI_BASE_URL");
    assert !Missing(env, "AI_MODEL") && !Missing(env, "SEARCH_API_KEY");
  }

  /** Each field of `ai` is the value of its variable, unchanged. */
  predicate CopiesAi(env: Env, ai: Ai) {
    && Lookup(env, "AI_API_KEY") == Some(ai.apiKey)
    && Lookup(env, "AI_BASE_URL") == Some(ai.baseUrl)
    && Lookup(env, "AI_MODEL") == Some(ai.model)
    && Lookup(env, "SEARCH_API_KEY") == Some(ai.searchApiKey)
  }

  /** `createConfig()` as written: `parseBoolean(MOCK_DATA) ?? defaults.mockData`,
      where `parseBoolean` always yields a boolean, so the `??` never falls
      back to the default. */
  function CreateConfigAsWritten(env: Env): (r: Result<Config, string>)
    ensures r.Success? <==> ValidateRequiredEnv(env).Success?
    ensures r.Failure? ==> r.error == ValidateRequiredEnv(env).error
  {
    match ValidateRequiredEnv(env)
    case Failure(m) => Failure(m)
    case Success(_) =>
      var nodeEnv := ValidateNodeEnv(Lookup(env, "NODE_ENV")).env;
      var defaults := EnvironmentDefaults(nodeEnv);
      var parsed: Option<bool> := Some(ParseBoolean(Lookup(env, "MOCK_DATA")));
      Success(Assemble(env, parsed.GetOr(defaults.mockData), nodeEnv))
  }

  /** The environment default for mock data is never used: `mockData`
      follows `MOCK_DATA` alone, and with it unset is `false` even in
      development, whose default is `true`. */
  lemma MockDataDefaultIgnoredAsWritten(env: Env)
    requires CreateConfigAsWritten(env).Success?
    ensures CreateConfigAsWritten(env).value.mockData == ParseBoolean(Lookup(env, "MOCK_DATA"))
    ensures "MOCK_DATA" !in env ==> !CreateConfigAsWritten(env).value.mockData
  {
  }

  /** A concrete development environment with `MOCK_DATA` unset. */
  lemma UnsetMockDataInDevelopmentAsWritten()
    ensures var env := map["AI_API_KEY" := "k", "AI_BASE_URL" := "u", "AI_MODEL" := "m",
                           "SEARCH_API_KEY" := "s", "NODE_ENV" := "dev"];
      && CreateConfigAsWritten(env).Success?
      && CreateConfigAsWritten(env).value.nodeEnv == Dev
      && EnvironmentDefaults(Dev).mockData
      && !CreateConfigAsWritten(env).value.mockData
  {
    var env := map["AI_API_KEY" := "k", "AI_BASE_URL" := "u", "AI_MODEL" := "m",
                   "SEARCH_API_KEY" := "s", "NODE_ENV" := "dev"];
    assert AllSet(env);
  }

  /** `parseBoolean` with the `undefined` its declared type allows: an unset
      value is reported as unset rather than as `false`. */
  function ParseBooleanOpt(v: Option<string>): (r: Option<bool>)
    ensures r.None? <==> v.None?
    ensures r.Some? ==> r.value == ParseBoolean(v)
  {
    match v
    case None => None
    case Some(s) => Some(ToLower(s) == "true")
  }

  /** `createConfig()` with the fallback to the environment default working. */
  function CreateConfig(env: Env): (r: Result<Config, string>)
    ensures r.Success? <==> AllSet(env)
    ensures r.Failure? ==> r.error == ValidateRequiredEnv(env).error
    ensures r.Success? ==> r.value.nodeEnv == ValidateNodeEnv(Lookup(env, "NODE_ENV")).env
    ensures r.Success? ==> CopiesAi(env, r.value.ai)
  {
    match ValidateRequiredEnv(env)
    case Failure(m) => Failure(m)
    case Success(_) =>
      var nodeEnv := ValidateNodeEnv(Lookup(env, "NODE_ENV")).env;
      var defaults := EnvironmentDefaults(nodeEnv);
      Success(Assemble(env, ParseBooleanOpt(Lookup(env, "MOCK_DATA")).GetOr(defaults.mockData), nodeEnv))
  }

  /** With `MOCK_DATA` unset, mock data follows the environment: on outside
      production, off in production; with it set, it is `true` exactly for
      the spellings of `true`. */
  lemma MockDataFollowsDefault(env: Env)
    requires CreateConfig(env).Success?
    ensures "MOCK_DATA" !in env ==>
      CreateConfig(env).value.mockData == (CreateConfig(env).value.nodeEnv != Prod)
    ensures "MOCK_DATA" in env ==>
      CreateConfig(env).value.mockData == ParseBoolean(Some(env["MOCK_DATA"]))
  {
  }

  /** The corrected and the written configuration differ only when
      `MOCK_DATA` is unset outside production. */
  lemma CorrectionOnlyTouchesUnsetMockData(env: Env)
    ensures CreateConfig(env).Success? <==> CreateConfigAsWritten(env).Success?
    ensures CreateConfig(env) != CreateConfigAsWritten(env) <==>
      (CreateConfig(env).Success? && "MOCK_DATA" !in env && CreateConfig(env).value.nodeEnv != Prod)
  {
  }

  /** With all four variables set, `NODE_ENV=prod` and `MOCK_DATA=TRUE`,
      the configuration is production with mock data on. */
  lemma ProductionWithMockData()
    ensures var env := map["AI_API_KEY" := "k", "AI_BASE_URL" := "u", "AI_MODEL" := "m",
                           "SEARCH_API_KEY" := "s", "NODE_ENV" := "prod", "MOCK_DATA" := "TRUE"];
      CreateConfig(env) == Success(Config(Prod, true, Ai("k", "u", "m", "s")))
  {
    var env := map["AI_API_KEY" := "k", "AI_BASE_URL" := "u", "AI_MODEL" := "m",
                   "SEARCH_API_KEY" := "s", "NODE_ENV" := "prod", "MOCK_DATA" := "TRUE"];
    assert AllSet(env);
    assert ToLower("TRUE") == "true";
  }
}
