/**
 * Configuration loading from `src/config/loader.rs`. The config file, once
 * read and parsed, and the process environment are passed in as values:
 * the layering itself is a pure function of them and of the command line.
 */
module ConfigLoader {
  import opened Wrappers
  import Errors

  /** Rust `u64`. */
  type U64 = n: int | 0 <= n < 0x1_0000_0000_0000_0000

  /** `OutputFormat` from `src/output/format.rs`. */
  datatype OutputFormat = Table | Json | JsonPretty

  /** The fully resolved runtime configuration. */
  datatype Config = Config(
    baseUrl: string,
    apiKey: string,
    outputFormat: OutputFormat,
    timeoutSecs: U64,
    verbose: bool,
    quiet: bool)

  const DefaultBaseUrl: string := "http://localhost:5678"
  const DefaultTimeoutSecs: U64 := 30

  /** `Config::default()`. */
  const Default: Config := Config(DefaultBaseUrl, "", Table, DefaultTimeoutSecs, false, false)

  /** A named profile in the config file. */
  datatype Profile = Profile(
    baseUrl: string,
    apiKey: Option<string>,
    apiKeyEnv: Option<string>,
    outputFormat: Option<OutputFormat>)

  /** The parsed config file. */
  datatype ConfigFile = ConfigFile(
    defaultProfile: Option<string>,
    outputFormat: Option<OutputFormat>,
    timeoutSecs: Option<U64>,
    profiles: map<string, Profile>)

  /**
   * What reading the config file gave: no file (or no config directory),
   * a read error, a TOML parse error, or the parsed contents.
   */
  datatype FileState =
    | Absent
    | Unreadable(readError: string)
    | Malformed(parseError: string)
    | Present(contents: ConfigFile)

  /** The process environment; a variable that is unset or not Unicode is absent. */
  type Env = map<string, string>

  /** `std::env::var(name).ok()`. */
  function EnvVar(env: Env, name: string): (r: Option<string>)
    ensures r.Some? <==> name in env
    ensures r.Some? ==> r.value == env[name]
  {
    if name in env then Some(env[name]) else None
  }

  /** Command-line options that override the configuration. */
  datatype CliOverrides = CliOverrides(
    profile: Option<string>,
    url: Option<string>,
    apiKey: Option<string>,
    output: OutputFormat,
    verbose: bool,
    quiet: bool)

  const ProfileVar: string := "N8N_PROFILE"
  const BaseUrlVar: string := "N8N_BASE_URL"
  const ApiKeyVar: string := "N8N_API_KEY"

  /** `Option::or`: the first option when it holds a value, else the second. */
  function Or<T>(a: Option<T>, b: Option<T>): Option<T> {
    if a.Some? then a else b
  }

  /** The profile name: the command line, else `N8N_PROFILE`, else the file's default. */
  function ProfileName(f: ConfigFile, env: Env, cli: CliOverrides): Option<string> {
    Or(Or(cli.profile, EnvVar(env, ProfileVar)), f.defaultProfile)
  }

  /** A profile's own API key, else the variable it names, when that is set. */
  function ProfileKey(p: Profile, env: Env): Option<string> {
    if p.apiKey.Some? then p.apiKey
    else if p.apiKeyEnv.Some? then EnvVar(env, p.apiKeyEnv.value)
    else None
  }

  /** Layer 1 applied to `c`: the file's defaults, then the selected profile. */
  function ApplyFile(c: Config, f: ConfigFile, env: Env, cli: CliOverrides): (r: Result<Config, Errors.CliError>)
    ensures r.Err? <==> ProfileName(f, env, cli).Some? && ProfileName(f, env, cli).value !in f.profiles
    ensures r.Err? ==> r.error == Errors.ProfileNotFound(ProfileName(f, env, cli).value)
    ensures r.Ok? ==> r.value.timeoutSecs == f.timeoutSecs.GetOr(c.timeoutSecs)
  {
    var c := c.(outputFormat := f.outputFormat.GetOr(c.outputFormat));
    var c := c.(timeoutSecs := f.timeoutSecs.GetOr(c.timeoutSecs));
    match ProfileName(f, env, cli)
    case None => Ok(c)
    case Some(name) =>
      if name in f.profiles then
        var p := f.profiles[name];
        var c := c.(baseUrl := p.baseUrl);
        var c := c.(apiKey := ProfileKey(p, env).GetOr(c.apiKey));
        Ok(c.(outputFormat := p.outputFormat.GetOr(c.outputFormat)))
      else Err(Errors.ProfileNotFound(name))
  }

  /** Layer 2: `N8N_BASE_URL` and `N8N_API_KEY` override what the file gave. */
  function ApplyEnv(c: Config, env: Env): (r: Config)
    ensures r.timeoutSecs == c.timeoutSecs && r.outputFormat == c.outputFormat
    ensures BaseUrlVar !in env && ApiKeyVar !in env ==> r == c
  {
    c.(baseUrl := EnvVar(env, BaseUrlVar).GetOr(c.baseUrl),
       apiKey := EnvVar(env, ApiKeyVar).GetOr(c.apiKey))
  }

  /** Layer 3: the command line overrides everything. */
  function ApplyCli(c: Config, cli: CliOverrides): (r: Config)
    ensures r.timeoutSecs == c.timeoutSecs
    ensures r.outputFormat == cli.output && r.verbose == cli.verbose && r.quiet == cli.quiet
  {
    c.(baseUrl := cli.url.GetOr(c.baseUrl),
       apiKey := cli.apiKey.GetOr(c.apiKey),
       outputFormat := cli.output,
       verbose := cli.verbose,
       quiet := cli.quiet)
  }

  /** `load_config`: defaults, then the file, then the environment, then the command line. */
  function LoadConfig(file: FileState, env: Env, cli: CliOverrides): (r: Result<Config, Errors.CliError>)
    ensures file.Absent? ==> r.Ok?
    ensures file.Unreadable? ==> r == Err(Errors.ConfigFileRead(file.readError))
    ensures file.Malformed? ==> r == Err(Errors.ConfigFileParse(file.parseError))
    ensures r.Ok? ==> r.value.outputFormat == cli.output
    ensures r.Ok? ==> r.value.verbose == cli.verbose && r.value.quiet == cli.quiet
  {
    match file
    case Absent => Ok(ApplyCli(ApplyEnv(Default, env), cli))
    case Unreadable(e) => Err(Errors.ConfigFileRead(e))
    case Malformed(e) => Err(Errors.ConfigFileParse(e))
    case Present(f) =>
      match ApplyFile(Default, f, env, cli)
      case Err(e) => Err(e)
      case Ok(c) => Ok(ApplyCli(ApplyEnv(c, env), cli))
  }

  // Reference statement of the precedence rules.

  /** The first option in the list that holds a value. */
  function FirstOf<T>(options: seq<Option<T>>): (r: Option<T>)
    ensures r.Some? <==> exists i :: 0 <= i < |options| && options[i].Some?
    ensures r.Some? ==>
              exists i :: 0 <= i < |options| && options[i] == r &&
                          forall j :: 0 <= j < i ==> options[j].None?
  {
    if options == [] then None
    else if options[0].Some? then options[0]
    else
      var r := FirstOf(options[1..]);
      assert forall i :: 1 <= i < |options| ==> options[i] == options[1..][i - 1];
      r
  }

  /** `FirstOf` on three options is a chain of `Option::or`. */
  lemma FirstOfThree<T>(a: Option<T>, b: Option<T>, c: Option<T>)
    ensures FirstOf([a, b, c]) == Or(Or(a, b), c)
  {
    assert [c][1..] == [];
    assert FirstOf([c]) == c;
    assert [b, c][1..] == [c];
    assert FirstOf([b, c]) == Or(b, c);
    assert [a, b, c][1..] == [b, c];
  }

  /** `FirstOf` on four options is a chain of `Option::or`. */
  lemma FirstOfFour<T>(a: Option<T>, b: Option<T>, c: Option<T>, d: Option<T>)
    ensures FirstOf([a, b, c, d]) == Or(Or(Or(a, b), c), d)
  {
    assert [a, b, c, d][1..] == [b, c, d];
    FirstOfThree(b, c, d);
  }

  /** The profile the file selects, when there is a file and a name for it. */
  function SelectedProfile(file: FileState, env: Env, cli: CliOverrides): Option<Profile> {
    if file.Present? then
      var name := ProfileName(file.contents, env, cli);
      if name.Some? && name.value in file.contents.profiles
      then Some(file.contents.profiles[name.value])
      else None
    else None
  }

  /** Whether loading stops with `ProfileNotFound`: a name is selected that the file does not define. */
  predicate MissingProfile(file: FileState, env: Env, cli: CliOverrides) {
    file.Present? &&
    var name := FirstOf([cli.profile, EnvVar(env, ProfileVar), file.contents.defaultProfile]);
    name.Some? && name.value !in file.contents.profiles
  }

  /** The profile name is the first of the command line, `N8N_PROFILE` and the file's default. */
  lemma ProfileNamePrecedence(f: ConfigFile, env: Env, cli: CliOverrides)
    ensures ProfileName(f, env, cli) == FirstOf([cli.profile, EnvVar(env, ProfileVar), f.defaultProfile])
  {
    FirstOfThree(cli.profile, EnvVar(env, ProfileVar), f.defaultProfile);
  }

  /** Loading fails exactly on an unreadable file, a malformed file, or a missing profile. */
  lemma LoadConfigErrors(file: FileState, env: Env, cli: CliOverrides)
    ensures LoadConfig(file, env, cli).Err? <==>
      file.Unreadable? || file.Malformed? || MissingProfile(file, env, cli)
    ensures MissingProfile(file, env, cli) ==>
      LoadConfig(file, env, cli) == Err(Errors.ProfileNotFound(ProfileName(file.contents, env, cli).value))
  {
    if file.Present? {
      ProfileNamePrecedence(file.contents, env, cli);
    }
  }

  /**
   * base_url, highest first: the command line, `N8N_BASE_URL`, the selected
   * profile, the default.
   */
  lemma BaseUrlPrecedence(file: FileState, env: Env, cli: CliOverrides)
    requires LoadConfig(file, env, cli).Ok?
    ensures LoadConfig(file, env, cli).value.baseUrl ==
      FirstOf([cli.url, EnvVar(env, BaseUrlVar), ProfileUrl(SelectedProfile(file, env, cli))])
        .GetOr(DefaultBaseUrl)
  {
    FirstOfThree(cli.url, EnvVar(env, BaseUrlVar), ProfileUrl(SelectedProfile(file, env, cli)));
  }

  function ProfileUrl(p: Option<Profile>): Option<string> {
    if p.Some? then Some(p.value.baseUrl) else None
  }

  function ProfileApiKey(p: Option<Profile>, env: Env): Option<string> {
    if p.Some? then ProfileKey(p.value, env) else None
  }

  /**
   * api_key, highest first: the command line, `N8N_API_KEY`, the selected
   * profile's own key, the variable the profile names; else empty.
   */
  lemma ApiKeyPrecedence(file: FileState, env: Env, cli: CliOverrides)
    requires LoadConfig(file, env, cli).Ok?
    ensures LoadConfig(file, env, cli).value.apiKey ==
      FirstOf([cli.apiKey, EnvVar(env, ApiKeyVar), ApiKeyOfProfile(file, env, cli),
               ApiKeyEnvOfProfile(file, env, cli)]).GetOr("")
  {
    FirstOfFour(cli.apiKey, EnvVar(env, ApiKeyVar), ApiKeyOfProfile(file, env, cli),
                ApiKeyEnvOfProfile(file, env, cli));
  }

  /** The selected profile's literal `api_key`. */
  function ApiKeyOfProfile(file: FileState, env: Env, cli: CliOverrides): Option<string> {
    var p := SelectedProfile(file, env, cli);
    if p.Some? then p.value.apiKey else None
  }

  /** The value of the variable named by the selected profile's `api_key_env`. */
  function ApiKeyEnvOfProfile(file: FileState, env: Env, cli: CliOverrides): Option<string> {
    var p := SelectedProfile(file, env, cli);
    if p.Some? && p.value.apiKeyEnv.Some? then EnvVar(env, p.value.apiKeyEnv.value) else None
  }

  /** The timeout comes from the file when it sets one and is never overridden afterwards. */
  lemma TimeoutFromFile(file: FileState, env: Env, cli: CliOverrides)
    requires LoadConfig(file, env, cli).Ok?
    ensures LoadConfig(file, env, cli).value.timeoutSecs ==
      if file.Present? then file.contents.timeoutSecs.GetOr(DefaultTimeoutSecs) else DefaultTimeoutSecs
  {
  }

  /** Without a config file a requested profile is ignored, never reported missing. */
  lemma ProfileIgnoredWithoutFile(env: Env, cli: CliOverrides)
    ensures LoadConfig(Absent, env, cli) == LoadConfig(Absent, env, cli.(profile := None))
  {
  }

  /** With nothing configured anywhere the defaults remain, apart from the command-line flags. */
  lemma NothingConfigured(cli: CliOverrides)
    requires cli.url.None? && cli.apiKey.None?
    ensures LoadConfig(Absent, map[], cli) ==
      Ok(Default.(outputFormat := cli.output, verbose := cli.verbose, quiet := cli.quiet))
  {
  }

  /** `validate_config`: the API key is checked first, then the base URL. */
  function ValidateConfig(c: Config): (r: Result<(), Errors.CliError>)
    ensures r.Ok? <==> c.apiKey != [] && c.baseUrl != []
    ensures r == Err(Errors.MissingApiKey) <==> c.apiKey == []
    ensures r == Err(Errors.MissingBaseUrl) <==> c.apiKey != [] && c.baseUrl == []
  {
    if c.apiKey == [] then Err(Errors.MissingApiKey)
    else if c.baseUrl == [] then Err(Errors.MissingBaseUrl)
    else Ok(())
  }

  /** Non-empty URL and key on the command line always give a configuration that validates. */
  lemma CliCredentialsValidate(file: FileState, env: Env, cli: CliOverrides)
    requires LoadConfig(file, env, cli).Ok?
    requires cli.url.Some? && cli.url.value != []
    requires cli.apiKey.Some? && cli.apiKey.value != []
    ensures ValidateConfig(LoadConfig(file, env, cli).value) == Ok(())
  {
  }
}
