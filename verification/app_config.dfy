/**
 * The configuration layer: the field-by-field merge of the command line, the
 * environment, the configuration file and the defaults, and the validator.
 * Reading the environment and the file is left to the caller: both arrive as
 * partial records.
 */
module AppConfig {
  import opened Wrappers
  import opened JsStrings

  /** A partial configuration: every field may be missing. */
  datatype PartialConfig = PartialConfig(
    endpoint: Option<string>,
    token: Option<string>,
    timeout: Option<int>,
    outputFormat: Option<string>,
    plain: Option<bool>)

  const Empty: PartialConfig := PartialConfig(None, None, None, None, None)

  /** A merged configuration. */
  datatype Config = Config(endpoint: string, token: string, timeout: int, outputFormat: string, plain: bool)

  const DefaultEndpoint: string := "http://127.0.0.1:6806"
  const DefaultTimeout: int := 10000

  /** `DEFAULT_CONFIG`. */
  const Defaults: PartialConfig := PartialConfig(Some(DefaultEndpoint), Some(""), Some(DefaultTimeout), Some("table"), Some(false))

  // ---------------------------------------------------------------------------
  // JavaScript truthiness and the two fall-through operators.
  // ---------------------------------------------------------------------------

  /** A string field is truthy when present and nonempty. */
  predicate Truthy(v: Option<string>) {
    v.Some? && |v.value| > 0
  }

  /** A number field is truthy when present and not zero. */
  predicate TruthyNum(v: Option<int>) {
    v.Some? && v.value != 0
  }

  /** `v || fallback` on a string. */
  function Or(v: Option<string>, fallback: string): (r: string)
    ensures Truthy(v) ==> r == v.value
    ensures !Truthy(v) ==> r == fallback
  {
    if Truthy(v) then v.value else fallback
  }

  /** `v || fallback` on a number. */
  function OrNum(v: Option<int>, fallback: int): (r: int)
    ensures TruthyNum(v) ==> r == v.value
    ensures !TruthyNum(v) ==> r == fallback
  {
    if TruthyNum(v) then v.value else fallback
  }

  /** `v ?? fallback`: only a missing value falls through. */
  function Nullish(v: Option<bool>, fallback: bool): (r: bool)
    ensures v.Some? ==> r == v.value
    ensures v.None? ==> r == fallback
  {
    match v
    case Some(b) => b
    case None => fallback
  }

  // ---------------------------------------------------------------------------
  // The merge.
  // ---------------------------------------------------------------------------

  /**
   * The merge of `loadConfig`: `cli || env || file || default || literal` for the
   * four truthy fields, `cli ?? file ?? default ?? false` for `plain`.
   */
  function MergeSources(cli: PartialConfig, env: PartialConfig, file: PartialConfig): (c: Config) {
    Config(
      Or(cli.endpoint, Or(env.endpoint, Or(file.endpoint, Or(Defaults.endpoint, DefaultEndpoint)))),
      Or(cli.token, Or(env.token, Or(file.token, Or(Defaults.token, "")))),
      OrNum(cli.timeout, OrNum(env.timeout, OrNum(file.timeout, OrNum(Defaults.timeout, DefaultTimeout)))),
      Or(cli.outputFormat, Or(env.outputFormat, Or(file.outputFormat, Or(Defaults.outputFormat, "table")))),
      Nullish(cli.plain, Nullish(file.plain, Nullish(Defaults.plain, false))))
  }

  /** Plain output never uses the table format: a merged `table` becomes `json`. */
  function Merge(cli: PartialConfig, env: PartialConfig, file: PartialConfig): (c: Config)
    ensures c.plain ==> c.outputFormat != "table"
    ensures c.plain == MergeSources(cli, env, file).plain
  {
    var m := MergeSources(cli, env, file);
    if m.plain && m.outputFormat == "table" then m.(outputFormat := "json") else m
  }

  /** The first truthy value of a list of string sources, or `last` when there is none. */
  function FirstTruthy(vs: seq<Option<string>>, last: string): (r: string)
    ensures forall i :: 0 <= i < |vs| && Truthy(vs[i]) && (forall k :: 0 <= k < i ==> !Truthy(vs[k])) ==> r == vs[i].value
    ensures (forall k :: 0 <= k < |vs| ==> !Truthy(vs[k])) ==> r == last
  {
    if |vs| == 0 then last else Or(vs[0], FirstTruthy(vs[1..], last))
  }

  /** The four truthy fields take the first truthy source in priority order. */
  lemma {:induction false} MergePriority(cli: PartialConfig, env: PartialConfig, file: PartialConfig)
    ensures Merge(cli, env, file).timeout
      == if TruthyNum(cli.timeout) then cli.timeout.value
         else if TruthyNum(env.timeout) then env.timeout.value
         else if TruthyNum(file.timeout) then file.timeout.value
         else 10000
    ensures MergeSources(cli, env, file).endpoint
      == FirstTruthy([cli.endpoint, env.endpoint, file.endpoint, Defaults.endpoint], DefaultEndpoint)
    ensures MergeSources(cli, env, file).token
      == FirstTruthy([cli.token, env.token, file.token, Defaults.token], "")
    ensures MergeSources(cli, env, file).outputFormat
      == FirstTruthy([cli.outputFormat, env.outputFormat, file.outputFormat, Defaults.outputFormat], "table")
  {
    FirstTruthyUnfold([cli.endpoint, env.endpoint, file.endpoint, Defaults.endpoint], DefaultEndpoint);
    FirstTruthyUnfold([cli.token, env.token, file.token, Defaults.token], "");
    FirstTruthyUnfold([cli.outputFormat, env.outputFormat, file.outputFormat, Defaults.outputFormat], "table");
  }

  lemma FirstTruthyUnfold(vs: seq<Option<string>>, last: string)
    requires |vs| == 4
    ensures FirstTruthy(vs, last) == Or(vs[0], Or(vs[1], Or(vs[2], Or(vs[3], last))))
  {
    assert vs[1..][1..][1..][1..] == [];
  }

  /** With every source empty: the default endpoint, no token, ten seconds, tables, not plain. */
  lemma MergeDefaults()
    ensures Merge(Empty, Empty, Empty) == Config(DefaultEndpoint, "", 10000, "table", false)
  {
  }

  /** An empty string or a zero counts as missing: it falls through to the next source. */
  lemma FalsyFallsThrough(cli: PartialConfig, env: PartialConfig, file: PartialConfig)
    requires cli.endpoint == Some("") && cli.token == Some("") && cli.timeout == Some(0) && cli.outputFormat == Some("")
    ensures Merge(cli, env, file)
      == Merge(cli.(endpoint := None, token := None, timeout := None, outputFormat := None), env, file)
  {
  }

  /** A truthy command-line value wins over the environment and the file, field by field. */
  lemma CliShadows(cli: PartialConfig, env: PartialConfig, file: PartialConfig)
    ensures Truthy(cli.endpoint) ==> Merge(cli, env, file).endpoint == cli.endpoint.value
    ensures Truthy(cli.token) ==> Merge(cli, env, file).token == cli.token.value
    ensures TruthyNum(cli.timeout) ==> Merge(cli, env, file).timeout == cli.timeout.value
    ensures cli.plain.Some? ==> Merge(cli, env, file).plain == cli.plain.value
  {
  }

  /** Without a command-line value, a truthy environment value wins over the file. */
  lemma EnvShadowsFile(cli: PartialConfig, env: PartialConfig, file: PartialConfig)
    ensures !Truthy(cli.endpoint) && Truthy(env.endpoint) ==> Merge(cli, env, file).endpoint == env.endpoint.value
    ensures !Truthy(cli.token) && Truthy(env.token) ==> Merge(cli, env, file).token == env.token.value
    ensures !TruthyNum(cli.timeout) && TruthyNum(env.timeout) ==> Merge(cli, env, file).timeout == env.timeout.value
  {
  }

  /** The file wins over the defaults wherever it gives a truthy value. */
  lemma FileShadowsDefaults(file: PartialConfig)
    ensures Truthy(file.endpoint) ==> Merge(Empty, Empty, file).endpoint == file.endpoint.value
    ensures Truthy(file.token) ==> Merge(Empty, Empty, file).token == file.token.value
    ensures TruthyNum(file.timeout) ==> Merge(Empty, Empty, file).timeout == file.timeout.value
    ensures file.plain.Some? ==> Merge(Empty, Empty, file).plain == file.plain.value
  {
  }

  /** `plain` never reads the environment, and an explicit command-line `false` beats a file `true`. */
  lemma PlainSources(cli: PartialConfig, env1: PartialConfig, env2: PartialConfig, file: PartialConfig)
    ensures Merge(cli, env1, file).plain == Merge(cli, env2, file).plain
    ensures cli.plain == Some(false) ==> !Merge(cli, env1, file).plain
  {
  }

  /** The `plain` rewrite touches only the table format; every other format is kept. */
  lemma PlainRewrite(cli: PartialConfig, env: PartialConfig, file: PartialConfig)
    ensures var m := MergeSources(cli, env, file);
      Merge(cli, env, file).outputFormat == (if m.plain && m.outputFormat == "table" then "json" else m.outputFormat)
    ensures var m := MergeSources(cli, env, file);
      Merge(cli, env, file).(outputFormat := m.outputFormat) == m
  {
  }

  // ---------------------------------------------------------------------------
  // The validator.
  // ---------------------------------------------------------------------------

  datatype Validation = Validation(valid: bool, errors: seq<string>)

  const EndpointError: string := "Endpoint is required"
  const TokenErrors: seq<string> := [
    "API token is required. 请通过以下方式配置：",
    "  1. 命令行: snmcli.exe -t YOUR_TOKEN <command>",
    "  2. 环境变量: set SIYUAN_TOKEN=YOUR_TOKEN",
    "  3. 配置文件: 创建 .snmclirc.json 文件",
    "  4. 运行: snmcli.exe config init 初始化配置"]
  const TimeoutError: string := "Timeout must be at least 1000ms"
  const ValidFormats: seq<string> := ["table", "json", "markdown"]
  const FormatError: string := "Output format must be one of: table, json, markdown"

  /** The error lines of each check, empty when the check passes. */
  function EndpointCheck(c: PartialConfig): (r: seq<string>) {
    if !Truthy(c.endpoint) then [EndpointError] else []
  }

  function TokenCheck(c: PartialConfig): (r: seq<string>) {
    if !Truthy(c.token) then TokenErrors else []
  }

  function TimeoutCheck(c: PartialConfig): (r: seq<string>) {
    if TruthyNum(c.timeout) && c.timeout.value < 1000 then [TimeoutError] else []
  }

  function FormatCheck(c: PartialConfig): (r: seq<string>) {
    if Truthy(c.outputFormat) && c.outputFormat.value !in ValidFormats then [FormatError] else []
  }

  /** `validateConfig`: the checks in order; valid when no error was collected. */
  function ValidateConfig(c: PartialConfig): (r: Validation)
    ensures r.valid <==> |r.errors| == 0
    ensures r.valid <==> Acceptable(c)
  {
    assert |TokenErrors| == 5;
    var errors := EndpointCheck(c) + TokenCheck(c) + TimeoutCheck(c) + FormatCheck(c);
    Validation(|errors| == 0, errors)
  }

  /** The conditions under which a configuration is valid. */
  predicate Acceptable(c: PartialConfig) {
    && Truthy(c.endpoint) && Truthy(c.token)
    && (!TruthyNum(c.timeout) || c.timeout.value >= 1000)
    && (!Truthy(c.outputFormat) || c.outputFormat.value in ValidFormats)
  }

  /** Valid exactly when the endpoint and token are set, a set timeout is at least a second and a set format is known. */
  lemma ValidIff(c: PartialConfig)
    ensures ValidateConfig(c).valid <==> Acceptable(c)
  {
    assert |TokenErrors| == 5;
  }

  /** Each failed check adds its lines: one for the endpoint, five for the token, one each for timeout and format. */
  lemma ErrorCount(c: PartialConfig)
    ensures |ValidateConfig(c).errors|
      == (if Truthy(c.endpoint) then 0 else 1) + (if Truthy(c.token) then 0 else 5)
       + (if TruthyNum(c.timeout) && c.timeout.value < 1000 then 1 else 0)
       + (if Truthy(c.outputFormat) && c.outputFormat.value !in ValidFormats then 1 else 0)
  {
    assert |TokenErrors| == 5;
  }

  /**
   * Which message each check adds: the endpoint line exactly when the endpoint is empty, the token
   * lines exactly when the token is, the timeout line exactly for a set timeout below a second, and
   * the format line exactly for a set format outside the three known ones.
   */
  lemma ErrorMessages(c: PartialConfig)
    ensures EndpointError in ValidateConfig(c).errors <==> !Truthy(c.endpoint)
    ensures TokenErrors[0] in ValidateConfig(c).errors <==> !Truthy(c.token)
    ensures TimeoutError in ValidateConfig(c).errors <==> TruthyNum(c.timeout) && c.timeout.value < 1000
    ensures FormatError in ValidateConfig(c).errors <==> Truthy(c.outputFormat) && c.outputFormat.value !in ValidFormats
  {
    assert EndpointError != TimeoutError && EndpointError != FormatError && TimeoutError != FormatError;
    assert EndpointError !in TokenErrors && TimeoutError !in TokenErrors && FormatError !in TokenErrors;
    assert TokenErrors[0] != EndpointError && TokenErrors[0] != TimeoutError && TokenErrors[0] != FormatError;
  }

  /** A timeout of zero or none is not flagged; a negative one is. */
  lemma TimeoutFlags(c: PartialConfig)
    ensures c.timeout == Some(0) || c.timeout.None? ==> TimeoutError !in ValidateConfig(c).errors
    ensures c.timeout.Some? && c.timeout.value < 0 ==> TimeoutError in ValidateConfig(c).errors
  {
    assert TimeoutError != EndpointError && TimeoutError != FormatError;
    assert TimeoutError !in TokenErrors;
  }

  /** The merged configuration as a partial record. */
  function ToPartial(c: Config): (r: PartialConfig) {
    PartialConfig(Some(c.endpoint), Some(c.token), Some(c.timeout), Some(c.outputFormat), Some(c.plain))
  }

  /** With no source at all the only complaint is the missing token. */
  lemma DefaultsNeedToken()
    ensures ValidateConfig(ToPartial(Merge(Empty, Empty, Empty))).errors == TokenErrors
  {
    MergeDefaults();
    assert "table" in ValidFormats;
  }

  /** A merged endpoint is never empty: the default fills it when no source gives one. */
  lemma MergedEndpointSet(cli: PartialConfig, env: PartialConfig, file: PartialConfig)
    ensures Truthy(Some(Merge(cli, env, file).endpoint))
  {
  }
}
