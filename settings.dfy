/**
 * The configuration read from the process environment at start-up, and the
 * fatal errors that stop the process before any check runs.
 */
module Settings {
  import opened Wrappers
  import opened Text

  type Host = string

  /** The process environment; an unset variable is absent from the map. */
  type Env = map<string, string>

  datatype Config = Config(hosts: seq<Host>, emails: seq<string>, thresholdDays: int, from: string)

  datatype SendgridConfig = SendgridConfig(username: string, password: string)

  /** The conditions on which the source calls `log.Fatalf`. */
  datatype ConfigError = Unset(key: string) | BadThreshold(text: string)

  const DefaultThresholdDays: string := "30"

  /** `os.Getenv`: an unset variable reads as the empty string. */
  function Getenv(env: Env, key: string): (value: string)
    ensures key !in env ==> value == ""
    ensures key in env ==> value == env[key]
  {
    if key in env then env[key] else ""
  }

  /** A variable that must be set and non-empty. */
  function EnvMandatory(env: Env, key: string): (r: Result<string, ConfigError>)
    ensures r.Success? <==> Getenv(env, key) != ""
    ensures r.Success? ==> r.value == Getenv(env, key)
    ensures r.Failure? ==> r.error == Unset(key)
  {
    var value := Getenv(env, key);
    if |value| == 0 then Failure(Unset(key)) else Success(value)
  }

  /** A variable that falls back to `defaultValue` when it is unset or empty. */
  function EnvOptional(env: Env, key: string, defaultValue: string): (v: string)
    ensures Getenv(env, key) == "" ==> v == defaultValue
    ensures Getenv(env, key) != "" ==> v == Getenv(env, key)
    ensures v == "" <==> Getenv(env, key) == "" && defaultValue == ""
  {
    var value := Getenv(env, key);
    if |value| == 0 then defaultValue else value
  }

  function ParseThreshold(text: string): (r: Result<int, ConfigError>)
    ensures r.Success? <==> ParseInt(text).Some?
    ensures r.Success? ==> r.value == ParseInt(text).value
    ensures r.Failure? ==> r.error == BadThreshold(text)
  {
    match ParseInt(text)
    case None => Failure(BadThreshold(text))
    case Some(n) => Success(n)
  }

  /** The THRESHOLD_DAYS text, "30" when the variable is unset or empty. */
  function ThresholdText(env: Env): (text: string)
    ensures Getenv(env, "THRESHOLD_DAYS") == "" ==> text == DefaultThresholdDays
    ensures Getenv(env, "THRESHOLD_DAYS") != "" ==> text == Getenv(env, "THRESHOLD_DAYS")
  {
    EnvOptional(env, "THRESHOLD_DAYS", DefaultThresholdDays)
  }

  /**
   * `readConfig`: THRESHOLD_DAYS is parsed first, then EMAILS and HOSTS must be
   * set; both lists are split on commas and FROM falls back to the first email.
   */
  function ReadConfig(env: Env): (r: Result<Config, ConfigError>)
    ensures r.Success? <==>
      ParseInt(ThresholdText(env)).Some? && Getenv(env, "EMAILS") != "" && Getenv(env, "HOSTS") != ""
    ensures ParseInt(ThresholdText(env)).None? ==> r == Failure(BadThreshold(ThresholdText(env)))
    ensures ParseInt(ThresholdText(env)).Some? && Getenv(env, "EMAILS") == "" ==> r == Failure(Unset("EMAILS"))
    ensures ParseInt(ThresholdText(env)).Some? && Getenv(env, "EMAILS") != "" && Getenv(env, "HOSTS") == "" ==>
      r == Failure(Unset("HOSTS"))
    ensures r.Success? ==> Some(r.value.thresholdDays) == ParseInt(ThresholdText(env))
    ensures r.Success? ==> |r.value.emails| >= 1 && |r.value.hosts| >= 1
    ensures r.Success? ==>
      r.value.from == if Getenv(env, "FROM") == "" then r.value.emails[0] else Getenv(env, "FROM")
  {
    var threshold :- ParseThreshold(ThresholdText(env));
    var emailsText :- EnvMandatory(env, "EMAILS");
    var emails := Split(emailsText, ',');
    var hostsText :- EnvMandatory(env, "HOSTS");
    Success(Config(Split(hostsText, ','), emails, threshold, EnvOptional(env, "FROM", emails[0])))
  }

  /**
   * The host and email lists are exactly the comma-free pieces of HOSTS and
   * EMAILS: joined with commas they give the variables back.
   */
  lemma ReadConfigLists(env: Env)
    requires ReadConfig(env).Success?
    ensures var c := ReadConfig(env).value;
      && Join(c.hosts, ',') == Getenv(env, "HOSTS")
      && Join(c.emails, ',') == Getenv(env, "EMAILS")
      && (forall i :: 0 <= i < |c.hosts| ==> ',' !in c.hosts[i])
      && (forall i :: 0 <= i < |c.emails| ==> ',' !in c.emails[i])
  {
    JoinSplit(Getenv(env, "HOSTS"), ',');
    JoinSplit(Getenv(env, "EMAILS"), ',');
  }

  /** With THRESHOLD_DAYS unset or empty, the threshold is 30 days. */
  lemma ThresholdDefault(env: Env)
    requires Getenv(env, "THRESHOLD_DAYS") == ""
    requires Getenv(env, "EMAILS") != "" && Getenv(env, "HOSTS") != ""
    ensures ReadConfig(env).Success? && ReadConfig(env).value.thresholdDays == 30
  {
    ParseFormat(30);
    assert FormatInt(30) == DefaultThresholdDays;
  }

  /** `readSendgridConfig`: both credentials are mandatory, the user name first. */
  function ReadSendgridConfig(env: Env): (r: Result<SendgridConfig, ConfigError>)
    ensures r.Success? <==> Getenv(env, "SENDGRID_USERNAME") != "" && Getenv(env, "SENDGRID_PASSWORD") != ""
    ensures r.Success? ==>
      r.value == SendgridConfig(Getenv(env, "SENDGRID_USERNAME"), Getenv(env, "SENDGRID_PASSWORD"))
    ensures r.Failure? ==>
      r.error == Unset(if Getenv(env, "SENDGRID_USERNAME") == "" then "SENDGRID_USERNAME" else "SENDGRID_PASSWORD")
  {
    var username :- EnvMandatory(env, "SENDGRID_USERNAME");
    var password :- EnvMandatory(env, "SENDGRID_PASSWORD");
    Success(SendgridConfig(username, password))
  }

  /**
   * The start of `main`: the general configuration, then the credentials.
   * Any error here ends the process before the first check.
   */
  function Startup(env: Env): (r: Result<(Config, SendgridConfig), ConfigError>)
    ensures r.Success? <==> ReadConfig(env).Success? && ReadSendgridConfig(env).Success?
    ensures r.Success? ==> r.value == (ReadConfig(env).value, ReadSendgridConfig(env).value)
    ensures ReadConfig(env).Failure? ==> r == Failure(ReadConfig(env).error)
    ensures ReadConfig(env).Success? && ReadSendgridConfig(env).Failure? ==> r == Failure(ReadSendgridConfig(env).error)
    ensures Getenv(env, "EMAILS") == "" ==> r.Failure?
  {
    var config :- ReadConfig(env);
    var sgConfig :- ReadSendgridConfig(env);
    Success((config, sgConfig))
  }
}
