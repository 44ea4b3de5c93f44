/** The two field validators of the application settings: the log level
    and the application environment are accepted in any case and stored
    in one canonical case. */
module Config {
  import opened Text

  /** What a field validator does: it returns the stored value, or raises
      a `ValueError` that rejects the settings. */
  datatype Validated = Accepted(value: string) | Rejected

  const LogLevels: seq<string> := ["DEBUG", "INFO", "WARNING", "ERROR", "CRITICAL"]

  const AppEnvs: seq<string> := ["development", "staging", "production"]

  /** `validate_log_level`: the upper-cased value when it names a level. */
  function ValidateLogLevel(v: string): (r: Validated)
    ensures r.Accepted? ==> r.value in LogLevels && Upper(v) == r.value
    ensures r.Rejected? ==> forall level :: level in LogLevels ==> Upper(v) != level
  {
    if Upper(v) in LogLevels then Accepted(Upper(v)) else Rejected
  }

  /** `validate_app_env`: the lower-cased value when it names an
      environment. */
  function ValidateAppEnv(v: string): (r: Validated)
    ensures r.Accepted? ==> r.value in AppEnvs && Lower(v) == r.value
    ensures r.Rejected? ==> forall env :: env in AppEnvs ==> Lower(v) != env
  {
    if Lower(v) in AppEnvs then Accepted(Lower(v)) else Rejected
  }

  /** Any spelling of a level that differs from it only in case is
      accepted as that level. */
  lemma LogLevelAnyCase(v: string, level: string)
    requires level in LogLevels && |v| == |level|
    requires forall k :: 0 <= k < |v| ==> UpperChar(v[k]) == level[k]
    ensures ValidateLogLevel(v) == Accepted(level)
  {
    assert Upper(v) == level;
  }

  /** Likewise for an environment. */
  lemma AppEnvAnyCase(v: string, env: string)
    requires env in AppEnvs && |v| == |env|
    requires forall k :: 0 <= k < |v| ==> LowerChar(v[k]) == env[k]
    ensures ValidateAppEnv(v) == Accepted(env)
  {
    assert Lower(v) == env;
  }

  /** Validating the stored level again leaves it as it is. */
  lemma LogLevelIdempotent(v: string)
    requires ValidateLogLevel(v).Accepted?
    ensures ValidateLogLevel(ValidateLogLevel(v).value) == ValidateLogLevel(v)
  {
    UpperIdempotent(v);
  }

  /** Validating the stored environment again leaves it as it is. */
  lemma AppEnvIdempotent(v: string)
    requires ValidateAppEnv(v).Accepted?
    ensures ValidateAppEnv(ValidateAppEnv(v).value) == ValidateAppEnv(v)
  {
    LowerIdempotent(v);
  }

  /** The default settings pass both validators unchanged. */
  lemma DefaultsValid()
    ensures ValidateLogLevel("INFO") == Accepted("INFO")
    ensures ValidateAppEnv("development") == Accepted("development")
  {
    assert Upper("INFO") == "INFO";
    assert Lower("development") == "development";
  }

  /** "warning" is stored as "WARNING"; "Prod" is not an environment. */
  lemma Examples()
    ensures ValidateLogLevel("warning") == Accepted("WARNING")
    ensures ValidateAppEnv("Prod").Rejected?
  {
    assert Upper("warning") == "WARNING";
    assert |Lower("Prod")| == 4;
  }
}
