/** config.py: boolean flags read from the process environment. The
    environment is a parameter of the model (a map from variable names to
    values). */
module Config {
  import opened Text

  /** The spellings `get_env_bool` accepts as true and as false, after
      lower-casing. */
  const TrueWords: set<string> := {"true", "yes", "1"}
  const FalseWords: set<string> := {"false", "no", "0"}

  /** `os.getenv(key, "")`. */
  function GetEnv(env: map<string, string>, key: string): string
  {
    if key in env then env[key] else ""
  }

  /** `get_env_bool(key, default)`. */
  function GetEnvBool(env: map<string, string>, key: string, default: bool): bool
  {
    var value := Lower(GetEnv(env, key));
    if value in TrueWords then true
    else if value in FalseWords then false
    else default
  }

  /** `ENABLE_ANKI_SYNC`: on unless the variable says otherwise. */
  function EnableAnkiSync(env: map<string, string>): bool
  {
    GetEnvBool(env, "ENABLE_ANKI_SYNC", true)
  }

  /** The flag is true exactly for a true spelling, or for an unrecognised
      value (an unset variable included) when the default is true. */
  lemma GetEnvBoolMeaning(env: map<string, string>, key: string, default: bool)
    ensures GetEnvBool(env, key, default) <==>
              Lower(GetEnv(env, key)) in TrueWords
              || (Lower(GetEnv(env, key)) !in FalseWords && default)
    ensures key !in env ==> GetEnvBool(env, key, default) == default
  {
    if key !in env {
      assert Lower("") == "";
    }
  }

  /** The verdict does not depend on the letter case of the value. */
  lemma GetEnvBoolIgnoresCase(env: map<string, string>, key: string, default: bool)
    requires key in env
    ensures GetEnvBool(env[key := Upper(env[key])], key, default) == GetEnvBool(env, key, default)
    ensures GetEnvBool(env[key := Lower(env[key])], key, default) == GetEnvBool(env, key, default)
  {
    LowerOfUpper(env[key]);
    LowerIdempotent(env[key]);
  }

  lemma LowerIdempotent(s: string)
    ensures Lower(Lower(s)) == Lower(s)
  {
  }

  /** Anki sync is switched off only by an explicit false spelling. */
  lemma EnableAnkiSyncUnlessFalse(env: map<string, string>)
    ensures !EnableAnkiSync(env) <==> Lower(GetEnv(env, "ENABLE_ANKI_SYNC")) in FalseWords
  {
    var value := Lower(GetEnv(env, "ENABLE_ANKI_SYNC"));
    if value in FalseWords {
      assert value !in TrueWords;
    }
  }
}
