/** Settings that the program takes from its arguments or, failing that,
    from the process environment (after `load_dotenv`). The environment is
    given as a map from variable names to values. */
module Environment {
  import opened Wrappers

  /** Python's truth value of an optional string. */
  predicate Truthy(v: Option<string>) {
    v.Some? && v.value != ""
  }

  /** `value or os.getenv(name)`: a given non-empty value wins, otherwise
      the environment's value, and the setting is usable exactly when one of
      the two is non-empty. */
  function OrEnv(value: Option<string>, env: map<string, string>, name: string): (r: Option<string>)
    ensures Truthy(value) ==> r == value
    ensures !Truthy(value) && name in env ==> r == Some(env[name])
    ensures Truthy(r) <==> Truthy(value) || (name in env && env[name] != "")
  {
    if Truthy(value) then value
    else if name in env then Some(env[name]) else None
  }
}
