/** Failure-carrying values shared by every module: a JavaScript value that may be
    `null`/`undefined`, and a computation that may throw. */
module Wrappers {

  /** `T | null` (or an absent property). */
  datatype Option<+T> = None | Some(value: T)

  /** A result, or the message of the `Error` that was thrown instead. */
  datatype Result<+T, +E> = Success(value: T) | Failure(error: E)

  /** JavaScript truthiness of a `string | null | undefined`: present and not empty. */
  predicate Truthy(v: Option<string>) {
    v.Some? && v.value != ""
  }
}

/** `process.env` as both services read it. */
module Environment {
  import opened Wrappers

  /** The environment: a variable is either absent or holds a string. */
  type Env = map<string, string>

  /** JavaScript truthiness of `process.env[key]`: present and not the empty string. */
  predicate IsSet(env: Env, key: string) {
    Truthy(if key in env then Some(env[key]) else None)
  }

  /** `process.env[key] || fallback`. */
  function OrElse(env: Env, key: string, fallback: string): string {
    if IsSet(env, key) then env[key] else fallback
  }
}
