/** The auth service's configuration (services/auth-service/src/config/env.ts):
    every setting is `process.env.X || default`, followed by one production guard
    that throws when JWT_SECRET was not given. */
module AuthServiceEnv {
  import opened Wrappers
  import opened Environment

  const DefaultPort := "3001"
  const DevSecret := "default-secret-for-dev-only"
  const DefaultExpiresIn := "1h"
  const DefaultDbPath := "data/auth.db"
  const DefaultNodeEnv := "development"
  const Production := "production"
  const MissingSecretError := "JWT_SECRET must be explicitly set in production environment"

  /** The exported `config` object. */
  datatype Config = Config(
    port: string,
    jwtSecret: string,
    jwtExpiresIn: string,
    dbPath: string,
    nodeEnv: string)

  /** Every setting of a loaded configuration holds a usable (non-empty) value. */
  predicate Complete(c: Config) {
    c.port != "" && c.jwtSecret != "" && c.jwtExpiresIn != "" && c.dbPath != "" && c.nodeEnv != ""
  }

  /** Evaluating the module: build `config`, then apply the production guard, which
      tests the raw variable `process.env.JWT_SECRET`, not the resolved secret. */
  function Load(env: Env): (r: Result<Config, string>)
    ensures r.Success? ==> Complete(r.value)
    ensures r.Failure? ==> r.error == MissingSecretError
    ensures r.Failure? ==> OrElse(env, "NODE_ENV", DefaultNodeEnv) == Production && !IsSet(env, "JWT_SECRET")
  {
    var config := Config(
      OrElse(env, "PORT", DefaultPort),
      OrElse(env, "JWT_SECRET", DevSecret),
      OrElse(env, "JWT_EXPIRES_IN", DefaultExpiresIn),
      OrElse(env, "DB_PATH", DefaultDbPath),
      OrElse(env, "NODE_ENV", DefaultNodeEnv));
    if config.nodeEnv == Production && !IsSet(env, "JWT_SECRET") then
      Failure(MissingSecretError)
    else
      Success(config)
  }

  /** Each setting is the variable's value when it is non-empty and its default otherwise. */
  lemma Resolution(env: Env)
    requires Load(env).Success?
    ensures var c := Load(env).value;
      && (IsSet(env, "PORT") ==> c.port == env["PORT"])
      && (!IsSet(env, "PORT") ==> c.port == DefaultPort)
      && (IsSet(env, "JWT_SECRET") ==> c.jwtSecret == env["JWT_SECRET"])
      && (!IsSet(env, "JWT_SECRET") ==> c.jwtSecret == DevSecret)
      && (IsSet(env, "JWT_EXPIRES_IN") ==> c.jwtExpiresIn == env["JWT_EXPIRES_IN"])
      && (!IsSet(env, "JWT_EXPIRES_IN") ==> c.jwtExpiresIn == DefaultExpiresIn)
      && (IsSet(env, "DB_PATH") ==> c.dbPath == env["DB_PATH"])
      && (!IsSet(env, "DB_PATH") ==> c.dbPath == DefaultDbPath)
      && (IsSet(env, "NODE_ENV") ==> c.nodeEnv == env["NODE_ENV"])
      && (!IsSet(env, "NODE_ENV") ==> c.nodeEnv == DefaultNodeEnv)
  {
  }

  /** A variable set to the empty string is treated exactly like an unset one. */
  lemma EmptyIsUnset(env: Env, key: string)
    ensures Load(env[key := ""]) == Load(env - {key})
  {
  }

  /** Outside production, loading never fails. */
  lemma NonProductionNeverFails(env: Env)
    requires !(IsSet(env, "NODE_ENV") && env["NODE_ENV"] == Production)
    ensures Load(env).Success?
  {
  }

  /** In production, loading fails exactly when JWT_SECRET is unset or empty, and a
      loaded configuration carries the secret that was given. */
  lemma ProductionGuard(env: Env)
    requires IsSet(env, "NODE_ENV") && env["NODE_ENV"] == Production
    ensures Load(env).Failure? <==> !IsSet(env, "JWT_SECRET")
    ensures Load(env).Success? ==> Load(env).value.jwtSecret == env["JWT_SECRET"]
  {
  }

  /** The guard looks at the raw variable, so a secret explicitly set to the
      development default is accepted in production. */
  lemma ExplicitDevSecretAccepted()
    ensures var r := Load(map["NODE_ENV" := Production, "JWT_SECRET" := DevSecret]);
      r.Success? && r.value.jwtSecret == DevSecret && r.value.nodeEnv == Production
  {
  }
}
