/** The API gateway's configuration (services/api-gateway/src/config/env.ts):
    `getEnvVar` resolves a variable against an optional default and throws when
    neither gives a value; `config` is built from it; a production guard then
    refuses the development secret. */
module GatewayEnv {
  import opened Wrappers
  import opened Environment

  const DefaultPortText := "3000"
  const DefaultNodeEnv := "development"
  const DevSecret := "default-secret-for-dev-only"
  const DefaultAuthServiceUrl := "http://localhost:3001"
  const DefaultFrontendUrl := "http://localhost:5173"
  const ServiceName := "api-gateway"
  const Production := "production"
  const DefaultSecretInProduction := "JWT_SECRET must be set in production environment"

  /** A JavaScript number produced by `parseInt`: an integer, or NaN. */
  datatype ParsedInt = Int(value: int) | NaN

  /** The exported `config` object (its VERSION, read from package.json, is not modelled). */
  datatype Config = Config(
    port: ParsedInt,
    nodeEnv: string,
    jwtSecret: string,
    authServiceUrl: string,
    frontendUrl: string,
    serviceName: string)

  /** The message of the Error thrown by `getEnvVar`. */
  function RequiredButNotSet(key: string): string {
    "Environment variable " + key + " is required but not set."
  }

  /** `getEnvVar(key, defaultValue)`: `process.env[key] || defaultValue`, throwing when
      that is absent or empty. */
  function GetEnvVar(env: Env, key: string, default: Option<string>): (r: Result<string, string>)
    ensures r.Success? <==> IsSet(env, key) || (default.Some? && default.value != "")
    ensures r.Success? ==> r.value != ""
    ensures r.Success? ==> r.value == (if IsSet(env, key) then env[key] else default.value)
    ensures r.Failure? ==> r.error == RequiredButNotSet(key)
  {
    if IsSet(env, key) then Success(env[key])
    else if default.Some? && default.value != "" then Success(default.value)
    else Failure(RequiredButNotSet(key))
  }

  // ---------------------------------------------------------------------------
  // parseInt(text, 10)

  /** The characters ECMAScript's `parseInt` skips before the number: white space
      and line terminators. */
  const JsWhitespace: set<char> := {
    '\t', '\n', '\U{000B}', '\U{000C}', '\r', ' ', '\U{00A0}', '\U{1680}',
    '\U{2000}', '\U{2001}', '\U{2002}', '\U{2003}', '\U{2004}', '\U{2005}',
    '\U{2006}', '\U{2007}', '\U{2008}', '\U{2009}', '\U{200A}', '\U{2028}',
    '\U{2029}', '\U{202F}', '\U{205F}', '\U{3000}', '\U{FEFF}'}

  predicate IsDigit(c: char) {
    '0' <= c <= '9'
  }

  predicate AllDigits(s: string) {
    forall i :: 0 <= i < |s| ==> IsDigit(s[i])
  }

  predicate IsWhitespace(c: char) {
    c in JsWhitespace
  }

  predicate AllWhitespace(s: string) {
    forall i :: 0 <= i < |s| ==> IsWhitespace(s[i])
  }

  function TrimStart(s: string): string {
    if s != [] && IsWhitespace(s[0]) then TrimStart(s[1..]) else s
  }

  /** The longest prefix of `s` made of decimal digits. */
  function LeadingDigits(s: string): (d: string)
    ensures |d| <= |s| && d == s[..|d|] && AllDigits(d)
    ensures |d| == |s| || !IsDigit(s[|d|])
  {
    if s != [] && IsDigit(s[0]) then [s[0]] + LeadingDigits(s[1..]) else []
  }

  /** The value of a string of decimal digits, most significant first. */
  function DigitsValue(d: string): nat
    requires AllDigits(d)
  {
    if d == [] then 0 else DigitsValue(d[..|d| - 1]) * 10 + (d[|d| - 1] - '0') as nat
  }

  /** `parseInt(s, 10)`: skip leading white space, take an optional sign, then the
      longest run of decimal digits; NaN when that run is empty. (`-0` is read as 0.) */
  function ParseInt10(s: string): ParsedInt {
    var t := TrimStart(s);
    var negative := t != [] && t[0] == '-';
    var body := if t != [] && (t[0] == '-' || t[0] == '+') then t[1..] else t;
    var digits := LeadingDigits(body);
    if digits == [] then NaN
    else if negative then Int(0 - DigitsValue(digits))
    else Int(DigitsValue(digits))
  }

  /** The decimal numeral of `n`, without leading zeros: the reference that
      `ParseInt10` is checked against. */
  function Decimal(n: nat): (s: string)
    ensures s != [] && AllDigits(s)
    decreases n
  {
    if n < 10 then ['0' + n as char] else Decimal(n / 10) + ['0' + (n % 10) as char]
  }

  lemma {:induction false} DecimalValue(n: nat)
    ensures DigitsValue(Decimal(n)) == n
    decreases n
  {
    var s := Decimal(n);
    if n >= 10 {
      DecimalValue(n / 10);
      assert s[..|s| - 1] == Decimal(n / 10);
    }
  }

  lemma {:induction false} LeadingDigitsOfNumeral(d: string, rest: string)
    requires AllDigits(d)
    requires rest == [] || !IsDigit(rest[0])
    ensures LeadingDigits(d + rest) == d
    decreases |d|
  {
    if d != [] {
      LeadingDigitsOfNumeral(d[1..], rest);
      assert (d + rest)[1..] == d[1..] + rest;
    }
  }

  /** `parseInt(s, 10)` reads a numeral preceded by white space and an optional sign
      and followed by anything that does not start with a digit ("3000", " +8080",
      "-7abc") as that number. */
  lemma ParseNumeral(ws: string, sign: string, n: nat, rest: string)
    requires AllWhitespace(ws)
    requires sign == "" || sign == "+" || sign == "-"
    requires rest == [] || !IsDigit(rest[0])
    ensures ParseInt10(ws + sign + Decimal(n) + rest) == Int(if sign == "-" then 0 - n else n)
  {
    var d := Decimal(n);
    var body := d + rest;
    var tail := sign + body;
    assert ws + sign + d + rest == ws + tail;
    assert IsDigit(body[0]);
    assert !IsWhitespace(tail[0]) by {
      if sign == "" { assert tail[0] == body[0]; }
    }
    TrimWhitespacePrefix(ws, tail);
    assert (if tail != [] && (tail[0] == '-' || tail[0] == '+') then tail[1..] else tail) == body by {
      if sign != "" { assert tail[1..] == body; }
    }
    LeadingDigitsOfNumeral(d, rest);
    DecimalValue(n);
  }

  lemma {:induction false} TrimWhitespacePrefix(ws: string, t: string)
    requires AllWhitespace(ws)
    requires t == [] || !IsWhitespace(t[0])
    ensures TrimStart(ws + t) == t
    decreases |ws|
  {
    if ws != [] {
      TrimWhitespacePrefix(ws[1..], t);
      assert (ws + t)[1..] == ws[1..] + t;
    }
  }

  // ---------------------------------------------------------------------------
  // config

  /** Evaluating the module: the fields of `config` in order (the first `getEnvVar`
      that throws ends it), then the production guard. */
  function Load(env: Env): (r: Result<Config, string>)
    ensures r.Success? ==> r.value.serviceName == ServiceName && r.value.jwtSecret != ""
    ensures r.Success? && r.value.nodeEnv == Production ==> r.value.jwtSecret != DevSecret
  {
    var port := ParseInt10(OrElse(env, "PORT", DefaultPortText));
    var nodeEnv := OrElse(env, "NODE_ENV", DefaultNodeEnv);
    var secretDefault :=
      if "NODE_ENV" in env && env["NODE_ENV"] == Production then None else Some(DevSecret);
    match GetEnvVar(env, "JWT_SECRET", secretDefault)
    case Failure(e) => Failure(e)
    case Success(secret) =>
      var authUrl := GetEnvVar(env, "AUTH_SERVICE_URL", Some(DefaultAuthServiceUrl));
      var frontendUrl := GetEnvVar(env, "FRONTEND_URL", Some(DefaultFrontendUrl));
      var config := Config(port, nodeEnv, secret, authUrl.value, frontendUrl.value, ServiceName);
      if config.nodeEnv == Production && config.jwtSecret == DevSecret then
        Failure(DefaultSecretInProduction)
      else
        Success(config)
  }

  /** PORT is the base-10 reading of the variable, and 3000 when it is unset or empty;
      NODE_ENV defaults to "development"; the two URLs take their defaults and never fail. */
  lemma Settings(env: Env)
    requires Load(env).Success?
    ensures var c := Load(env).value;
      && c.port == ParseInt10(if IsSet(env, "PORT") then env["PORT"] else DefaultPortText)
      && (!IsSet(env, "PORT") ==> c.port == Int(3000))
      && c.nodeEnv == (if IsSet(env, "NODE_ENV") then env["NODE_ENV"] else DefaultNodeEnv)
      && c.authServiceUrl == (if IsSet(env, "AUTH_SERVICE_URL") then env["AUTH_SERVICE_URL"] else DefaultAuthServiceUrl)
      && c.frontendUrl == (if IsSet(env, "FRONTEND_URL") then env["FRONTEND_URL"] else DefaultFrontendUrl)
  {
    if !IsSet(env, "PORT") {
      DefaultPort();
    }
  }

  lemma DefaultPort()
    ensures ParseInt10(DefaultPortText) == Int(3000)
  {
    assert Decimal(3) == "3";
    assert Decimal(30) == "30";
    assert Decimal(300) == "300";
    assert Decimal(3000) == DefaultPortText;
    assert DefaultPortText == [] + [] + Decimal(3000) + [];
    ParseNumeral([], [], 3000, []);
  }

  /** Outside production nothing throws, and an unset secret falls back to the
      development default. */
  lemma NonProductionNeverFails(env: Env)
    requires !(IsSet(env, "NODE_ENV") && env["NODE_ENV"] == Production)
    ensures Load(env).Success?
    ensures !IsSet(env, "JWT_SECRET") ==> Load(env).value.jwtSecret == DevSecret
  {
  }

  /** In production a missing secret makes `getEnvVar` throw, and the development
      secret given explicitly is refused by the guard; any other secret is accepted. */
  lemma ProductionSecret(env: Env)
    requires IsSet(env, "NODE_ENV") && env["NODE_ENV"] == Production
    ensures !IsSet(env, "JWT_SECRET") ==> Load(env) == Failure(RequiredButNotSet("JWT_SECRET"))
    ensures IsSet(env, "JWT_SECRET") && env["JWT_SECRET"] == DevSecret ==>
      Load(env) == Failure(DefaultSecretInProduction)
    ensures IsSet(env, "JWT_SECRET") && env["JWT_SECRET"] != DevSecret ==>
      Load(env).Success? && Load(env).value.jwtSecret == env["JWT_SECRET"]
  {
  }
}
