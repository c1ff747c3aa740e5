# Credential issuance in MindMapApp, modelled in Dafny

This project models the authentication core of MindMapApp, with proofs about the model:

- **Auth service.** `POST /auth/register` validates the body, enforces unique emails and inserts a row into the `users` table. `POST /auth/login` validates the body, looks the email up, checks the bcrypt hash and signs a JWT. Both services read their configuration from `config/env.ts`.
- **API gateway.** The `authenticationToken` middleware takes the bearer token from the `Authorization` header, verifies it, and either forwards the request with `req.user` set or answers 401/500.
- **Frontend.** The zustand auth store mirrors its token into `localStorage`. The axios interceptors attach `Bearer <token>` to requests and log out on a 401.

Files (`wrappers.dfy` holds two small modules, every other file one):

- `wrappers.dfy`: `Option`, `Result` and JavaScript truthiness of an optional string (`Truthy`), and `process.env` as a `map<string, string>`, where `IsSet` means present and non-empty and `OrElse` is `process.env[key] || fallback`.
- `auth_service_env.dfy`, `gateway_env.dfy`: the two configuration modules as pure functions from the environment to `Result<Config, string>`. The gateway's `parseInt(PORT, 10)` is modelled character by character.
- `password.dfy`, `jwt.dfy`: stand-ins for bcrypt and jsonwebtoken. bcrypt keys on the first 72 bytes of the password's UTF-8 encoding, and `password.dfy` encodes strings to UTF-8 to model that.
- `auth_routes.dfy`: the `users` table as a class (rows plus the AUTOINCREMENT counter) with `Register` as a method, and `Login` as a function of the rows.
- `gateway_auth.dfy`: token extraction, error classification and the middleware itself, which acts on a request/response `Exchange` object.
- `auth_store.dfy`, `api_client.dfy`: the store and `localStorage` as classes, and the two interceptors as methods.
- `bearer_handshake.dfy`: the header the client builds is the header the gateway parses.

What the inputs stand for:

- The clock (`now`, in seconds), bcrypt's random salt (`salt`) and the token lifetime (`ttl`, in seconds) are parameters.
- So is a thrown database or bcrypt error (`fault`).
- The gateway's call to `jwt.verify(token, JWT_SECRET)` is a parameter of type `string -> Verification`.

Three points where the code's behaviour is worth spelling out; the model follows the code in each:

- The two services treat the placeholder secret differently. The auth service's guard (`services/auth-service/src/config/env.ts:25`) only checks that `JWT_SECRET` is set. So `JWT_SECRET=default-secret-for-dev-only` is accepted in production (`AuthServiceEnv.ExplicitDevSecretAccepted`). The gateway's guard (`services/api-gateway/src/config/env.ts:42-44`) refuses it (`GatewayEnv.ProductionSecret`).
- Email uniqueness is enforced twice: the handler looks the email up before inserting (`routes/auth.ts:19-29`), and the table declares `email` UNIQUE (`db/init.ts:29`). The model runs requests one after another, so the lookup decides, and the UNIQUE constraint becomes the table invariant `UniqueEmails`.
- `jwt.verify` returns the whole payload, including `iat` and `exp`. So `req.user` holds all four claims, not only the `{userId, email}` its declared type names.

## Model

| member | source | states |
|---|---|---|
| AuthServiceEnv.Load | mindmap_local/services/auth-service/src/config/env.ts:16-27 | a loaded config has every setting non-empty; failure only in production with JWT_SECRET unset or empty, with the guard's message |
| AuthServiceEnv.Resolution | mindmap_local/services/auth-service/src/config/env.ts:17-21 | each setting is the variable when non-empty, else its default: PORT 3001, JWT_SECRET the dev secret, JWT_EXPIRES_IN 1h, DB_PATH data/auth.db, NODE_ENV development |
| AuthServiceEnv.EmptyIsUnset | mindmap_local/services/auth-service/src/config/env.ts:17-21 | setting any variable to "" gives the same outcome as removing it |
| AuthServiceEnv.NonProductionNeverFails | mindmap_local/services/auth-service/src/config/env.ts:25-27 | when NODE_ENV is not production, loading succeeds |
| AuthServiceEnv.ProductionGuard | mindmap_local/services/auth-service/src/config/env.ts:25-27 | in production loading fails iff JWT_SECRET is unset or empty; on success the secret is the one given |
| AuthServiceEnv.ExplicitDevSecretAccepted | mindmap_local/services/auth-service/src/config/env.ts:25 | the guard tests the raw variable, so the dev default given explicitly is accepted in production |
| GatewayEnv.GetEnvVar | mindmap_local/services/api-gateway/src/config/env.ts:17-23 | succeeds iff the variable or the default is non-empty; the value is the variable when set, else the default, and never empty; otherwise the "is required but not set" error for that key |
| GatewayEnv.ParseNumeral | mindmap_local/services/api-gateway/src/config/env.ts:26 | parseInt(s, 10) reads leading white space, an optional sign, a decimal numeral and any non-digit tail as that signed number |
| GatewayEnv.DefaultPort | mindmap_local/services/api-gateway/src/config/env.ts:26 | the default "3000" parses to 3000 |
| GatewayEnv.Load | mindmap_local/services/api-gateway/src/config/env.ts:25-44 | a loaded config names the service api-gateway and has a non-empty secret; in production that secret is never the dev default |
| GatewayEnv.Settings | mindmap_local/services/api-gateway/src/config/env.ts:26-36 | PORT is the base-10 parse of the variable, 3000 when unset or empty; NODE_ENV, AUTH_SERVICE_URL and FRONTEND_URL are the variable or development, http://localhost:3001, http://localhost:5173 |
| GatewayEnv.NonProductionNeverFails | mindmap_local/services/api-gateway/src/config/env.ts:29-44 | outside production nothing throws, and an unset secret becomes the dev default |
| GatewayEnv.ProductionSecret | mindmap_local/services/api-gateway/src/config/env.ts:29-44 | in production a missing secret throws the getEnvVar error, the dev default throws the guard error, and any other secret is accepted as given |
| Password.Hash | mindmap_local/services/auth-service/src/routes/auth.ts:24 | the hash records the salt drawn, and the password it was computed from matches it |
| Password.CompareOwnHash | mindmap_local/services/auth-service/src/routes/auth.ts:63 | a password matches its own hash under any salt |
| Password.CompareOnlyPreimage | mindmap_local/services/auth-service/src/routes/auth.ts:63-66 | when both passwords are at most 72 UTF-8 bytes, a hash accepts a password if and only if it is the hashed one |
| Password.LongPasswordsShareHash | mindmap_local/services/auth-service/src/routes/auth.ts:63-66 | a password of at least 72 UTF-8 bytes has its hash accepted for every extension of it, a different password |
| Password.Utf8Injective | mindmap_local/services/auth-service/src/routes/auth.ts:63 | different passwords have different UTF-8 encodings, so below the 72-byte cut no two passwords share a key |
| Password.SaltsSeparateHashes | mindmap_local/services/auth-service/src/routes/auth.ts:24 | one password hashed with two salts gives two different hashes |
| Jwt.Sign | mindmap_local/services/auth-service/src/routes/auth.ts:68-76 | the token carries the given userId and email, iat is the signing time and exp - iat is the configured lifetime |
| Jwt.SignVerify | mindmap_local/services/auth-service/src/__tests__/auth.test.ts:204-223 | a signed token verifies with its claims before iat + ttl, is expired from then on, and is invalid (not expired) under another secret |
| AuthRoutes.FindByEmail | mindmap_local/services/auth-service/src/routes/auth.ts:57 | a found row is in the table with exactly that email; nothing is found iff no row has it |
| AuthRoutes.FindUnique | mindmap_local/services/auth-service/src/db/init.ts:29 | with unique emails, looking up a row's email returns that row |
| AuthRoutes.Login | mindmap_local/services/auth-service/src/routes/auth.ts:48-93 | status is 200, 400, 401 or 500; 400 Missing required fields iff email or password is absent or empty; 401 always Invalid credentials; 500 iff a dependency throws after validation; a 200 session belongs to a row with that email whose hash accepts the password, and exposes only its public fields |
| AuthRoutes.LoginSucceeds | mindmap_local/services/auth-service/src/routes/auth.ts:56-86 | a stored email with its password gets 200 with the row's id, email, displayName and avatarUrl and a token for that id and email with exp - iat = ttl |
| AuthRoutes.LoginRejects | mindmap_local/services/auth-service/src/routes/auth.ts:59-66 | an unknown email or a wrong password gets 401 Invalid credentials |
| AuthRoutes.LoginHidesAccountExistence | mindmap_local/services/auth-service/src/routes/auth.ts:59-66 | an unknown email and a wrong password for a known email get the identical response |
| AuthRoutes.AppendKeepsUnique | mindmap_local/services/auth-service/src/routes/auth.ts:19-29 | inserting an email not yet in the table keeps emails unique |
| AuthRoutes.LoginAfterRegister | mindmap_local/services/auth-service/src/__tests__/auth.test.ts:119-144 | after the row for register(e, p, d) is inserted, login(e, p) gets 200 with that id, email e, displayName d, no avatar, and a token for that id and e |
| AuthRoutes.UsersTable.constructor | mindmap_local/services/auth-service/src/db/init.ts:27-34 | a new table is empty, its first id is 1, and it satisfies the table invariant |
| AuthRoutes.UsersTable.Register | mindmap_local/services/auth-service/src/routes/auth.ts:10-46 | the three failure cases (400 Missing required fields, 500, 409 Email already exists) leave the table unchanged. Success appends exactly one row: the next id (greater than all earlier ids), the email, the hash of the password, the displayName and no avatar. It answers 201 with {id, email, displayName}. The invariant (unique emails, increasing ids) holds before and after every call |
| AuthRoutes.RegisterLoginScenario | mindmap_local/services/auth-service/src/__tests__/auth.test.ts:41-168 | on a fresh table: register gets 201 with id 1; registering the same email again gets 409; login with the right password gets 200 with claims {1, email, now, now + ttl}; a wrong password gets 401 |
| GatewayAuth.ExtractToken | mindmap_local/services/api-gateway/src/middleware/auth.ts:23-27 | a token exists iff the header is present and starts with the case-sensitive "Bearer ", and the header is then "Bearer " followed by the token |
| GatewayAuth.ClassifyError | mindmap_local/services/api-gateway/src/middleware/auth.ts:39-50 | an expired token gets 401 Token expired even though it is also a JsonWebTokenError; any other JWT error gets 401 Invalid token; anything that is not a JsonWebTokenError gets exactly 500 Internal server error |
| GatewayAuth.Authenticate | mindmap_local/services/api-gateway/src/middleware/auth.ts:18-51 | forward iff the header is "Bearer " plus a non-empty token that verifies, and then with exactly the verified claims |
| GatewayAuth.Responses | mindmap_local/services/api-gateway/src/middleware/auth.ts:29-50 | every rejection is one of 401 Access token required, 401 Token expired, 401 Invalid token, 500 Internal server error |
| GatewayAuth.MissingTokenNotVerified | mindmap_local/services/api-gateway/src/middleware/auth.ts:29-32 | without a non-empty bearer token the answer is 401 Access token required, whatever the verifier would say |
| GatewayAuth.PresentedToken | mindmap_local/services/api-gateway/src/middleware/auth.ts:34-50 | for a presented token: forward with the decoded claims, 401 Token expired, 401 Invalid token, or 500, following what the verifier returns or throws |
| GatewayAuth.Exchange.constructor | mindmap_local/services/api-gateway/src/middleware/auth.ts:10-16 | a request starts with req.user unset, next() not called and no response |
| GatewayAuth.AuthenticationToken | mindmap_local/services/api-gateway/src/middleware/auth.ts:18-51 | either req.user is set to the claims and next() called once with no response, or the decided error response is written with req.user and next() untouched |
| GatewayAuth.FailsClosed | mindmap_local/services/api-gateway/src/middleware/auth.ts:29-50 | exactly one of forward (next() once, user set, no response) or respond (no next(), user unset); a set user came from a verified "Bearer " token |
| AuthStore.LocalStorage.GetItem | mindmap_local/frontend/src/store/authStore.ts:18 | the stored string for the key, or null when absent |
| AuthStore.Store.constructor | mindmap_local/frontend/src/store/authStore.ts:16-20 | user null, isLoading false, error null, token the stored authToken or null; storage and state agree unless authToken holds "" |
| AuthStore.Store.SetUser | mindmap_local/frontend/src/store/authStore.ts:21 | changes only user and never touches storage |
| AuthStore.Store.SetToken | mindmap_local/frontend/src/store/authStore.ts:22-29 | a non-empty token is stored under authToken; null or "" removes the key. The state takes the argument. No other key changes. Afterwards storage holds authToken exactly when the token is non-empty, and with the same value |
| AuthStore.Store.SetLoading | mindmap_local/frontend/src/store/authStore.ts:30 | changes only isLoading and never touches storage |
| AuthStore.Store.SetError | mindmap_local/frontend/src/store/authStore.ts:31 | changes only error and never touches storage |
| AuthStore.Store.Logout | mindmap_local/frontend/src/store/authStore.ts:32-35 | clears user and token and removes only authToken. isLoading and error are kept. Storage and state agree afterwards. On a logged-out store it changes nothing (idempotent) |
| ApiClient.BearerHeader | mindmap_local/frontend/src/api/client.ts:13-16 | a header exists iff the token is non-empty, and it is "Bearer " followed by the token |
| ApiClient.InterceptRequest | mindmap_local/frontend/src/api/client.ts:12-18 | with a non-empty store token, Authorization is set to "Bearer " + token; otherwise the headers are unchanged; the same config is returned |
| ApiClient.InterceptResponse | mindmap_local/frontend/src/api/client.ts:20-28 | everything is passed on unchanged; a 401 error logs the store out; any other outcome (another status, no response, success) leaves store and storage unchanged |
| BearerHandshake.HeaderRoundTrip | mindmap_local/frontend/src/api/client.ts:15 | for a non-empty token t, the gateway extracts t from the header the client builds |
| BearerHandshake.StoreTokenAtGateway | mindmap_local/services/api-gateway/src/middleware/auth.ts:23-47 | a non-empty store token reaches the gateway's verifier unchanged and its result is classified; no token means 401 Access token required |

## Left out

- bcrypt is not modelled as cryptography. A hash is the symbolic term (cost, salt, plaintext). `Compare` accepts a password when the first 72 bytes of its UTF-8 encoding equal those of the hashed plaintext. Beyond that, collisions of the cipher itself are assumed away. Salts, the cost factor's effect and timing are not modelled.
- Password.CompareOnlyPreimage: holds only for passwords of at most 72 UTF-8 bytes. Every wrong-password 401 that rests on it (`AuthRoutes.LoginRejects` used with a different password) has the same bound. Longer passwords are matched by any password sharing their first 72 bytes, as `Password.LongPasswordsShareHash` states.
- `Password.Utf8`: strings are sequences of Unicode scalar values, so unpaired surrogates, which JavaScript strings allow, are not modelled. A NUL character inside a password, which bcrypt's C core may read as the end of the key, is not modelled either.
- jsonwebtoken is not modelled as cryptography. A token is the symbolic pair (claims, secret). The compact string encoding and signature algorithms are not modelled. So the gateway's verifier is a parameter over token strings and is not tied to `Jwt.Verify`.
- Turning `JWT_EXPIRES_IN` ('1h') into seconds is done by the `ms` package. The login takes the lifetime `ttl` in seconds as a parameter. An expiresIn string that jsonwebtoken refuses makes `jwt.sign` throw; that counts among the `fault` cases.
- SQLite is left out: the connection singleton, WAL, directory creation, the `DB_PATH` resolution, durability, and the `created_at`/`updated_at` columns. Only the schema shapes the rows.
- Concurrency is left out. Requests are handled one at a time, so the register race at `routes/auth.ts:19-29` is not modelled.
- The 500 catch paths: one `fault` flag stands for any thrown database, bcrypt or jsonwebtoken error. It is consulted right after input validation, so the model does not say at which step the throw happens.
- Request bodies hold strings or nothing. JSON numbers, booleans or objects in `email`/`password`/`displayName` are not modelled.
- `GatewayEnv.ParseInt10` uses unbounded integers. JavaScript numbers lose precision beyond 2^53, and `-0` is read as 0.
- The gateway's `VERSION`, read from package.json, is left out, as is all console logging.
- zustand's subscription and re-render machinery is left out, and so are `localStorage` exceptions (quota, disabled storage). The axios promise plumbing is reduced to the interceptor's input and output.
- The pages, App routing, `/health`, server bootstrap and the thin API wrappers in `frontend/src/api/auth.ts` are UI or plumbing.
