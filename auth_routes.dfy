/** The auth service's request handlers (services/auth-service/src/routes/auth.ts):
    `POST /register` inserts into the `users` table, `POST /login` reads it and issues
    a token. The SQLite table is an in-memory sequence of rows plus the AUTOINCREMENT
    counter; requests are handled one after another. */
module AuthRoutes {
  import opened Wrappers
  import opened Password
  import opened Jwt

  const MissingFields := "Missing required fields"
  const EmailExists := "Email already exists"
  const InvalidCredentials := "Invalid credentials"
  const InternalServerError := "Internal server error"

  /** A row of `users` (id, email, password_hash, display_name, avatar_url); the two
      timestamp columns are not modelled. */
  datatype UserRecord = UserRecord(
    id: nat,
    email: string,
    passwordHash: PasswordHash,
    displayName: Option<string>,
    avatarUrl: Option<string>)

  /** `req.body` of the two routes; a property may be absent. */
  datatype RegisterBody = RegisterBody(email: Option<string>, password: Option<string>, displayName: Option<string>)
  datatype LoginBody = LoginBody(email: Option<string>, password: Option<string>)

  /** A response: its status code and its JSON body, either the payload or `{error}`. */
  datatype Body<T> = Json(value: T) | ErrorJson(error: string)
  datatype Response<T> = Response(status: int, body: Body<T>)

  function Error<T>(status: int, message: string): Response<T> {
    Response(status, ErrorJson(message))
  }

  /** The 201 payload of /register; it has no password field. */
  datatype Created = Created(id: nat, email: string, displayName: string)

  /** The `user` of the 200 payload of /login; it has no password_hash field. */
  datatype PublicUser = PublicUser(id: nat, email: string, displayName: Option<string>, avatarUrl: Option<string>)
  datatype Session = Session(token: Token, user: PublicUser)

  function PublicView(u: UserRecord): PublicUser {
    PublicUser(u.id, u.email, u.displayName, u.avatarUrl)
  }

  /** The UNIQUE constraint on `email`. */
  ghost predicate UniqueEmails(rows: seq<UserRecord>) {
    forall i, j :: 0 <= i < j < |rows| ==> rows[i].email != rows[j].email
  }

  /** AUTOINCREMENT hands out ids in increasing order. */
  ghost predicate IdsIncreasing(rows: seq<UserRecord>) {
    forall i, j :: 0 <= i < j < |rows| ==> rows[i].id < rows[j].id
  }

  /** `SELECT ... FROM users WHERE email = ?` with `.get()`: the first row whose email
      is exactly `email` (the comparison is case-sensitive), or none. */
  function FindByEmail(rows: seq<UserRecord>, email: string): (r: Option<UserRecord>)
    ensures r.Some? ==> r.value in rows && r.value.email == email
    ensures r.None? <==> forall i :: 0 <= i < |rows| ==> rows[i].email != email
  {
    if rows == [] then None
    else if rows[0].email == email then Some(rows[0])
    else FindByEmail(rows[1..], email)
  }

  /** Under the UNIQUE constraint the lookup returns the one row with that email. */
  lemma {:induction false} FindUnique(rows: seq<UserRecord>, i: nat)
    requires UniqueEmails(rows)
    requires i < |rows|
    ensures FindByEmail(rows, rows[i].email) == Some(rows[i])
  {
    if i > 0 {
      assert rows[0].email != rows[i].email;
      assert rows[1..][i - 1] == rows[i];
      FindUnique(rows[1..], i - 1);
    }
  }

  // ---------------------------------------------------------------------------
  // POST /login

  /** The /login handler over the current rows. `secret` and `ttl` (seconds) come from
      the configuration, `now` is the clock, and `fault` stands for the database or
      bcrypt throwing, which the catch block turns into a 500. */
  function Login(users: seq<UserRecord>, body: LoginBody, secret: string, now: nat, ttl: nat, fault: bool): (r: Response<Session>)
    ensures r.status == 200 || r.status == 400 || r.status == 401 || r.status == 500
    ensures r.status == 400 <==> !Truthy(body.email) || !Truthy(body.password)
    ensures r.status == 400 ==> r.body == ErrorJson(MissingFields)
    ensures r.status == 401 ==> r.body == ErrorJson(InvalidCredentials)
    ensures r.status == 500 <==> fault && Truthy(body.email) && Truthy(body.password)
    ensures r.status == 500 ==> r.body == ErrorJson(InternalServerError)
    ensures r.status == 200 ==> r.body.Json? && exists i :: 0 <= i < |users| && IssuedFor(r.body.value, users[i], body, secret, now, ttl)
  {
    if !Truthy(body.email) || !Truthy(body.password) then
      Error(400, MissingFields)
    else if fault then
      Error(500, InternalServerError)
    else
      match FindByEmail(users, body.email.value)
      case None => Error(401, InvalidCredentials)
      case Some(user) =>
        if !Compare(body.password.value, user.passwordHash) then
          Error(401, InvalidCredentials)
        else
          Response(200, Json(Session(Sign(user.id, user.email, secret, now, ttl), PublicView(user))))
  }

  /** `session` is what a successful login with `body` issues for row `u`: the email and
      password match the row, the user is the row's public fields and the token carries
      its id and email. */
  ghost predicate IssuedFor(session: Session, u: UserRecord, body: LoginBody, secret: string, now: nat, ttl: nat) {
    && body.email == Some(u.email)
    && body.password.Some? && Compare(body.password.value, u.passwordHash)
    && session.user == PublicView(u)
    && session.token == Sign(u.id, u.email, secret, now, ttl)
  }

  /** A stored email with the password that was hashed into its row logs in: 200 with
      that row's public fields and a token for its id and email that lives `ttl` seconds. */
  lemma LoginSucceeds(users: seq<UserRecord>, i: nat, password: string, secret: string, now: nat, ttl: nat)
    requires UniqueEmails(users)
    requires i < |users| && users[i].email != "" && password != ""
    requires Compare(password, users[i].passwordHash)
    ensures var r := Login(users, LoginBody(Some(users[i].email), Some(password)), secret, now, ttl, false);
      && r.status == 200
      && r.body == Json(Session(Sign(users[i].id, users[i].email, secret, now, ttl), PublicView(users[i])))
      && r.body.value.token.claims.exp - r.body.value.token.claims.iat == ttl
  {
    FindUnique(users, i);
  }

  /** When no row with that email accepts the password (the email is unknown, or its
      password differs), the answer is 401 "Invalid credentials". */
  lemma LoginRejects(users: seq<UserRecord>, email: string, password: string, secret: string, now: nat, ttl: nat)
    requires UniqueEmails(users)
    requires email != "" && password != ""
    requires forall i :: 0 <= i < |users| && users[i].email == email ==> !Compare(password, users[i].passwordHash)
    ensures Login(users, LoginBody(Some(email), Some(password)), secret, now, ttl, false) == Error(401, InvalidCredentials)
  {
    var found := FindByEmail(users, email);
    if found.Some? {
      var i :| 0 <= i < |users| && users[i] == found.value;
    }
  }

  /** An unknown email and a wrong password for a known one get the identical response,
      so a client cannot tell whether an account exists. */
  lemma LoginHidesAccountExistence(users: seq<UserRecord>, unknown: string, p1: string, i: nat, p2: string,
                                   secret: string, now: nat, ttl: nat)
    requires UniqueEmails(users)
    requires unknown != "" && p1 != "" && p2 != ""
    requires forall k :: 0 <= k < |users| ==> users[k].email != unknown
    requires i < |users| && users[i].email != "" && !Compare(p2, users[i].passwordHash)
    ensures Login(users, LoginBody(Some(unknown), Some(p1)), secret, now, ttl, false)
         == Login(users, LoginBody(Some(users[i].email), Some(p2)), secret, now, ttl, false)
  {
    LoginRejects(users, unknown, p1, secret, now, ttl);
    LoginRejects(users, users[i].email, p2, secret, now, ttl);
  }

  // ---------------------------------------------------------------------------
  // POST /register and the users table

  /** The row the INSERT of /register creates. */
  function NewRecord(id: nat, email: string, password: string, displayName: string, salt: nat): UserRecord {
    UserRecord(id, email, Hash(password, salt), Some(displayName), None)
  }

  /** Appending a row with an email not yet in the table keeps emails unique. */
  lemma {:induction false} AppendKeepsUnique(rows: seq<UserRecord>, rec: UserRecord)
    requires UniqueEmails(rows)
    requires FindByEmail(rows, rec.email).None?
    ensures UniqueEmails(rows + [rec])
  {
    var rows' := rows + [rec];
    forall i, j | 0 <= i < j < |rows'| ensures rows'[i].email != rows'[j].email {
      if j < |rows| {
        assert rows'[i] == rows[i] && rows'[j] == rows[j];
      } else {
        assert rows'[i] == rows[i] && rows'[j] == rec;
      }
    }
  }

  /** What registering `(email, password, displayName)` promises to a later login:
      after the INSERT, logging in with the same email and password returns 200 with
      the new id, that email and that display name, and no avatar. */
  lemma LoginAfterRegister(rows: seq<UserRecord>, id: nat, email: string, password: string, displayName: string,
                           salt: nat, secret: string, now: nat, ttl: nat)
    requires UniqueEmails(rows)
    requires FindByEmail(rows, email).None?
    requires email != "" && password != ""
    ensures var r := Login(rows + [NewRecord(id, email, password, displayName, salt)],
                           LoginBody(Some(email), Some(password)), secret, now, ttl, false);
      && r.status == 200
      && r.body.value.user == PublicUser(id, email, Some(displayName), None)
      && r.body.value.token.claims.userId == id && r.body.value.token.claims.email == email
  {
    var rec := NewRecord(id, email, password, displayName, salt);
    AppendKeepsUnique(rows, rec);
    CompareOwnHash(password, salt);
    LoginSucceeds(rows + [rec], |rows|, password, secret, now, ttl);
  }

  /** The `users` table: its rows in insertion order and the next AUTOINCREMENT id. */
  class UsersTable {
    var rows: seq<UserRecord>
    var nextId: nat

    ghost predicate Valid()
      reads this
    {
      && nextId >= 1
      && (forall i :: 0 <= i < |rows| ==> 1 <= rows[i].id < nextId)
      && IdsIncreasing(rows)
      && UniqueEmails(rows)
    }

    /** A freshly created, empty table; SQLite's first AUTOINCREMENT id is 1. */
    constructor ()
      ensures Valid() && rows == [] && nextId == 1
    {
      rows := [];
      nextId := 1;
    }

    /** The /register handler. `salt` is bcrypt's random salt; `fault` stands for the
        database or bcrypt throwing, which the catch block turns into a 500. */
    method Register(body: RegisterBody, salt: nat, fault: bool) returns (res: Response<Created>)
      requires Valid()
      modifies this
      ensures Valid()
      ensures !Truthy(body.email) || !Truthy(body.password) || !Truthy(body.displayName) ==>
        res == Error(400, MissingFields) && rows == old(rows) && nextId == old(nextId)
      ensures Truthy(body.email) && Truthy(body.password) && Truthy(body.displayName) ==>
        if fault then
          res == Error(500, InternalServerError) && rows == old(rows) && nextId == old(nextId)
        else if FindByEmail(old(rows), body.email.value).Some? then
          res == Error(409, EmailExists) && rows == old(rows) && nextId == old(nextId)
        else
          && rows == old(rows) + [NewRecord(old(nextId), body.email.value, body.password.value, body.displayName.value, salt)]
          && nextId == old(nextId) + 1
          && res == Response(201, Json(Created(old(nextId), body.email.value, body.displayName.value)))
      ensures res.status == 201 ==> forall i :: 0 <= i < |old(rows)| ==> old(rows)[i].id < res.body.value.id
    {
      if !Truthy(body.email) || !Truthy(body.password) || !Truthy(body.displayName) {
        return Error(400, MissingFields);
      }
      if fault {
        return Error(500, InternalServerError);
      }
      var email := body.email.value;
      var existing := FindByEmail(rows, email);
      if existing.Some? {
        return Error(409, EmailExists);
      }
      var id := nextId;
      var rec := NewRecord(id, email, body.password.value, body.displayName.value, salt);
      AppendKeepsUnique(rows, rec);
      rows := rows + [rec];
      nextId := nextId + 1;
      res := Response(201, Json(Created(id, email, body.displayName.value)));
    }
  }

  /** The scenario of the route tests: register a@x.com, register it again, log in
      with the right and with a wrong password, on a fresh table. */
  method RegisterLoginScenario(salt1: nat, salt2: nat, secret: string, now: nat, ttl: nat)
    returns (first: Response<Created>, second: Response<Created>, good: Response<Session>, bad: Response<Session>)
    ensures first == Response(201, Json(Created(1, "a@x.com", "A")))
    ensures second == Error(409, EmailExists)
    ensures good.status == 200 && good.body.Json? && good.body.value.user == PublicUser(1, "a@x.com", Some("A"), None)
    ensures good.body.value.token.claims == Claims(1, "a@x.com", now, now + ttl)
    ensures bad == Error(401, InvalidCredentials)
  {
    var table := new UsersTable();
    first := table.Register(RegisterBody(Some("a@x.com"), Some("p1"), Some("A")), salt1, false);
    second := table.Register(RegisterBody(Some("a@x.com"), Some("p2"), Some("B")), salt2, false);
    LoginAfterRegister([], 1, "a@x.com", "p1", "A", salt1, secret, now, ttl);
    good := Login(table.rows, LoginBody(Some("a@x.com"), Some("p1")), secret, now, ttl, false);
    Utf8Length("p1");
    Utf8Length("wrong");
    CompareOnlyPreimage("p1", "wrong", salt1);
    LoginRejects(table.rows, "a@x.com", "wrong", secret, now, ttl);
    bad := Login(table.rows, LoginBody(Some("a@x.com"), Some("wrong")), secret, now, ttl, false);
  }
}
