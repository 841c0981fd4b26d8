/** lib/auth-routes.js: `/register`, `/login`, `/logout` and `/me`, over the database and the
    request's session. Request bodies are records of optional strings (an absent or empty
    field is falsy); responses are a status and a body. */
module AuthRoutes {
  import opened Wrappers
  import opened Text
  import opened Validation
  import opened Crypto
  import opened Store
  import opened Http

  /** What the routes keep true of every user they store: a 3 to 30 character name of the
      allowed characters and a well-shaped e-mail address. The schema does not demand this; the
      register and profile routes do. */
  predicate WellFormedUsers(us: seq<User>) {
    forall i :: 0 <= i < |us| ==> 3 <= |us[i].username| <= 30 && ValidName(us[i].username) && EmailShape(us[i].email)
  }

  // ---------------------------------------------------------------------------------
  // /register

  datatype RegisterRequest = RegisterRequest(username: Option<string>, email: Option<string>,
                                             displayName: Option<string>, password: Option<string>)

  /** The checks of `/register` in their order; `None` when the request passes all of them. */
  function RegisterError(us: seq<User>, req: RegisterRequest): (r: Option<Response>)
    ensures r.Some? ==> r.value.status == 400 || r.value.status == 409
    ensures r.None? <==>
      Given(req.username) && Given(req.email) && Given(req.displayName) && Given(req.password) &&
      3 <= |req.username.value| <= 30 && ValidName(req.username.value) && EmailShape(req.email.value) &&
      |req.password.value| >= 8 && !Taken(us, req.username.value, req.email.value)
    ensures r.Some? && r.value.status == 409 <==>
      Given(req.username) && Given(req.email) && Given(req.displayName) && Given(req.password) &&
      3 <= |req.username.value| <= 30 && ValidName(req.username.value) && EmailShape(req.email.value) &&
      |req.password.value| >= 8 && Taken(us, req.username.value, req.email.value)
  {
    if !Given(req.username) || !Given(req.email) || !Given(req.displayName) || !Given(req.password) then
      Some(Response(400, Error("All fields are required")))
    else if |req.username.value| < 3 || |req.username.value| > 30 then
      Some(Response(400, Error("Username must be 3-30 characters")))
    else if !ValidName(req.username.value) then
      Some(Response(400, Error("Username can only contain letters, numbers, hyphens, and underscores")))
    else if !EmailShape(req.email.value) then
      Some(Response(400, Error("Invalid email format")))
    else if |req.password.value| < 8 then
      Some(Response(400, Error("Password must be at least 8 characters")))
    else if Taken(us, req.username.value, req.email.value) then
      Some(Response(409, Error("Username or email already taken")))
    else None
  }

  /** The first failing check decides the message: a request missing a field is refused as
      incomplete whatever else is wrong with it. */
  lemma MissingFieldFirst(us: seq<User>, req: RegisterRequest)
    requires !Given(req.username) || !Given(req.password)
    ensures RegisterError(us, req) == Some(Response(400, Error("All fields are required")))
  {
  }

  /** POST /register. `h` is bcrypt, `salt` its random salt, `now` the clock. A refused request
      changes nothing; an accepted one adds exactly the new user, with the password's hash,
      logs it in and answers 201 with its public fields. */
  method Register(db: Db, session: Session, req: RegisterRequest, h: Hasher, salt: string, now: string)
    returns (resp: Response)
    requires db.Valid()
    modifies db, session
    ensures db.Valid()
    ensures RegisterError(old(db.users), req).Some? ==>
      resp == RegisterError(old(db.users), req).value &&
      db.State() == old(db.State()) && session.userId == old(session.userId)
    ensures RegisterError(old(db.users), req).None? ==>
      var id := old(db.lastUserId) + 1;
      db.State() == AddUser(old(db.State()), req.username.value, req.email.value, req.displayName.value,
                            h.hash(req.password.value, BcryptCost, salt), now) &&
      session.userId == Some(id) &&
      resp == Response(201, Account(PublicUser(id, req.username.value, req.email.value, req.displayName.value)))
  {
    var refused := RegisterError(db.users, req);
    if refused.Some? {
      return refused.value;
    }
    var passwordHash := h.hash(req.password.value, BcryptCost, salt);
    var id := db.InsertUser(req.username.value, req.email.value, req.displayName.value, passwordHash, now);
    // The uniqueness check above makes the insert's constraint failure (the 500 answer)
    // unreachable in this sequential model.
    assert id.Some?;
    session.userId := Some(id.value);
    resp := Response(201, Account(PublicUser(id.value, req.username.value, req.email.value, req.displayName.value)));
  }

  /** A registration keeps the route invariant. */
  lemma RegisterWellFormed(t: Tables, req: RegisterRequest, hash: string, now: string)
    requires WellFormedUsers(t.users) && RegisterError(t.users, req).None?
    ensures WellFormedUsers(AddUser(t, req.username.value, req.email.value, req.displayName.value, hash, now).users)
  {
    var us := AddUser(t, req.username.value, req.email.value, req.displayName.value, hash, now).users;
    assert forall i :: 0 <= i < |t.users| ==> us[i] == t.users[i];
  }

  // ---------------------------------------------------------------------------------
  // /login

  datatype LoginRequest = LoginRequest(login: Option<string>, password: Option<string>)

  /** The login lookup: the first row whose username or e-mail address equals the login string,
      ignoring case. */
  function LoginMatch(us: seq<User>, login: string): (r: Option<nat>)
    ensures r.Some? ==> r.value < |us| && (SameNoCase(us[r.value].username, login) || SameNoCase(us[r.value].email, login))
    ensures r.None? ==> forall i :: 0 <= i < |us| ==> !SameNoCase(us[i].username, login) && !SameNoCase(us[i].email, login)
  {
    if us == [] then None
    else if SameNoCase(us[0].username, login) || SameNoCase(us[0].email, login) then Some(0)
    else match LoginMatch(us[1..], login)
      case None => assert forall i :: 1 <= i < |us| ==> us[i] == us[1..][i - 1]; None
      case Some(k) => Some(k + 1)
  }

  /** Under the constraints and the route invariant at most one user matches a login string:
      usernames and addresses are unique ignoring case, and no username is an address. */
  lemma LoginMatchUnique(t: Tables, login: string, i: nat, j: nat)
    requires Consistent(t) && WellFormedUsers(t.users)
    requires i < j < |t.users|
    requires SameNoCase(t.users[i].username, login) || SameNoCase(t.users[i].email, login)
    ensures !SameNoCase(t.users[j].username, login) && !SameNoCase(t.users[j].email, login)
  {
    var a, b := t.users[i], t.users[j];
    SameNoCaseIsEquivalence(a.username, login, b.username);
    SameNoCaseIsEquivalence(a.email, login, b.email);
    SameNoCaseIsEquivalence(a.username, login, b.email);
    SameNoCaseIsEquivalence(a.email, login, b.username);
    SameNoCaseIsEquivalence(login, a.username, b.username);
    SameNoCaseIsEquivalence(login, a.email, b.email);
    SameNoCaseIsEquivalence(login, a.username, b.email);
    SameNoCaseIsEquivalence(login, a.email, b.username);
    NameIsNotEmail(a.username, b.email);
    NameIsNotEmail(b.username, a.email);
  }

  /** The user a login request authenticates: the matching user, when the password verifies
      against the stored hash. */
  function LoginTarget(us: seq<User>, req: LoginRequest, h: Hasher): (r: Option<User>)
    requires Given(req.login) && Given(req.password)
    ensures r.Some? ==> r.value in us && h.compare(req.password.value, r.value.passwordHash) &&
                        (SameNoCase(r.value.username, req.login.value) || SameNoCase(r.value.email, req.login.value))
  {
    match LoginMatch(us, req.login.value)
    case None => None
    case Some(i) => if h.compare(req.password.value, us[i].passwordHash) then Some(us[i]) else None
  }

  /** In a consistent user table a login succeeds for the user it names whenever the password
      verifies against that user's hash. */
  lemma LoginTargetComplete(t: Tables, req: LoginRequest, h: Hasher, i: nat)
    requires Consistent(t) && WellFormedUsers(t.users) && Given(req.login) && Given(req.password)
    requires i < |t.users| && (SameNoCase(t.users[i].username, req.login.value) || SameNoCase(t.users[i].email, req.login.value))
    requires h.compare(req.password.value, t.users[i].passwordHash)
    ensures LoginTarget(t.users, req, h) == Some(t.users[i])
  {
    var login := req.login.value;
    var k := LoginMatch(t.users, login).value;
    forall j | i < j < |t.users| ensures !SameNoCase(t.users[j].username, login) && !SameNoCase(t.users[j].email, login) {
      LoginMatchUnique(t, login, i, j);
    }
    forall j | k < j < |t.users| ensures !SameNoCase(t.users[j].username, login) && !SameNoCase(t.users[j].email, login) {
      LoginMatchUnique(t, login, k, j);
    }
    assert k == i;
  }

  const InvalidCredentials := Response(401, Error("Invalid credentials"))

  /** POST /login. An unknown identifier and a wrong password get the same answer, and neither
      touches the session. */
  method Login(db: Db, session: Session, req: LoginRequest, h: Hasher) returns (resp: Response)
    modifies session
    ensures !Given(req.login) || !Given(req.password) ==>
      resp == Response(400, Error("Username/email and password are required")) && session.userId == old(session.userId)
    ensures Given(req.login) && Given(req.password) ==>
      match LoginTarget(db.users, req, h)
      case None => resp == InvalidCredentials && session.userId == old(session.userId)
      case Some(u) => resp == Response(200, Account(Public(u))) && session.userId == Some(u.id)
  {
    if !Given(req.login) || !Given(req.password) {
      return Response(400, Error("Username/email and password are required"));
    }
    var i := LoginMatch(db.users, req.login.value);
    if i.None? || !h.compare(req.password.value, db.users[i.value].passwordHash) {
      return InvalidCredentials;
    }
    var user := db.users[i.value];
    session.userId := Some(user.id);
    resp := Response(200, Account(Public(user)));
  }

  /** A user who has just registered can log in with the username and the password. */
  lemma RegisteredCanLogin(t: Tables, req: RegisterRequest, h: Hasher, salt: string, now: string)
    requires Consistent(t) && WellFormedUsers(t.users) && Verifies(h)
    requires RegisterError(t.users, req).None?
    ensures var t1 := AddUser(t, req.username.value, req.email.value, req.displayName.value,
                              h.hash(req.password.value, BcryptCost, salt), now);
      LoginTarget(t1.users, LoginRequest(req.username, req.password), h) ==
        Some(t1.users[|t1.users| - 1])
  {
    var name := req.username.value;
    var t1 := AddUser(t, name, req.email.value, req.displayName.value,
                      h.hash(req.password.value, BcryptCost, salt), now);
    var n := |t.users|;
    SameNoCaseIsEquivalence(name, name, name);
    forall i | 0 <= i < n ensures !SameNoCase(t1.users[i].username, name) && !SameNoCase(t1.users[i].email, name) {
      assert t1.users[i] == t.users[i];
      NameIsNotEmail(name, t.users[i].email);
      SameNoCaseIsEquivalence(name, t.users[i].email, name);
    }
    LoginMatchLast(t1.users, name);
  }

  /** The first match is the last row when no earlier row matches. */
  lemma {:induction false} LoginMatchLast(us: seq<User>, login: string)
    requires us != [] && (SameNoCase(us[|us| - 1].username, login) || SameNoCase(us[|us| - 1].email, login))
    requires forall i :: 0 <= i < |us| - 1 ==> !SameNoCase(us[i].username, login) && !SameNoCase(us[i].email, login)
    ensures LoginMatch(us, login) == Some(|us| - 1)
  {
    if |us| > 1 {
      assert !SameNoCase(us[0].username, login) && !SameNoCase(us[0].email, login);
      forall i | 0 <= i < |us[1..]| - 1 ensures !SameNoCase(us[1..][i].username, login) && !SameNoCase(us[1..][i].email, login) {
        assert us[1..][i] == us[i + 1];
      }
      LoginMatchLast(us[1..], login);
    }
  }

  // ---------------------------------------------------------------------------------
  // /logout and /me

  /** POST /logout. `destroyFails` is the store's error, if `session.destroy` reports one. */
  method Logout(session: Session, destroyFails: bool) returns (resp: Response)
    modifies session
    ensures destroyFails ==> resp == Response(500, Error("Logout failed")) && session.userId == old(session.userId)
    ensures !destroyFails ==> resp == Response(200, Message("Logged out")) && session.userId.None?
  {
    if destroyFails {
      return Response(500, Error("Logout failed"));
    }
    session.userId := None;
    resp := Response(200, Message("Logged out"));
  }

  /** GET /me, as a function of the users and the session. The source tests `!userId`, which
      would also reject an id of 0 with "Not authenticated". No session holds 0, since `UsersValid`
      keeps every user id above 0, so the model's `Some(0)` answer ("User not found") is never
      reached. */
  function MeResponse(us: seq<User>, userId: Option<nat>): (r: Response)
    ensures userId.None? ==> r == NotAuthenticated
    ensures userId.Some? && !HasUser(us, userId.value) ==> r == Response(401, Error("User not found"))
    ensures userId.Some? && HasUser(us, userId.value) ==>
      r.status == 200 && r.body.Account? && r.body.user.id == userId.value &&
      exists i :: 0 <= i < |us| && r.body.user == Public(us[i])
  {
    if userId.None? then NotAuthenticated
    else match UserIndex(us, userId.value)
      case None => Response(401, Error("User not found"))
      case Some(i) => Response(200, Account(Public(us[i])))
  }

  method Me(db: Db, session: Session) returns (resp: Response)
    ensures resp == MeResponse(db.users, session.userId)
  {
    if session.userId.None? {
      return NotAuthenticated;
    }
    var i := UserIndex(db.users, session.userId.value);
    if i.None? {
      return Response(401, Error("User not found"));
    }
    resp := Response(200, Account(Public(db.users[i.value])));
  }

  /** POST /logout followed by GET /me on the same session: `/me` answers 401. */
  method LogoutThenMe(db: Db, session: Session) returns (logout: Response, me: Response)
    modifies session
    ensures logout == Response(200, Message("Logged out")) && me == NotAuthenticated && me.status == 401
  {
    logout := Logout(session, false);
    me := Me(db, session);
  }

  /** After a registration, `/me` answers with the new user's public fields. */
  lemma RegisterThenMe(t: Tables, req: RegisterRequest, hash: string, now: string)
    requires Consistent(t) && RegisterError(t.users, req).None?
    ensures var t1 := AddUser(t, req.username.value, req.email.value, req.displayName.value, hash, now);
      MeResponse(t1.users, Some(t.lastUserId + 1)) ==
        Response(200, Account(PublicUser(t.lastUserId + 1, req.username.value, req.email.value, req.displayName.value)))
  {
    var t1 := AddUser(t, req.username.value, req.email.value, req.displayName.value, hash, now);
    AddUserConsistent(t, req.username.value, req.email.value, req.displayName.value, hash, now);
    UserIndexUnique(t1.users, t1.lastUserId, t.lastUserId + 1, |t.users|);
  }
}
