/** Registration, login and the current-user lookup of
    backend/controllers/authController.js. Password hashing, the password
    check and token signing are library calls whose results the model takes
    as function parameters. */
module Auth {
  import opened Common
  import opened Store

  /** The JSON both `register` and `login` answer with. */
  datatype Session = Session(id: Id, firstName: string, lastName: string, email: string, role: string, token: string)

  /** Body of POST /api/auth/register. A `role` in the body is ignored. */
  datatype RegisterBody = RegisterBody(
    firstName: Option<string>,
    lastName: Option<string>,
    email: Option<string>,
    password: Option<string>,
    phoneNumber: Option<string>)

  function SessionOf(u: User, sign: Id -> string): (s: Session)
    ensures s.id == u.id && s.email == u.email && s.role == u.role && s.token == sign(u.id)
    ensures s.firstName == u.firstName && s.lastName == u.lastName
  {
    Session(u.id, u.firstName, u.lastName, u.email, u.role, sign(u.id))
  }

  /** `register`: an email already on file answers 400 and writes nothing;
      otherwise a user row with the hashed password and the default role is
      appended and a token for its new id is returned. A missing email makes
      the lookup throw, and a missing name or password violates the NOT NULL
      columns; both answer 500. */
  function Register(body: RegisterBody, upload: Option<string>, hash: string -> string, sign: Id -> string,
                    now: int, st: Store): (o: Outcome<Session>)
    ensures o.reply.BadRequest? <==> body.email.Some? && FindByEmail(st.users, body.email.value).Some?
    ensures o.reply.BadRequest? ==> o.reply.message == "User already exists"
    ensures o.reply.Ok? <==>
      && body.email.Some? && FindByEmail(st.users, body.email.value).None?
      && body.firstName.Some? && body.lastName.Some? && body.password.Some?
    ensures o.reply.Ok? || o.reply.BadRequest? || o.reply.ServerError?
    ensures !o.reply.Ok? ==> o.after == st
    ensures o.reply.Ok? ==>
      var u := User(st.nextUserId, body.firstName.value, body.lastName.value, body.email.value,
                    hash(body.password.value), body.phoneNumber, upload, DefaultRole, now);
      && o.after.users == st.users + [u]
      && o.after.nextUserId == st.nextUserId + 1
      && o.after.items == st.items && o.after.messages == st.messages && o.after.reports == st.reports
      && o.reply.value == SessionOf(u, sign)
    ensures Valid(st) ==> Valid(o.after)
  {
    if body.email.None? then Outcome(ServerError("Server error"), st)
    else if FindByEmail(st.users, body.email.value).Some? then Outcome(BadRequest("User already exists"), st)
    else if body.firstName.None? || body.lastName.None? || body.password.None? then
      Outcome(ServerError("Server error"), st)
    else
      var u := User(st.nextUserId, body.firstName.value, body.lastName.value, body.email.value,
                    hash(body.password.value), body.phoneNumber, upload, DefaultRole, now);
      AppendKeepsKeys(st.users, u, UserKey, st.nextUserId);
      Outcome(Ok(SessionOf(u, sign)), st.(users := st.users + [u], nextUserId := st.nextUserId + 1))
  }

  /** The one reply of `login` for an unknown email and for a wrong password. */
  const BadCredentials: Reply<Session> := Unauthorized("Invalid credentials")

  /** `login`: the first user with that email whose stored hash the password
      matches gets a session; every other request gets the same 401. A body
      without an email makes the lookup throw, and a known email without a
      password makes the password check throw; both answer 500. Nothing is
      written. */
  function Login(email: Option<string>, password: Option<string>, matches: (string, string) -> bool,
                 sign: Id -> string, st: Store): (o: Outcome<Session>)
    ensures o.after == st
    ensures o.reply.Ok? || o.reply == BadCredentials || o.reply == ServerError("Server error")
    ensures o.reply.ServerError? <==>
      email.None? || (FindByEmail(st.users, email.value).Some? && password.None?)
    ensures o.reply.Ok? <==>
      && email.Some? && password.Some? && FindByEmail(st.users, email.value).Some?
      && matches(password.value, FindByEmail(st.users, email.value).value.password)
    ensures o.reply.Ok? ==>
      && o.reply.value.email == email.value
      && o.reply.value == SessionOf(FindByEmail(st.users, email.value).value, sign)
  {
    if email.None? then Outcome(ServerError("Server error"), st)
    else match FindByEmail(st.users, email.value)
      case None => Outcome(BadCredentials, st)
      case Some(u) =>
        if password.None? then Outcome(ServerError("Server error"), st)
        else if !matches(password.value, u.password) then Outcome(BadCredentials, st)
        else Outcome(Ok(SessionOf(u, sign)), st)
  }

  /** No user enumeration: an unknown email and a wrong password for a known
      one are answered identically. */
  lemma LoginFailuresIndistinguishable(e1: string, p1: Option<string>, e2: string, p2: string,
                                       matches: (string, string) -> bool, sign: Id -> string, st: Store)
    requires FindByEmail(st.users, e1).None?
    requires FindByEmail(st.users, e2).Some? && !matches(p2, FindByEmail(st.users, e2).value.password)
    ensures Login(Some(e1), p1, matches, sign, st) == Login(Some(e2), Some(p2), matches, sign, st)
  {
  }

  /** Registering and then logging in with the same email and password yields
      a session for the new user, whenever the password check accepts a
      password against its own hash. */
  lemma RegisterThenLogin(body: RegisterBody, upload: Option<string>, hash: string -> string,
                          matches: (string, string) -> bool, sign: Id -> string, now: int, st: Store)
    requires Valid(st)
    requires forall p :: matches(p, hash(p))
    requires Register(body, upload, hash, sign, now, st).reply.Ok?
    ensures
      var reg := Register(body, upload, hash, sign, now, st);
      var log := Login(body.email, body.password, matches, sign, reg.after);
      log.reply.Ok? && log.reply.value == reg.reply.value
  {
    var reg := Register(body, upload, hash, sign, now, st);
    FindByEmailAppend(st.users, reg.after.users[|st.users|], body.email.value);
  }

  /** An email absent from a table is found at the row appended after it. */
  lemma {:induction false} FindByEmailAppend(users: seq<User>, u: User, email: string)
    requires FindByEmail(users, email).None?
    requires u.email == email
    ensures FindByEmail(users + [u], email) == Some(u)
    decreases |users|
  {
    if |users| > 0 {
      assert (users + [u])[1..] == users[1..] + [u];
      FindByEmailAppend(users[1..], u, email);
    }
  }

  /** `getMe`: the requester's own row without its password, or `null` when
      the row has gone since the token was issued. */
  function GetMe(req: Requester, st: Store): (o: Outcome<Option<PublicUser>>)
    ensures o.after == st
    ensures o.reply.Ok?
    ensures o.reply.value.None? <==> FindUser(st, req.id).None?
    ensures o.reply.value.Some? ==> o.reply.value.value.id == req.id && Public(FindUser(st, req.id).value) == o.reply.value.value
  {
    match FindUser(st, req.id)
    case None => Outcome(Ok(None), st)
    case Some(u) => Outcome(Ok(Some(Public(u))), st)
  }
}
