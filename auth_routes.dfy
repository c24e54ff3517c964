/** The `/register` and `/login` handlers over the User store.

    The store is the User table keyed by email (the table's uniqueness
    constraint), with the id the table will assign next. Each handler runs
    atomically. */
module AuthRoutes {
  import opened Basics
  import opened Crypto
  import AuthMiddleware

  /** A stored row; `password` holds the bcrypt hash, never the plaintext. */
  datatype User = User(id: int, name: string, email: string, password: string)

  /** The view of a user that responses carry: it has no password field. */
  datatype PublicUser = PublicUser(id: int, name: string, email: string)

  function Public(u: User): (p: PublicUser)
    ensures p.id == u.id && p.name == u.name && p.email == u.email
  {
    PublicUser(u.id, u.name, u.email)
  }

  datatype Body =
    | ErrorBody(error: string)
    | RegisteredBody(message: string, user: PublicUser)
    | TokenBody(message: string, token: string)

  /** `res.status(status).json(body)`. */
  datatype Reply = Reply(status: int, body: Body)

  /** The calls that can throw: the awaited `User.findOne`, `bcrypt.hash`,
      `User.create` and `bcrypt.compare`, and `jwt.sign`. */
  datatype Step = FindUser | HashPassword | CreateUser | ComparePassword | SignToken

  const FieldsRequired := "Name, email, and password are required."
  const UserExists := "User already exists."
  const RegisteredMessage := "User registered successfully."
  const CredentialsRequired := "Email and password are required."
  const InvalidCredentials := "Invalid email or password."
  const LoginMessage := "Login successful."
  const InternalError := "Internal server error."

  /** Every row is filed under its own email and has an id below `nextId`, and ids
      are distinct. */
  ghost predicate StoreInvariant(users: map<string, User>, nextId: int)
  {
    && nextId >= 1
    && (forall e :: e in users ==> users[e].email == e && 1 <= users[e].id < nextId)
    && (forall e1, e2 :: e1 in users && e2 in users && users[e1].id == users[e2].id ==> e1 == e2)
  }

  /** The reply of `/register` and the store after it. */
  datatype Registration = Registration(reply: Reply, users: map<string, User>, nextId: int)

  /** The 500 reply of `/register`: the error's message, or the generic one when
      the message is empty. */
  function RegisterFailure(message: string): (r: Reply)
    ensures r.status == 500 && r.body.ErrorBody? && r.body.error != ""
    ensures message != "" ==> r.body.error == message
    ensures message == "" ==> r.body.error == InternalError
  {
    Reply(500, ErrorBody(if message == "" then InternalError else message))
  }

  /** `/register` with request body fields `name`, `email`, `password`. The
      hasher is called with cost `SaltRounds` and the given `salt`. */
  function RegisterOutcome(users: map<string, User>, nextId: int,
                           name: Option<string>, email: Option<string>, password: Option<string>,
                           hasher: Hasher, salt: int, fault: Fault<Step>): (r: Registration)
    // no row is created, and no id consumed, on any failure path
    ensures r.reply.status != 201 ==> r.users == users && r.nextId == nextId
    ensures r.reply.status in {201, 400, 500}
    // success adds exactly one row, under the new email, and changes no other row
    ensures r.reply.status == 201 ==>
              && Truthy(name) && Truthy(email) && Truthy(password)
              && email.value !in users
              && r.users.Keys == users.Keys + {email.value}
              && r.users[email.value] == User(nextId, name.value, email.value, hasher.hash(password.value, SaltRounds, salt))
              && r.nextId == nextId + 1
              && r.reply.body == RegisteredBody(RegisteredMessage, Public(r.users[email.value]))
    ensures forall e :: e in users ==> e in r.users && r.users[e] == users[e]
    // the cases, in the order the handler meets them
    ensures !Truthy(name) || !Truthy(email) || !Truthy(password) ==>
              r == Registration(Reply(400, ErrorBody(FieldsRequired)), users, nextId)
    ensures Truthy(name) && Truthy(email) && Truthy(password) && ThrowsAt(fault, FindUser) ==>
              r == Registration(RegisterFailure(fault.message), users, nextId)
    ensures Truthy(name) && Truthy(email) && Truthy(password) && !ThrowsAt(fault, FindUser) && email.value in users ==>
              r == Registration(Reply(400, ErrorBody(UserExists)), users, nextId)
    ensures Truthy(name) && Truthy(email) && Truthy(password) && !ThrowsAt(fault, FindUser) && email.value !in users
            && (ThrowsAt(fault, HashPassword) || ThrowsAt(fault, CreateUser)) ==>
              r == Registration(RegisterFailure(fault.message), users, nextId)
    ensures Truthy(name) && Truthy(email) && Truthy(password) && email.value !in users
            && !ThrowsAt(fault, FindUser) && !ThrowsAt(fault, HashPassword) && !ThrowsAt(fault, CreateUser) ==>
              r.reply.status == 201
  {
    if !Truthy(name) || !Truthy(email) || !Truthy(password) then
      Registration(Reply(400, ErrorBody(FieldsRequired)), users, nextId)
    else if ThrowsAt(fault, FindUser) then
      Registration(RegisterFailure(fault.message), users, nextId)
    else if email.value in users then
      Registration(Reply(400, ErrorBody(UserExists)), users, nextId)
    else if ThrowsAt(fault, HashPassword) || ThrowsAt(fault, CreateUser) then
      Registration(RegisterFailure(fault.message), users, nextId)
    else
      var row := User(nextId, name.value, email.value, hasher.hash(password.value, SaltRounds, salt));
      Registration(Reply(201, RegisteredBody(RegisteredMessage, Public(row))), users[email.value := row], nextId + 1)
  }

  /** `/login` with request body fields `email`, `password`, at time `now` (seconds),
      with `secret` for `JWT_SECRET`. It only reads the store. */
  function Login(users: map<string, User>, email: Option<string>, password: Option<string>,
                 hasher: Hasher, tokens: TokenService, secret: string, now: int,
                 fault: Fault<Step>): (r: Reply)
    ensures r.status in {200, 400, 401, 500}
    // both credential failures carry the same body, and a 500 never echoes the error
    ensures r.status == 401 ==> r.body == ErrorBody(InvalidCredentials)
    ensures r.status == 500 ==> r.body == ErrorBody(InternalError)
    ensures r.status == 400 <==> !Truthy(email) || !Truthy(password)
    // success only for a stored email whose hash matches, with a token for that row's id and email
    ensures r.status == 200 ==>
              && Truthy(email) && email.value in users
              && hasher.compare(password.value, users[email.value].password)
              && r.body == TokenBody(LoginMessage,
                   tokens.sign(Claims(users[email.value].id, users[email.value].email), secret, now, SevenDays))
    // a stored email whose hash matches is admitted when no call throws
    ensures Truthy(email) && Truthy(password) && email.value in users
            && !ThrowsAt(fault, FindUser) && !ThrowsAt(fault, ComparePassword) && !ThrowsAt(fault, SignToken)
            && hasher.compare(password.value, users[email.value].password) ==>
              r.status == 200
    // an unknown email, or a stored one whose hash does not match, is refused
    ensures Truthy(email) && Truthy(password) && !ThrowsAt(fault, FindUser) && email.value !in users ==> r.status == 401
    ensures Truthy(email) && Truthy(password) && !ThrowsAt(fault, FindUser) && email.value in users
            && !ThrowsAt(fault, ComparePassword) && !hasher.compare(password.value, users[email.value].password) ==>
              r.status == 401
    // a 500 is exactly a throwing call that the handler reaches
    ensures r.status == 500 <==>
              && Truthy(email) && Truthy(password)
              && (|| ThrowsAt(fault, FindUser)
                  || (email.value in users
                      && (|| ThrowsAt(fault, ComparePassword)
                          || (hasher.compare(password.value, users[email.value].password) && ThrowsAt(fault, SignToken)))))
  {
    if !Truthy(email) || !Truthy(password) then Reply(400, ErrorBody(CredentialsRequired))
    else if ThrowsAt(fault, FindUser) then Reply(500, ErrorBody(InternalError))
    else if email.value !in users then Reply(401, ErrorBody(InvalidCredentials))
    else
      var user := users[email.value];
      if ThrowsAt(fault, ComparePassword) then Reply(500, ErrorBody(InternalError))
      else if !hasher.compare(password.value, user.password) then Reply(401, ErrorBody(InvalidCredentials))
      else if ThrowsAt(fault, SignToken) then Reply(500, ErrorBody(InternalError))
      else Reply(200, TokenBody(LoginMessage, tokens.sign(Claims(user.id, user.email), secret, now, SevenDays)))
  }

  /** `/register` keeps the store invariant. */
  lemma RegisterKeepsInvariant(users: map<string, User>, nextId: int,
                               name: Option<string>, email: Option<string>, password: Option<string>,
                               hasher: Hasher, salt: int, fault: Fault<Step>)
    requires StoreInvariant(users, nextId)
    ensures var r := RegisterOutcome(users, nextId, name, email, password, hasher, salt, fault);
            StoreInvariant(r.users, r.nextId)
  {
  }

  /** A missing field is a 400 that leaves the store as it was. */
  lemma RegisterValidation(users: map<string, User>, nextId: int,
                           name: Option<string>, email: Option<string>, password: Option<string>,
                           hasher: Hasher, salt: int, fault: Fault<Step>)
    requires !Truthy(name) || !Truthy(email) || !Truthy(password)
    ensures RegisterOutcome(users, nextId, name, email, password, hasher, salt, fault)
            == Registration(Reply(400, ErrorBody(FieldsRequired)), users, nextId)
  {
  }

  /** Registering an email a second time is refused with 400 (not the 409 the
      route's documentation announces) and leaves the one row of the first. */
  lemma RegisterTwice(users: map<string, User>, nextId: int,
                      name: Option<string>, email: Option<string>, password: Option<string>,
                      name2: Option<string>, password2: Option<string>,
                      hasher: Hasher, salt: int, salt2: int, fault2: Fault<Step>)
    requires Truthy(name2) && Truthy(password2) && !ThrowsAt(fault2, FindUser)
    requires RegisterOutcome(users, nextId, name, email, password, hasher, salt, NoFault).reply.status == 201
    ensures var first := RegisterOutcome(users, nextId, name, email, password, hasher, salt, NoFault);
            var second := RegisterOutcome(first.users, first.nextId, name2, email, password2, hasher, salt2, fault2);
            && second == Registration(Reply(400, ErrorBody(UserExists)), first.users, first.nextId)
            && first.users[email.value] == User(nextId, name.value, email.value, hasher.hash(password.value, SaltRounds, salt))
  {
  }

  /** Every awaited call that throws gives a 500 once the handler reaches it:
      registration echoes the error's message (or the generic text when it is
      empty) and leaves the store as it was; login answers the generic text. */
  lemma ThrownFailuresAre500(users: map<string, User>, nextId: int,
                             name: Option<string>, email: Option<string>, password: Option<string>,
                             hasher: Hasher, salt: int, tokens: TokenService, secret: string, now: int,
                             message: string)
    requires Truthy(name) && Truthy(email) && Truthy(password)
    ensures RegisterOutcome(users, nextId, name, email, password, hasher, salt, Throws(FindUser, message))
            == Registration(RegisterFailure(message), users, nextId)
    ensures Login(users, email, password, hasher, tokens, secret, now, Throws(FindUser, message))
            == Reply(500, ErrorBody(InternalError))
    ensures email.value !in users ==>
              && RegisterOutcome(users, nextId, name, email, password, hasher, salt, Throws(HashPassword, message))
                 == Registration(RegisterFailure(message), users, nextId)
              && RegisterOutcome(users, nextId, name, email, password, hasher, salt, Throws(CreateUser, message))
                 == Registration(RegisterFailure(message), users, nextId)
    ensures email.value in users ==>
              Login(users, email, password, hasher, tokens, secret, now, Throws(ComparePassword, message))
              == Reply(500, ErrorBody(InternalError))
    ensures email.value in users && hasher.compare(password.value, users[email.value].password) ==>
              Login(users, email, password, hasher, tokens, secret, now, Throws(SignToken, message))
              == Reply(500, ErrorBody(InternalError))
  {
  }

  /** Login never consults the store when a field is missing. */
  lemma LoginMissingFieldsIgnoresStore(users1: map<string, User>, users2: map<string, User>,
                                       email: Option<string>, password: Option<string>,
                                       hasher: Hasher, tokens: TokenService, secret: string, now: int,
                                       fault1: Fault<Step>, fault2: Fault<Step>)
    requires !Truthy(email) || !Truthy(password)
    ensures Login(users1, email, password, hasher, tokens, secret, now, fault1)
            == Login(users2, email, password, hasher, tokens, secret, now, fault2)
            == Reply(400, ErrorBody(CredentialsRequired))
  {
  }

  /** An unknown email and a known email with a wrong password get the identical
      response. */
  lemma CredentialFailuresIndistinguishable(unknown: map<string, User>, known: map<string, User>,
                                            email: Option<string>, password: Option<string>,
                                            hasher: Hasher, tokens: TokenService, secret: string, now: int)
    requires Truthy(email) && Truthy(password)
    requires email.value !in unknown
    requires email.value in known && !hasher.compare(password.value, known[email.value].password)
    ensures Login(unknown, email, password, hasher, tokens, secret, now, NoFault)
            == Login(known, email, password, hasher, tokens, secret, now, NoFault)
            == Reply(401, ErrorBody(InvalidCredentials))
  {
  }

  /** The token a successful login issues verifies, under the same secret, to
      exactly `{id, email}` of the stored row, with a seven-day expiry. */
  lemma LoginTokenClaims(users: map<string, User>, email: Option<string>, password: Option<string>,
                         hasher: Hasher, tokens: TokenService, secret: string, now: int, later: int,
                         fault: Fault<Step>)
    requires SoundTokenService(tokens)
    requires Login(users, email, password, hasher, tokens, secret, now, fault).status == 200
    ensures var token := Login(users, email, password, hasher, tokens, secret, now, fault).body.token;
            var user := users[email.value];
            tokens.verify(token, secret, later)
            == if later < now + SevenDays then Verified(Payload(Claims(user.id, user.email), now, now + SevenDays))
               else Expired
  {
  }

  /** Registering, logging in with the same credentials, and presenting the token
      as `Bearer <token>` before it expires reaches the protected handler with the
      new row's id and email; the registration reply holds no password. */
  lemma RegisterLoginAccess(users: map<string, User>, nextId: int, name: string, email: string, password: string,
                            hasher: Hasher, salt: int, tokens: TokenService, secret: string, now: int, later: int)
    requires SoundHasher(hasher) && SoundTokenService(tokens)
    requires StoreInvariant(users, nextId)
    requires name != "" && email != "" && password != "" && email !in users
    requires now <= later < now + SevenDays
    ensures var reg := RegisterOutcome(users, nextId, Some(name), Some(email), Some(password), hasher, salt, NoFault);
            var login := Login(reg.users, Some(email), Some(password), hasher, tokens, secret, now, NoFault);
            && reg.reply == Reply(201, RegisteredBody(RegisteredMessage, PublicUser(nextId, name, email)))
            && login.status == 200
            && AuthMiddleware.Authenticate(Some("Bearer " + login.body.token), t => tokens.verify(t, secret, later))
               == AuthMiddleware.Authenticated(Payload(Claims(nextId, email), now, now + SevenDays))
  {
    var reg := RegisterOutcome(users, nextId, Some(name), Some(email), Some(password), hasher, salt, NoFault);
    assert hasher.compare(password, reg.users[email].password);
    var login := Login(reg.users, Some(email), Some(password), hasher, tokens, secret, now, NoFault);
    var bearer := "Bearer";
    assert ' ' !in bearer;
    assert bearer + " " + login.body.token == "Bearer " + login.body.token;
    AuthMiddleware.SignedTokenAdmittedUntilExpiry(tokens, secret, Claims(nextId, email), now, later, bearer);
  }

  /** The User table: rows keyed by email and the next id it will assign. */
  class UserStore {
    var users: map<string, User>
    var nextId: int

    ghost predicate Valid()
      reads this
    {
      StoreInvariant(users, nextId)
    }

    constructor ()
      ensures Valid() && users == map[] && nextId == 1
    {
      users := map[];
      nextId := 1;
    }

    /** `/register`: validate, look up by email, hash, insert, reply with the
        public view of the new row. */
    method Register(name: Option<string>, email: Option<string>, password: Option<string>,
                    hasher: Hasher, salt: int, fault: Fault<Step>) returns (reply: Reply)
      requires Valid()
      modifies this
      ensures Valid()
      ensures Registration(reply, users, nextId)
              == RegisterOutcome(old(users), old(nextId), name, email, password, hasher, salt, fault)
      ensures reply.status != 201 ==> users == old(users) && nextId == old(nextId)
    {
      if !Truthy(name) || !Truthy(email) || !Truthy(password) {
        return Reply(400, ErrorBody(FieldsRequired));
      }
      if ThrowsAt(fault, FindUser) {
        return RegisterFailure(fault.message);
      }
      var existing := if email.value in users then Some(users[email.value]) else None;
      if existing.Some? {
        return Reply(400, ErrorBody(UserExists));
      }
      if ThrowsAt(fault, HashPassword) {
        return RegisterFailure(fault.message);
      }
      var hashed := hasher.hash(password.value, SaltRounds, salt);
      if ThrowsAt(fault, CreateUser) {
        return RegisterFailure(fault.message);
      }
      var row := User(nextId, name.value, email.value, hashed);
      users := users[email.value := row];
      nextId := nextId + 1;
      reply := Reply(201, RegisteredBody(RegisteredMessage, Public(row)));
    }
  }
}
