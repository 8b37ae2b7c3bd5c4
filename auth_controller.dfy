/** The register and login handlers. */
module AuthController {
  import opened Common
  import opened UserModel
  import opened Crypto
  import opened Http
  import opened Store

  /** The fields of the JSON body the handlers read; `None` is a missing field. */
  datatype Credentials = Credentials(name: Option<string>, email: Option<string>, password: Option<string>)

  const MissingFieldsResponse: Response := Response(BadRequest, Message("Email and password are required"))
  const EmailExistsResponse: Response := Response(Conflict, Message("Email already exists"))
  const InvalidCredentialsResponse: Response := Response(Unauthorized, Message("Invalid credentials"))

  /** Both email and password are present and non-empty. */
  predicate HasCredentials(body: Credentials) {
    Present(body.email) && Present(body.password)
  }

  /** The user document register writes for a body that has credentials. */
  function NewUser(body: Credentials, hasher: Hasher): User
    requires HasCredentials(body)
  {
    User(body.name, NormalizeEmail(body.email.value), Some(hasher.hash(body.password.value, SaltRounds)),
         None, None, [])
  }

  /** `register`: check the fields, hash the password, create the user; a
      duplicate-key error becomes 409 and any other error 500. */
  function RegisterOutcome(s: State, body: Credentials, hasher: Hasher): (r: Step<Response>)
    ensures r.value == MissingFieldsResponse <==> !HasCredentials(body)
    ensures r.value == EmailExistsResponse <==>
      HasCredentials(body) && NormalizeEmail(body.email.value) != ""
      && EmailTaken(s.users, NormalizeEmail(body.email.value))
    ensures r.value == ServerError <==> HasCredentials(body) && NormalizeEmail(body.email.value) == ""
    ensures r.value.status == Created <==>
      HasCredentials(body) && NormalizeEmail(body.email.value) != ""
      && !EmailTaken(s.users, NormalizeEmail(body.email.value))
    ensures r.value.status != Created ==> r.after == s
    ensures r.value.status == Created ==>
      && HasCredentials(body)
      && r.value.body == UserCreated("User created successfully", FreshId(s))
      && r.after == State(s.users[FreshId(s) := NewUser(body, hasher)], s.items, FreshId(s) + 1)
  {
    if !HasCredentials(body) then Step(MissingFieldsResponse, s)
    else
      var hashed := hasher.hash(body.password.value, SaltRounds);
      var st := InsertUser(s, body.name, body.email.value, Some(hashed));
      match st.value
      case Ok(id) => Step(Response(Created, UserCreated("User created successfully", id)), st.after)
      case Err(e) =>
        if ErrorCode(e) == Some(DuplicateKeyCode) then Step(EmailExistsResponse, s)
        else Step(ServerError, s)
  }

  /** `login`: check the fields, look the user up by email, compare the
      password with the stored hash and sign a token for the user's id. A
      user without a stored password makes the comparison throw. */
  function LoginOutcome(users: map<ObjectId, User>, body: Credentials, hasher: Hasher,
                        codec: TokenCodec, secret: string): (r: Response)
    requires UniqueEmails(users)
    ensures r == MissingFieldsResponse <==> !HasCredentials(body)
    ensures r.status == OK <==>
      && HasCredentials(body)
      && UserByEmail(users, body.email.value).Some?
      && var u := users[UserByEmail(users, body.email.value).value];
         u.password.Some? && hasher.compare(body.password.value, u.password.value)
    ensures r.status == OK ==>
      var id := UserByEmail(users, body.email.value).value;
      && users[id].email == NormalizeEmail(body.email.value)
      && r.body == Token(codec.sign(Claims(id), secret, TokenLifetime))
    ensures r.status in {OK, BadRequest, Unauthorized, InternalError}
    ensures r.status == Unauthorized ==> r == InvalidCredentialsResponse
    ensures HasCredentials(body) && UserByEmail(users, body.email.value).None? ==>
      r == InvalidCredentialsResponse
  {
    if !HasCredentials(body) then MissingFieldsResponse
    else match UserByEmail(users, body.email.value)
      case None => InvalidCredentialsResponse
      case Some(id) =>
        var u := users[id];
        if u.password.None? then ServerError
        else if !hasher.compare(body.password.value, u.password.value) then InvalidCredentialsResponse
        else Response(OK, Token(codec.sign(Claims(id), secret, TokenLifetime)))
  }

  /** The handler for `POST /register`, performing `RegisterOutcome` on the database. */
  method Register(db: Database, body: Credentials, hasher: Hasher) returns (resp: Response)
    modifies db
    requires db.Valid()
    ensures var r := RegisterOutcome(old(db.Snapshot()), body, hasher);
      resp == r.value && db.Snapshot() == r.after
    ensures db.Valid()
  {
    ghost var s := db.Snapshot();
    if !Present(body.email) || !Present(body.password) {
      return MissingFieldsResponse;
    }
    var hashed := hasher.hash(body.password.value, SaltRounds);
    var created := db.CreateUser(body.name, body.email.value, Some(hashed));
    InsertUserConsistent(s, body.name, body.email.value, Some(hashed));
    match created
    case Ok(id) =>
      resp := Response(Created, UserCreated("User created successfully", id));
    case Err(e) =>
      if ErrorCode(e) == Some(DuplicateKeyCode) {
        resp := EmailExistsResponse;
      } else {
        resp := ServerError;
      }
  }

  /** The handler for `POST /login`. It has no `modifies` clause: login
      writes nothing. */
  method Login(db: Database, body: Credentials, hasher: Hasher, codec: TokenCodec, secret: string)
    returns (resp: Response)
    requires db.Valid()
    ensures resp == LoginOutcome(db.users, body, hasher, codec, secret)
  {
    if !Present(body.email) || !Present(body.password) {
      return MissingFieldsResponse;
    }
    var found := db.FindUserByEmail(body.email.value);
    if found.None? {
      return InvalidCredentialsResponse;
    }
    var u := db.users[found.value];
    if u.password.None? {
      return ServerError;
    }
    var matches := hasher.compare(body.password.value, u.password.value);
    if !matches {
      return InvalidCredentialsResponse;
    }
    var token := codec.sign(Claims(found.value), secret, TokenLifetime);
    resp := Response(OK, Token(token));
  }

  // ---------------------------------------------------------------------------
  // Properties

  /** Registering keeps the store consistent. */
  lemma RegisterConsistent(s: State, body: Credentials, hasher: Hasher)
    requires Consistent(s)
    ensures Consistent(RegisterOutcome(s, body, hasher).after)
  {
    if HasCredentials(body) {
      InsertUserConsistent(s, body.name, body.email.value,
                           Some(hasher.hash(body.password.value, SaltRounds)));
    }
  }

  /** Register refuses a body without credentials before hashing or
      touching the store: the answer does not depend on either. */
  lemma RegisterWithoutCredentials(s1: State, s2: State, body: Credentials, h1: Hasher, h2: Hasher)
    requires !HasCredentials(body)
    ensures RegisterOutcome(s1, body, h1) == Step(MissingFieldsResponse, s1)
    ensures RegisterOutcome(s2, body, h2) == Step(MissingFieldsResponse, s2)
  {
  }

  /** Login refuses a body without credentials whatever the users, the
      hasher and the token codec. */
  lemma LoginWithoutCredentials(u1: map<ObjectId, User>, u2: map<ObjectId, User>, body: Credentials,
                                h1: Hasher, h2: Hasher, c1: TokenCodec, c2: TokenCodec, secret: string)
    requires !HasCredentials(body) && UniqueEmails(u1) && UniqueEmails(u2)
    ensures LoginOutcome(u1, body, h1, c1, secret) == LoginOutcome(u2, body, h2, c2, secret)
         == MissingFieldsResponse
  {
  }

  /** The stored password is the hash of the submitted one with cost 10, and
      it is not the plaintext when the hasher never returns its input. */
  lemma RegisterStoresHash(s: State, body: Credentials, hasher: Hasher)
    requires RegisterOutcome(s, body, hasher).value.status == Created
    ensures var r := RegisterOutcome(s, body, hasher);
      var id := FreshId(s);
      && id in r.after.users
      && r.after.users[id].password == Some(hasher.hash(body.password.value, SaltRounds))
      && (hasher.hash(body.password.value, SaltRounds) != body.password.value ==>
            r.after.users[id].password != body.password)
  {
  }

  /** Registering the same address twice (up to case and surrounding
      whitespace) gives 409 the second time and adds nobody. */
  lemma RegisterTwiceConflicts(s: State, first: Credentials, second: Credentials, hasher: Hasher)
    requires RegisterOutcome(s, first, hasher).value.status == Created
    requires HasCredentials(second)
    requires NormalizeEmail(second.email.value) == NormalizeEmail(first.email.value)
    ensures var t := RegisterOutcome(s, first, hasher).after;
      RegisterOutcome(t, second, hasher) == Step(EmailExistsResponse, t)
  {
    var t := RegisterOutcome(s, first, hasher).after;
    var e := NormalizeEmail(first.email.value);
    NormalizeEmailIdempotent(first.email.value);
    assert t.users[FreshId(s)].email == e;
    assert EmailTaken(t.users, e);
  }

  /** An unknown email and a wrong password are answered identically. */
  lemma UnknownUserLikeWrongPassword(users: map<ObjectId, User>, unknown: Credentials, wrong: Credentials,
                                     hasher: Hasher, codec: TokenCodec, secret: string)
    requires UniqueEmails(users)
    requires HasCredentials(unknown) && !EmailTaken(users, NormalizeEmail(unknown.email.value))
    requires HasCredentials(wrong) && UserByEmail(users, wrong.email.value).Some?
    requires var u := users[UserByEmail(users, wrong.email.value).value];
      u.password.Some? && !hasher.compare(wrong.password.value, u.password.value)
    ensures LoginOutcome(users, unknown, hasher, codec, secret)
         == LoginOutcome(users, wrong, hasher, codec, secret)
         == InvalidCredentialsResponse
  {
  }
}
