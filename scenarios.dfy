/** Properties of request sequences that cross the handlers. */
module Scenarios {
  import opened Common
  import opened UserModel
  import opened Crypto
  import opened Http
  import opened Store
  import opened AuthMiddleware
  import opened AuthController
  import opened ClothingController

  /** Once registered, a user can log in with the same password and any
      spelling of the address that normalises the same way, and gets a token
      for the new id. */
  lemma RegisterThenLogin(s: State, reg: Credentials, login: Credentials, hasher: Hasher,
                          codec: TokenCodec, secret: string)
    requires Consistent(s) && SoundHasher(hasher)
    requires RegisterOutcome(s, reg, hasher).value.status == Created
    requires HasCredentials(login) && login.password == reg.password
    requires NormalizeEmail(login.email.value) == NormalizeEmail(reg.email.value)
    ensures var t := RegisterOutcome(s, reg, hasher).after;
      && UniqueEmails(t.users)
      && LoginOutcome(t.users, login, hasher, codec, secret)
         == Response(OK, Token(codec.sign(Claims(FreshId(s)), secret, TokenLifetime)))
  {
    var t := RegisterOutcome(s, reg, hasher).after;
    var id := FreshId(s);
    RegisterConsistent(s, reg, hasher);
    assert t.users[id] == NewUser(reg, hasher);
    NormalizeEmailIdempotent(reg.email.value);
    LoginFindsUser(t.users, id, login, hasher, codec, secret);
  }

  /** A login whose email normalises to a stored user's email and whose
      password matches that user's stored hash gets 200 with that user's token. */
  lemma LoginFindsUser(users: map<ObjectId, User>, id: ObjectId, login: Credentials, hasher: Hasher,
                       codec: TokenCodec, secret: string)
    requires UniqueEmails(users) && SoundHasher(hasher) && HasCredentials(login) && id in users
    requires users[id].email == NormalizeEmail(login.email.value)
    requires users[id].password == Some(hasher.hash(login.password.value, SaltRounds))
    ensures LoginOutcome(users, login, hasher, codec, secret)
         == Response(OK, Token(codec.sign(Claims(id), secret, TokenLifetime)))
  {
    var found := UserByEmail(users, login.email.value);
    assert EmailTaken(users, NormalizeEmail(login.email.value));
    assert found == Some(id);
    assert hasher.compare(login.password.value, hasher.hash(login.password.value, SaltRounds));
  }

  /** The token login hands out, sent back as `Bearer <token>`, lets the
      request through with the user's id as `req.user`. */
  lemma IssuedTokenAdmitted(codec: TokenCodec, secret: string, id: ObjectId)
    requires SoundCodec(codec)
    requires var token := codec.sign(Claims(id), secret, TokenLifetime); token != "" && ' ' !in token
    ensures var token := codec.sign(Claims(id), secret, TokenLifetime);
      Authorize(Some("Bearer " + token), codec.verify, secret) == Admit(Claims(id))
  {
    var token := codec.sign(Claims(id), secret, TokenLifetime);
    assert "Bearer " + token == "Bearer" + " " + token;
    AnySchemeYieldsToken("Bearer", token);
    assert codec.verify(token, secret) == Some(Claims(id));
  }

  /** One user creates an item; another user's delete of it is refused and
      the item stays in the first user's listing. */
  lemma OtherUserCannotDelete(s: State, owner: Claims, other: Claims, body: ItemFields,
                              file: Option<UploadedFile>)
    requires Consistent(s) && owner != other
    requires CreateOutcome(s, owner, body, file).value.status == Created
    ensures var c := CreateOutcome(s, owner, body, file);
      var it := c.value.body.item;
      var d := DeleteOutcome(c.after, other, it.id);
      && d == Step(DeleteForbiddenResponse, c.after)
      && it in ListOutcome(d.after, owner).body.items
  {
    var c := CreateOutcome(s, owner, body, file);
    var it := c.value.body.item;
    InsertThenPushConsistent(s, body.name.value, body.category.value, body.color.value,
                             body.brand, ImageUrlFor(file), owner.userId);
    assert it in c.after.items;
    FindItemUnique(c.after.items, it);
  }
}
