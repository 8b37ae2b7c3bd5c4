/** The password hasher and the token signer are libraries whose internals are
    not part of this model; each appears as a pair of functions supplied by the
    caller, and the only thing assumed of a pair is stated as a predicate. */
module Crypto {
  import opened Common

  /** `bcrypt.hash(password, rounds)` and `bcrypt.compare(candidate, hash)`. */
  datatype Hasher = Hasher(hash: (string, nat) -> string, compare: (string, string) -> bool)

  /** A password always matches its own hash. */
  ghost predicate SoundHasher(h: Hasher) {
    forall p: string, rounds: nat :: h.compare(p, h.hash(p, rounds))
  }

  /** The cost factor register uses. */
  const SaltRounds: nat := 10

  /** The payload a session token carries. */
  datatype Claims = Claims(userId: ObjectId)

  /** `jwt.sign(payload, secret, { expiresIn })` and `jwt.verify(token, secret)`;
      `verify` gives `None` where the library throws. */
  datatype TokenCodec = TokenCodec(
    sign: (Claims, string, nat) -> string,
    verify: (string, string) -> Option<Claims>)

  /** A token verifies, under the secret it was signed with, to the claims it was signed with. */
  ghost predicate SoundCodec(t: TokenCodec) {
    forall c: Claims, secret: string, expiresIn: nat :: t.verify(t.sign(c, secret, expiresIn), secret) == Some(c)
  }

  /** `expiresIn: '1h'`, in seconds. */
  const TokenLifetime: nat := 3600
}
