/** The User document of the database schema. */
module UserModel {
  import opened Common
  import Strings

  /** A stored user. Only `email` is required; `clothingItems` lists the ids of
      the ClothingItem documents the user references. */
  datatype User = User(
    name: Option<string>,
    email: string,
    password: Option<string>,
    image: Option<string>,
    emailVerified: Option<int>,
    clothingItems: seq<ObjectId>)

  /** The schema's `lowercase` and `trim` setters, applied to every email that is
      stored and to every email a query filters on. */
  function NormalizeEmail(email: string): string {
    Strings.Trim(Strings.ToLower(email))
  }

  /** Normalising twice is the same as normalising once. */
  lemma {:induction false} NormalizeEmailIdempotent(email: string)
    ensures NormalizeEmail(NormalizeEmail(email)) == NormalizeEmail(email)
  {
    var l := Strings.ToLower(email);
    var n := Strings.Trim(l);
    Strings.ToLowerIdempotent(email);
    assert Strings.ToLower(l) == l;
    Strings.LowerTrimCommute(l);
    assert Strings.ToLower(n) == n;
    Strings.TrimIdempotent(l);
    assert NormalizeEmail(n) == Strings.Trim(n) == n;
  }

  /** A normalised email has no upper-case ASCII letter and no surrounding white space. */
  lemma NormalizedEmailShape(email: string)
    ensures var n := NormalizeEmail(email);
      (forall k :: 0 <= k < |n| ==> !('A' <= n[k] <= 'Z'))
      && (n == [] || (!Strings.IsJsSpace(n[0]) && !Strings.IsJsSpace(n[|n| - 1])))
  {
    var l := Strings.ToLower(email);
    Strings.ToLowerNoCapitals(email);
    var n := Strings.Trim(l);
    assert n == NormalizeEmail(email);
    var i: nat :| Strings.TrimmedAt(l, n, i);
    forall k | 0 <= k < |n| ensures !('A' <= n[k] <= 'Z') {
      assert n[k] == l[i + k];
    }
  }

  /** The schema's validation for a user as stored: the email is present after
      its setters ran, and it is already in normal form. */
  predicate WellFormed(u: User) {
    u.email != "" && NormalizeEmail(u.email) == u.email
  }

  /** The schema's unique index on `email`. */
  ghost predicate UniqueEmails(users: map<ObjectId, User>) {
    forall a, b :: a in users && b in users && a != b ==> users[a].email != users[b].email
  }

  /** Is some stored user's email equal to `email`? */
  predicate EmailTaken(users: map<ObjectId, User>, email: string) {
    exists id :: id in users && users[id].email == email
  }
}
