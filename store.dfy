/** An in-memory model of the two MongoDB collections the handlers use
    (users and clothing items) and of the Mongoose calls they make on them.
    Every call is a pure function on a `State` value; the class `Database`
    holds the state and performs each call as one method. */
module Store {
  import opened Common
  import opened ClothingModel
  import opened UserModel

  /** Users by id, the item collection in insertion order, and the id counter. */
  datatype State = State(users: map<ObjectId, User>, items: seq<ClothingItem>, nextId: nat)

  /** The result of a call that writes: what it returns and the state it leaves. */
  datatype Step<T> = Step(value: T, after: State)

  /** Why a `create` call throws: a schema validator failed, or the unique
      index on a field already holds the value. */
  datatype StoreError = ValidationError | DuplicateKey

  const DuplicateKeyCode: int := 11000

  /** The `code` property of the thrown error. */
  function ErrorCode(e: StoreError): (code: Option<int>)
    ensures code == Some(DuplicateKeyCode) <==> e == DuplicateKey
  {
    if e == DuplicateKey then Some(DuplicateKeyCode) else None
  }

  // ---------------------------------------------------------------------------
  // Queries

  /** `ClothingItem.findById(id)`. */
  function FindItem(items: seq<ClothingItem>, id: ObjectId): (r: Option<ClothingItem>)
    ensures r.Some? ==> r.value in items && r.value.id == id
    ensures r.None? ==> forall it :: it in items ==> it.id != id
  {
    if items == [] then None
    else if items[0].id == id then Some(items[0])
    else FindItem(items[1..], id)
  }

  /** `ClothingItem.find({ owner })`: the items of `owner`, listed in insertion order; the query has no sort, so this order is the model's choice. */
  function OwnedItems(items: seq<ClothingItem>, owner: ObjectId): (r: seq<ClothingItem>)
    ensures forall it :: it in r <==> it in items && it.owner == owner
    ensures |r| <= |items|
  {
    if items == [] then []
    else (if items[0].owner == owner then [items[0]] else []) + OwnedItems(items[1..], owner)
  }

  /** Each item of `owner` is listed as often as it is stored, and no other item is. */
  lemma {:induction false} OwnedItemsCount(items: seq<ClothingItem>, owner: ObjectId, it: ClothingItem)
    ensures multiset(OwnedItems(items, owner))[it] == if it.owner == owner then multiset(items)[it] else 0
  {
    if items != [] {
      OwnedItemsCount(items[1..], owner, it);
      assert items == [items[0]] + items[1..];
    }
  }

  /** The ids of the items of `owner`, in collection order: what the owner's
      `clothingItems` list must hold. */
  function OwnedIds(items: seq<ClothingItem>, owner: ObjectId): seq<ObjectId> {
    if items == [] then []
    else (if items[0].owner == owner then [items[0].id] else []) + OwnedIds(items[1..], owner)
  }

  /** `User.findOne({ email })`: the query runs the schema's setters on the
      filter value, so it looks for the normalised email. */
  function UserByEmail(users: map<ObjectId, User>, email: string): (r: Option<ObjectId>)
    requires UniqueEmails(users)
    ensures r.Some? ==> r.value in users && users[r.value].email == NormalizeEmail(email)
    ensures r.None? ==> !EmailTaken(users, NormalizeEmail(email))
  {
    var e := NormalizeEmail(email);
    if EmailTaken(users, e) then
      Some(var id :| id in users && users[id].email == e; id)
    else None
  }

  // ---------------------------------------------------------------------------
  // Fresh ids

  /** One more than the largest owner id any item refers to. */
  function OwnerBound(items: seq<ClothingItem>): (b: nat)
    ensures forall it :: it in items ==> it.owner < b
  {
    if items == [] then 0 else Max(items[0].owner + 1, OwnerBound(items[1..]))
  }

  /** The id the store gives the next document: never the id of a stored
      document and never an id some item names as its owner. */
  function FreshId(s: State): (id: ObjectId)
    ensures s.nextId <= id
    ensures forall it :: it in s.items ==> it.owner < id
  {
    Max(s.nextId, OwnerBound(s.items))
  }

  // ---------------------------------------------------------------------------
  // Writes

  /** `ClothingItem.create(doc)`: validate, then insert under a fresh id. */
  function InsertItem(s: State, name: string, category: string, color: string,
                      brand: Option<string>, imageUrl: Option<string>, owner: ObjectId)
    : (r: Step<Result<ClothingItem, StoreError>>)
    ensures r.value.Err? ==> r.value.error == ValidationError && r.after == s
    ensures r.value.Ok? ==> var it := r.value.value;
      && it == ClothingItem(it.id, name, category, color, brand, imageUrl, owner)
      && it.id == FreshId(s)
      && Conforms(it)
      && r.after == State(s.users, s.items + [it], it.id + 1)
    ensures r.value.Ok? <==> name != "" && color != "" && ParseCategory(category).Some?
  {
    var it := ClothingItem(FreshId(s), name, category, color, brand, imageUrl, owner);
    if !Conforms(it) then Step(Err(ValidationError), s)
    else Step(Ok(it), State(s.users, s.items + [it], it.id + 1))
  }

  /** `User.findByIdAndUpdate(userId, { $push: { clothingItems: itemId } })`;
      no user with that id means nothing is written. */
  function PushItemRef(s: State, userId: ObjectId, itemId: ObjectId): (t: State)
    ensures t.items == s.items && t.nextId == s.nextId && t.users.Keys == s.users.Keys
    ensures userId in s.users ==>
      t.users[userId] == s.users[userId].(clothingItems := s.users[userId].clothingItems + [itemId])
    ensures forall u :: u in s.users && u != userId ==> t.users[u] == s.users[u]
  {
    if userId in s.users then
      var u := s.users[userId];
      s.(users := s.users[userId := u.(clothingItems := u.clothingItems + [itemId])])
    else s
  }

  /** `$pull`: every occurrence of `x` removed from `ids`. */
  function RemoveAll(ids: seq<ObjectId>, x: ObjectId): seq<ObjectId> {
    if ids == [] then []
    else (if ids[0] == x then [] else [ids[0]]) + RemoveAll(ids[1..], x)
  }

  /** `User.updateOne({ _id: userId }, { $pull: { clothingItems: itemId } })`. */
  function PullItemRef(s: State, userId: ObjectId, itemId: ObjectId): State {
    if userId in s.users then
      var u := s.users[userId];
      s.(users := s.users[userId := u.(clothingItems := RemoveAll(u.clothingItems, itemId))])
    else s
  }

  /** The fields an update document sets; an absent field is left alone. */
  datatype Update = Update(
    name: Option<string>, category: Option<string>, color: Option<string>,
    brand: Option<string>, imageUrl: Option<string>)

  /** The document after `$set` of the supplied fields. No validator runs, and
      the id and owner are never among the fields. */
  function ApplyUpdate(it: ClothingItem, u: Update): (r: ClothingItem)
    ensures r.id == it.id && r.owner == it.owner
    ensures r.name == u.name.GetOr(it.name) && r.category == u.category.GetOr(it.category)
    ensures r.color == u.color.GetOr(it.color)
    ensures r.brand == (if u.brand.Some? then u.brand else it.brand)
    ensures r.imageUrl == (if u.imageUrl.Some? then u.imageUrl else it.imageUrl)
  {
    it.(name := u.name.GetOr(it.name),
        category := u.category.GetOr(it.category),
        color := u.color.GetOr(it.color),
        brand := if u.brand.Some? then u.brand else it.brand,
        imageUrl := if u.imageUrl.Some? then u.imageUrl else it.imageUrl)
  }

  /** Applying the same update twice is applying it once. */
  lemma ApplyUpdateIdempotent(it: ClothingItem, u: Update)
    ensures ApplyUpdate(ApplyUpdate(it, u), u) == ApplyUpdate(it, u)
  {
  }

  /** The collection with the document whose id is `item.id` replaced by `item`. */
  function ReplaceItem(items: seq<ClothingItem>, item: ClothingItem): seq<ClothingItem> {
    seq(|items|, k requires 0 <= k < |items| => if items[k].id == item.id then item else items[k])
  }

  /** `ClothingItem.findByIdAndUpdate(id, update, { new: true })`: the updated
      document, or null when there is none. */
  function UpdateItemById(s: State, id: ObjectId, u: Update): (r: Step<Option<ClothingItem>>)
    ensures r.value.None? <==> FindItem(s.items, id).None?
    ensures r.value.None? ==> r.after == s
    ensures r.value.Some? ==>
      && r.value.value == ApplyUpdate(FindItem(s.items, id).value, u)
      && r.after == s.(items := ReplaceItem(s.items, r.value.value))
  {
    match FindItem(s.items, id)
    case None => Step(None, s)
    case Some(it) =>
      var updated := ApplyUpdate(it, u);
      Step(Some(updated), s.(items := ReplaceItem(s.items, updated)))
  }

  /** The collection without the documents whose id is `id`. */
  function RemoveId(items: seq<ClothingItem>, id: ObjectId): seq<ClothingItem> {
    if items == [] then []
    else (if items[0].id == id then [] else [items[0]]) + RemoveId(items[1..], id)
  }

  /** `ClothingItem.findByIdAndDelete(id)`. */
  function RemoveItem(s: State, id: ObjectId): State {
    s.(items := RemoveId(s.items, id))
  }

  /** `User.create({ name, email, password })`: the setters normalise the
      email, the required validator rejects an email that is empty after them,
      and the unique index rejects an email already stored. */
  function InsertUser(s: State, name: Option<string>, email: string, password: Option<string>)
    : (r: Step<Result<ObjectId, StoreError>>)
    ensures r.value.Err? ==> r.after == s
    ensures r.value == Err(ValidationError) <==> NormalizeEmail(email) == ""
    ensures r.value == Err(DuplicateKey) <==> NormalizeEmail(email) != "" && EmailTaken(s.users, NormalizeEmail(email))
    ensures r.value.Ok? ==> var id := r.value.value;
      && id == FreshId(s)
      && r.after == State(s.users[id := User(name, NormalizeEmail(email), password, None, None, [])], s.items, id + 1)
  {
    var e := NormalizeEmail(email);
    if e == "" then Step(Err(ValidationError), s)
    else if EmailTaken(s.users, e) then Step(Err(DuplicateKey), s)
    else
      var id := FreshId(s);
      Step(Ok(id), State(s.users[id := User(name, e, password, None, None, [])], s.items, id + 1))
  }

  // ---------------------------------------------------------------------------
  // The store invariant

  ghost predicate DistinctIds(items: seq<ClothingItem>) {
    forall i, j :: 0 <= i < j < |items| ==> items[i].id != items[j].id
  }

  /** Every item id and every user id is below the counter. */
  ghost predicate IdsBelow(s: State) {
    && (forall it :: it in s.items ==> it.id < s.nextId)
    && (forall u :: u in s.users ==> u < s.nextId)
  }

  /** Stored users are well formed and their emails are unique. */
  ghost predicate UsersValid(users: map<ObjectId, User>) {
    (forall u :: u in users ==> WellFormed(users[u])) && UniqueEmails(users)
  }

  /** Each user's `clothingItems` lists exactly the ids of the items the user
      owns, in collection order. */
  ghost predicate BackRefs(s: State) {
    forall u :: u in s.users ==> s.users[u].clothingItems == OwnedIds(s.items, u)
  }

  /** What holds between requests: item ids are distinct, every id is below
      the counter, stored users are well formed with unique emails, and the
      back-reference lists are exact. */
  ghost predicate Consistent(s: State) {
    DistinctIds(s.items) && IdsBelow(s) && UsersValid(s.users) && BackRefs(s)
  }

  /** The two maps hold the same users up to their `clothingItems` lists. */
  ghost predicate SameProfiles(a: map<ObjectId, User>, b: map<ObjectId, User>) {
    && a.Keys == b.Keys
    && forall u :: u in a ==> b[u] == a[u].(clothingItems := b[u].clothingItems)
  }

  lemma SameProfilesValid(a: map<ObjectId, User>, b: map<ObjectId, User>)
    requires SameProfiles(a, b) && UsersValid(a)
    ensures UsersValid(b)
  {
    forall u | u in b ensures WellFormed(b[u]) {
      assert b[u].email == a[u].email;
      assert WellFormed(a[u]);
    }
    forall x, y | x in b && y in b && x != y ensures b[x].email != b[y].email {
      assert b[x].email == a[x].email && b[y].email == a[y].email;
    }
  }

  lemma EmptyConsistent()
    ensures Consistent(State(map[], [], 0))
  {
  }

  // ---------------------------------------------------------------------------
  // Facts about the back-reference lists

  lemma {:induction false} OwnedIdsAppend(items: seq<ClothingItem>, x: ClothingItem, u: ObjectId)
    ensures OwnedIds(items + [x], u) == OwnedIds(items, u) + (if x.owner == u then [x.id] else [])
  {
    if items == [] {
      assert OwnedIds([x], u) == (if x.owner == u then [x.id] else []) + OwnedIds([], u);
    } else {
      var head := if items[0].owner == u then [items[0].id] else [];
      var tail := if x.owner == u then [x.id] else [];
      assert (items + [x])[0] == items[0];
      assert (items + [x])[1..] == items[1..] + [x];
      assert OwnedIds(items + [x], u) == head + OwnedIds(items[1..] + [x], u);
      OwnedIdsAppend(items[1..], x, u);
      assert OwnedIds(items, u) == head + OwnedIds(items[1..], u);
      assert head + (OwnedIds(items[1..], u) + tail) == (head + OwnedIds(items[1..], u)) + tail;
    }
  }

  lemma {:induction false} OwnedIdsOfNonOwner(items: seq<ClothingItem>, u: ObjectId)
    requires forall it :: it in items ==> it.owner != u
    ensures OwnedIds(items, u) == []
  {
    if items != [] {
      OwnedIdsOfNonOwner(items[1..], u);
    }
  }

  lemma {:induction false} OwnedIdsHasOwned(items: seq<ClothingItem>, u: ObjectId, it: ClothingItem)
    requires it in items && it.owner == u
    ensures it.id in OwnedIds(items, u)
  {
    if items[0] != it {
      OwnedIdsHasOwned(items[1..], u, it);
    }
  }

  lemma {:induction false} OwnedIdsLacksOthers(items: seq<ClothingItem>, u: ObjectId, id: ObjectId)
    requires forall it :: it in items && it.id == id ==> it.owner != u
    ensures id !in OwnedIds(items, u)
  {
    if items != [] {
      assert items[0] in items;
      OwnedIdsLacksOthers(items[1..], u, id);
    }
  }

  lemma {:induction false} RemoveAllAbsent(ids: seq<ObjectId>, x: ObjectId)
    requires x !in ids
    ensures RemoveAll(ids, x) == ids
  {
    if ids != [] {
      RemoveAllAbsent(ids[1..], x);
      assert ids == [ids[0]] + ids[1..];
    }
  }

  /** `$pull` keeps exactly the other ids. */
  lemma {:induction false} RemoveAllMember(ids: seq<ObjectId>, x: ObjectId, y: ObjectId)
    ensures y in RemoveAll(ids, x) <==> y in ids && y != x
  {
    if ids != [] {
      RemoveAllMember(ids[1..], x, y);
      assert ids == [ids[0]] + ids[1..];
    }
  }

  /** Deleting by id keeps exactly the documents with other ids. */
  lemma {:induction false} RemoveIdMember(items: seq<ClothingItem>, id: ObjectId, it: ClothingItem)
    ensures it in RemoveId(items, id) <==> it in items && it.id != id
  {
    if items != [] {
      RemoveIdMember(items[1..], id, it);
      assert items == [items[0]] + items[1..];
    }
  }

  /** Removing the documents with an id removes that id from every owner's list. */
  lemma {:induction false} OwnedIdsRemove(items: seq<ClothingItem>, id: ObjectId, u: ObjectId)
    ensures OwnedIds(RemoveId(items, id), u) == RemoveAll(OwnedIds(items, u), id)
  {
    if items != [] {
      var x, rest := items[0], items[1..];
      OwnedIdsRemove(rest, id, u);
      var kept := RemoveId(rest, id);
      var owned := OwnedIds(rest, u);
      if x.owner == u {
        var l := [x.id] + owned;
        assert OwnedIds(items, u) == l;
        assert l[0] == x.id && l[1..] == owned;
      } else {
        assert OwnedIds(items, u) == owned;
      }
      if x.id == id {
        assert RemoveId(items, id) == kept;
      } else {
        var k := [x] + kept;
        assert RemoveId(items, id) == k;
        assert k[0] == x && k[1..] == kept;
      }
    }
  }

  lemma {:induction false} OwnedIdsReplace(items: seq<ClothingItem>, item: ClothingItem, u: ObjectId)
    requires forall it :: it in items && it.id == item.id ==> it.owner == item.owner
    ensures OwnedIds(ReplaceItem(items, item), u) == OwnedIds(items, u)
  {
    if items != [] {
      var r := ReplaceItem(items, item);
      assert r[1..] == ReplaceItem(items[1..], item);
      assert items[0] in items;
      OwnedIdsReplace(items[1..], item, u);
    }
  }

  lemma {:induction false} RemoveIdKeepsDistinct(items: seq<ClothingItem>, id: ObjectId)
    requires DistinctIds(items)
    ensures DistinctIds(RemoveId(items, id))
  {
    if items != [] {
      assert DistinctIds(items[1..]) by {
        forall i, j | 0 <= i < j < |items[1..]| ensures items[1..][i].id != items[1..][j].id {
          assert items[1..][i] == items[i + 1] && items[1..][j] == items[j + 1];
        }
      }
      RemoveIdKeepsDistinct(items[1..], id);
      var rest := RemoveId(items[1..], id);
      if items[0].id != id {
        var r := [items[0]] + rest;
        assert forall it :: it in items[1..] ==> it.id != items[0].id by {
          forall it | it in items[1..] ensures it.id != items[0].id {
            var j :| 0 <= j < |items[1..]| && items[1..][j] == it;
            assert items[j + 1] == it;
          }
        }
        forall i, j | 0 <= i < j < |r| ensures r[i].id != r[j].id {
          if i == 0 {
            assert r[j] == rest[j - 1] && r[j] in rest;
            RemoveIdMember(items[1..], id, r[j]);
          } else {
            assert r[i] == rest[i - 1] && r[j] == rest[j - 1];
          }
        }
      }
    }
  }

  lemma FreshIdIsFresh(s: State)
    requires Consistent(s)
    ensures FreshId(s) !in s.users
    ensures forall it :: it in s.items ==> it.id != FreshId(s) && it.owner != FreshId(s)
  {
  }

  lemma {:induction false} FindItemUnique(items: seq<ClothingItem>, it: ClothingItem)
    requires DistinctIds(items) && it in items
    ensures FindItem(items, it.id) == Some(it)
  {
    if items[0] != it {
      assert it in items[1..];
      var j :| 0 <= j < |items[1..]| && items[1..][j] == it;
      assert items[j + 1] == it;
      assert DistinctIds(items[1..]) by {
        forall i, k | 0 <= i < k < |items[1..]| ensures items[1..][i].id != items[1..][k].id {
          assert items[1..][i] == items[i + 1] && items[1..][k] == items[k + 1];
        }
      }
      FindItemUnique(items[1..], it);
    }
  }

  // ---------------------------------------------------------------------------
  // The handlers' write sequences keep the invariant

  lemma AppendKeepsDistinct(items: seq<ClothingItem>, it: ClothingItem)
    requires DistinctIds(items) && forall x :: x in items ==> x.id != it.id
    ensures DistinctIds(items + [it])
  {
    var t := items + [it];
    forall i, j | 0 <= i < j < |t| ensures t[i].id != t[j].id {
      if j == |items| {
        assert t[i] in items;
      } else {
        assert t[i] == items[i] && t[j] == items[j];
      }
    }
  }

  lemma PushKeepsBackRefs(s: State, it: ClothingItem)
    requires BackRefs(s)
    ensures BackRefs(PushItemRef(State(s.users, s.items + [it], it.id + 1), it.owner, it.id))
  {
    var t := PushItemRef(State(s.users, s.items + [it], it.id + 1), it.owner, it.id);
    forall u | u in t.users ensures t.users[u].clothingItems == OwnedIds(t.items, u) {
      OwnedIdsAppend(s.items, it, u);
    }
  }

  /** Inserting an item and then pushing its id onto the owner's list keeps
      the store consistent. */
  lemma InsertThenPushConsistent(s: State, name: string, category: string, color: string,
                                 brand: Option<string>, imageUrl: Option<string>, owner: ObjectId)
    requires Consistent(s)
    requires InsertItem(s, name, category, color, brand, imageUrl, owner).value.Ok?
    ensures var st := InsertItem(s, name, category, color, brand, imageUrl, owner);
      Consistent(PushItemRef(st.after, owner, st.value.value.id))
  {
    var st := InsertItem(s, name, category, color, brand, imageUrl, owner);
    var it := st.value.value;
    var t := PushItemRef(st.after, owner, it.id);
    FreshIdIsFresh(s);
    AppendKeepsDistinct(s.items, it);
    PushKeepsBackRefs(s, it);
    PushKeepsProfiles(st.after, owner, it.id);
    SameProfilesValid(s.users, t.users);
    InsertKeepsIdsBelow(s, it);
  }

  lemma PushKeepsProfiles(s: State, userId: ObjectId, itemId: ObjectId)
    ensures SameProfiles(s.users, PushItemRef(s, userId, itemId).users)
  {
  }

  lemma InsertKeepsIdsBelow(s: State, it: ClothingItem)
    requires IdsBelow(s) && s.nextId <= it.id
    ensures IdsBelow(PushItemRef(State(s.users, s.items + [it], it.id + 1), it.owner, it.id))
  {
    var t := PushItemRef(State(s.users, s.items + [it], it.id + 1), it.owner, it.id);
    assert t.items == s.items + [it] && t.nextId == it.id + 1 && t.users.Keys == s.users.Keys;
    forall x | x in t.items ensures x.id < t.nextId {
      if x != it {
        assert x in s.items;
      }
    }
  }

  /** Between the two writes of a create the invariant does not hold: the
      owner's list misses the new id until the push has happened. */
  lemma InsertAloneBreaksConsistency(s: State, name: string, category: string, color: string,
                                     brand: Option<string>, imageUrl: Option<string>, owner: ObjectId)
    requires Consistent(s) && owner in s.users
    requires InsertItem(s, name, category, color, brand, imageUrl, owner).value.Ok?
    ensures !Consistent(InsertItem(s, name, category, color, brand, imageUrl, owner).after)
  {
    var st := InsertItem(s, name, category, color, brand, imageUrl, owner);
    var it := st.value.value;
    OwnedIdsAppend(s.items, it, owner);
    assert |OwnedIds(st.after.items, owner)| == |s.users[owner].clothingItems| + 1;
  }

  lemma PullKeepsBackRefs(s: State, id: ObjectId, owner: ObjectId)
    requires BackRefs(s) && DistinctIds(s.items)
    requires FindItem(s.items, id).Some? && FindItem(s.items, id).value.owner == owner
    ensures BackRefs(PullItemRef(RemoveItem(s, id), owner, id))
  {
    var t := PullItemRef(RemoveItem(s, id), owner, id);
    forall u | u in t.users ensures t.users[u].clothingItems == OwnedIds(t.items, u) {
      OwnedIdsRemove(s.items, id, u);
      if u != owner {
        forall it | it in s.items && it.id == id ensures it.owner != u {
          FindItemUnique(s.items, it);
        }
        OwnedIdsLacksOthers(s.items, u, id);
        RemoveAllAbsent(OwnedIds(s.items, u), id);
      }
    }
  }

  /** Deleting an item and then pulling its id from its owner's list keeps
      the store consistent. */
  lemma RemoveThenPullConsistent(s: State, id: ObjectId, owner: ObjectId)
    requires Consistent(s)
    requires FindItem(s.items, id).Some? && FindItem(s.items, id).value.owner == owner
    ensures Consistent(PullItemRef(RemoveItem(s, id), owner, id))
  {
    var t := PullItemRef(RemoveItem(s, id), owner, id);
    RemoveIdKeepsDistinct(s.items, id);
    RemoveKeepsIdsBelow(s, id, owner);
    PullKeepsBackRefs(s, id, owner);
    PullKeepsProfiles(RemoveItem(s, id), owner, id);
    SameProfilesValid(s.users, t.users);
  }

  lemma RemoveKeepsIdsBelow(s: State, id: ObjectId, owner: ObjectId)
    requires IdsBelow(s)
    ensures IdsBelow(PullItemRef(RemoveItem(s, id), owner, id))
  {
    var t := PullItemRef(RemoveItem(s, id), owner, id);
    assert t.items == RemoveId(s.items, id) && t.nextId == s.nextId;
    forall it | it in t.items ensures it.id < t.nextId {
      RemoveIdMember(s.items, id, it);
    }
  }

  lemma PullKeepsProfiles(s: State, userId: ObjectId, itemId: ObjectId)
    ensures SameProfiles(s.users, PullItemRef(s, userId, itemId).users)
  {
  }

  /** Between the two writes of a delete the invariant does not hold: the
      owner's list still names the deleted item. */
  lemma RemoveAloneBreaksConsistency(s: State, id: ObjectId, owner: ObjectId)
    requires Consistent(s) && owner in s.users
    requires FindItem(s.items, id).Some? && FindItem(s.items, id).value.owner == owner
    ensures !Consistent(RemoveItem(s, id))
  {
    var found := FindItem(s.items, id).value;
    OwnedIdsHasOwned(s.items, owner, found);
    OwnedIdsRemove(s.items, id, owner);
    RemoveAllMember(OwnedIds(s.items, owner), id, id);
    assert id !in OwnedIds(RemoveItem(s, id).items, owner);
  }

  /** An update keeps the store consistent: ids and owners do not change. */
  lemma UpdateConsistent(s: State, id: ObjectId, u: Update)
    requires Consistent(s)
    ensures Consistent(UpdateItemById(s, id, u).after)
  {
    var st := UpdateItemById(s, id, u);
    if st.value.Some? {
      var old_ := FindItem(s.items, id).value;
      var n := st.value.value;
      forall it | it in s.items && it.id == n.id ensures it.owner == n.owner {
        FindItemUnique(s.items, it);
      }
      forall v | v in s.users ensures s.users[v].clothingItems == OwnedIds(st.after.items, v) {
        OwnedIdsReplace(s.items, n, v);
      }
      forall x | x in st.after.items ensures x.id < s.nextId {
        var k :| 0 <= k < |st.after.items| && st.after.items[k] == x;
        assert s.items[k] in s.items;
      }
    }
  }

  /** Registering a user keeps the store consistent. */
  lemma InsertUserConsistent(s: State, name: Option<string>, email: string, password: Option<string>)
    requires Consistent(s)
    ensures Consistent(InsertUser(s, name, email, password).after)
  {
    var st := InsertUser(s, name, email, password);
    if st.value.Ok? {
      var id := st.value.value;
      FreshIdIsFresh(s);
      OwnedIdsOfNonOwner(s.items, id);
      NormalizeEmailIdempotent(email);
      AddUserConsistent(s, id, User(name, NormalizeEmail(email), password, None, None, []));
    }
  }

  lemma AddUserConsistent(s: State, id: ObjectId, u: User)
    requires Consistent(s) && s.nextId <= id && OwnedIds(s.items, id) == []
    requires WellFormed(u) && !EmailTaken(s.users, u.email) && u.clothingItems == []
    ensures Consistent(State(s.users[id := u], s.items, id + 1))
  {
    AddUserKeepsUnique(s.users, id, u);
  }

  lemma AddUserKeepsUnique(users: map<ObjectId, User>, id: ObjectId, u: User)
    requires UniqueEmails(users) && !EmailTaken(users, u.email)
    ensures UniqueEmails(users[id := u])
  {
    var t := users[id := u];
    forall a, b | a in t && b in t && a != b
      ensures t[a].email != t[b].email
    {
      if a != id && b != id {
        assert t[a] == users[a] && t[b] == users[b];
      } else if a == id {
        assert b in users;
      } else {
        assert a in users;
      }
    }
  }

  // ---------------------------------------------------------------------------
  // The store object

  class Database {
    var users: map<ObjectId, User>
    var items: seq<ClothingItem>
    var nextId: nat

    function Snapshot(): State
      reads this
    {
      State(users, items, nextId)
    }

    ghost predicate Valid()
      reads this
    {
      Consistent(Snapshot())
    }

    /** An empty database. */
    constructor ()
      ensures Snapshot() == State(map[], [], 0)
      ensures Valid()
    {
      users := map[];
      items := [];
      nextId := 0;
      EmptyConsistent();
    }

    method FindItems(owner: ObjectId) returns (r: seq<ClothingItem>)
      ensures r == OwnedItems(items, owner)
    {
      r := OwnedItems(items, owner);
    }

    method FindItemById(id: ObjectId) returns (r: Option<ClothingItem>)
      ensures r == FindItem(items, id)
    {
      r := FindItem(items, id);
    }

    method FindUserByEmail(email: string) returns (r: Option<ObjectId>)
      requires UniqueEmails(users)
      ensures r == UserByEmail(users, email)
    {
      r := UserByEmail(users, email);
    }

    method CreateItem(name: string, category: string, color: string,
                      brand: Option<string>, imageUrl: Option<string>, owner: ObjectId)
      returns (r: Result<ClothingItem, StoreError>)
      modifies this
      ensures var st := InsertItem(old(Snapshot()), name, category, color, brand, imageUrl, owner);
        r == st.value && Snapshot() == st.after
    {
      var it := ClothingItem(FreshId(Snapshot()), name, category, color, brand, imageUrl, owner);
      if !Conforms(it) {
        r := Err(ValidationError);
        return;
      }
      items := items + [it];
      nextId := it.id + 1;
      r := Ok(it);
    }

    method PushRef(userId: ObjectId, itemId: ObjectId)
      modifies this
      ensures Snapshot() == PushItemRef(old(Snapshot()), userId, itemId)
    {
      if userId in users {
        var u := users[userId];
        users := users[userId := u.(clothingItems := u.clothingItems + [itemId])];
      }
    }

    method UpdateItem(id: ObjectId, u: Update) returns (r: Option<ClothingItem>)
      modifies this
      ensures var st := UpdateItemById(old(Snapshot()), id, u);
        r == st.value && Snapshot() == st.after
    {
      var found := FindItem(items, id);
      if found.None? {
        return None;
      }
      var updated := ApplyUpdate(found.value, u);
      items := ReplaceItem(items, updated);
      r := Some(updated);
    }

    method DeleteItem(id: ObjectId)
      modifies this
      ensures Snapshot() == RemoveItem(old(Snapshot()), id)
    {
      items := RemoveId(items, id);
    }

    method PullRef(userId: ObjectId, itemId: ObjectId)
      modifies this
      ensures Snapshot() == PullItemRef(old(Snapshot()), userId, itemId)
    {
      if userId in users {
        var u := users[userId];
        users := users[userId := u.(clothingItems := RemoveAll(u.clothingItems, itemId))];
      }
    }

    method CreateUser(name: Option<string>, email: string, password: Option<string>)
      returns (r: Result<ObjectId, StoreError>)
      modifies this
      ensures var st := InsertUser(old(Snapshot()), name, email, password);
        r == st.value && Snapshot() == st.after
    {
      var e := NormalizeEmail(email);
      if e == "" {
        return Err(ValidationError);
      }
      if EmailTaken(users, e) {
        return Err(DuplicateKey);
      }
      var id := FreshId(Snapshot());
      users := users[id := User(name, e, password, None, None, [])];
      nextId := id + 1;
      r := Ok(id);
    }
  }
}
