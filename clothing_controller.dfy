/** The four clothing handlers. Each runs behind the bearer-token guard, so
    the caller is the payload the guard admitted. */
module ClothingController {
  import opened Common
  import opened ClothingModel
  import opened Crypto
  import opened Http
  import opened Store

  /** The body fields the handlers read; `None` is a missing field. */
  datatype ItemFields = ItemFields(
    name: Option<string>, category: Option<string>, color: Option<string>, brand: Option<string>)

  /** The file the upload middleware stored, by the path it reports. */
  datatype UploadedFile = UploadedFile(path: string)

  const MissingFieldsResponse: Response := Response(BadRequest, Message("Name, category, and color are required"))
  const NotFoundResponse: Response := Response(NotFound, Message("Clothing item not found"))
  const UpdateForbiddenResponse: Response := Response(Forbidden, Message("User not authorized to update this item"))
  const DeleteForbiddenResponse: Response := Response(Forbidden, Message("User not authorized to delete this item"))

  // ---------------------------------------------------------------------------
  // The image URL

  /** `path.replace(/\\/g, "/")`. */
  function ForwardSlashes(path: string): string {
    seq(|path|, k requires 0 <= k < |path| => if path[k] == '\\' then '/' else path[k])
  }

  /** The URL stored for an uploaded file: a slash, then the path with every
      backslash turned into a slash. */
  function ImageUrl(path: string): (url: string)
    ensures |url| == |path| + 1 && url[0] == '/'
    ensures '\\' !in url
    ensures forall k :: 0 <= k < |path| && path[k] != '\\' ==> url[k + 1] == path[k]
    ensures forall k :: 0 <= k < |path| && path[k] == '\\' ==> url[k + 1] == '/'
  {
    "/" + ForwardSlashes(path)
  }

  /** The URL of a path that already uses forward slashes is the path with a slash in front. */
  lemma ImageUrlOfPosixPath(path: string)
    requires '\\' !in path
    ensures ImageUrl(path) == "/" + path
  {
    assert ForwardSlashes(path) == path;
  }

  /** Paths that differ only in the kind of separator give the same URL. */
  lemma ImageUrlIgnoresSeparatorKind(p: string, q: string)
    requires |p| == |q|
    requires forall k :: 0 <= k < |p| ==> p[k] == q[k] || (p[k] in "\\/" && q[k] in "\\/")
    ensures ImageUrl(p) == ImageUrl(q)
  {
    assert ForwardSlashes(p) == ForwardSlashes(q);
  }

  /** `req.file ? … : null`. */
  function ImageUrlFor(file: Option<UploadedFile>): Option<string> {
    if file.Some? then Some(ImageUrl(file.value.path)) else None
  }

  /** `dataToUpdate`: the four body fields, and the image URL only when a file came. */
  function UpdateFor(body: ItemFields, file: Option<UploadedFile>): (u: Update)
    ensures u.name == body.name && u.category == body.category
    ensures u.color == body.color && u.brand == body.brand
    ensures u.imageUrl.Some? <==> file.Some?
    ensures file.Some? ==> u.imageUrl == Some(ImageUrl(file.value.path))
  {
    Update(body.name, body.category, body.color, body.brand, ImageUrlFor(file))
  }

  predicate HasRequiredFields(body: ItemFields) {
    Present(body.name) && Present(body.category) && Present(body.color)
  }

  // ---------------------------------------------------------------------------
  // The handlers as functions of the store

  /** `getClothingItems`: the caller's items, listed in the model's insertion order (the query has no sort, so the source promises no order). */
  function ListOutcome(s: State, caller: Claims): (r: Response)
    ensures r.status == OK && r.body.Items?
    ensures forall it :: it in r.body.items <==> it in s.items && it.owner == caller.userId
  {
    Response(OK, Items(OwnedItems(s.items, caller.userId)))
  }

  /** `createClothingItem`: check the required fields, create the item owned
      by the caller, push its id onto the caller's list. A schema validation
      error (a category outside the enum) becomes 500 before anything is written. */
  function CreateOutcome(s: State, caller: Claims, body: ItemFields, file: Option<UploadedFile>)
    : (r: Step<Response>)
    ensures r.value == MissingFieldsResponse <==> !HasRequiredFields(body)
    ensures r.value == ServerError <==> HasRequiredFields(body) && ParseCategory(body.category.value).None?
    ensures r.value.status == Created <==> HasRequiredFields(body) && ParseCategory(body.category.value).Some?
    ensures r.value.status != Created ==> r.after == s
    ensures r.value.status == Created ==>
      var it := ClothingItem(FreshId(s), body.name.value, body.category.value, body.color.value,
                             body.brand, ImageUrlFor(file), caller.userId);
      && HasRequiredFields(body) && Conforms(it)
      && r.value.body == Item(it)
      && r.after == PushItemRef(State(s.users, s.items + [it], it.id + 1), caller.userId, it.id)
  {
    var imageUrl := ImageUrlFor(file);
    if !HasRequiredFields(body) then Step(MissingFieldsResponse, s)
    else
      var st := InsertItem(s, body.name.value, body.category.value, body.color.value,
                           body.brand, imageUrl, caller.userId);
      match st.value
      case Err(_) => Step(ServerError, s)
      case Ok(it) => Step(Response(Created, Item(it)), PushItemRef(st.after, caller.userId, it.id))
  }

  /** `updateClothingItem`: 404 when there is no such item, 403 when the
      caller does not own it, otherwise the supplied fields are set and the
      updated document is returned. */
  function UpdateOutcome(s: State, caller: Claims, id: ObjectId, body: ItemFields,
                         file: Option<UploadedFile>): (r: Step<Response>)
    ensures r.value == NotFoundResponse <==> FindItem(s.items, id).None?
    ensures r.value == UpdateForbiddenResponse <==>
      FindItem(s.items, id).Some? && FindItem(s.items, id).value.owner != caller.userId
    ensures r.value.status == OK <==>
      FindItem(s.items, id).Some? && FindItem(s.items, id).value.owner == caller.userId
    ensures r.value.status != OK ==> r.after == s
    ensures r.value.status == OK ==>
      var old_ := FindItem(s.items, id).value;
      var updated := ApplyUpdate(old_, UpdateFor(body, file));
      && old_.owner == caller.userId
      && r.value.body == Item(updated)
      && r.after == s.(items := ReplaceItem(s.items, updated))
  {
    match FindItem(s.items, id)
    case None => Step(NotFoundResponse, s)
    case Some(it) =>
      if it.owner != caller.userId then Step(UpdateForbiddenResponse, s)
      else
        var st := UpdateItemById(s, id, UpdateFor(body, file));
        Step(Response(OK, Item(st.value.value)), st.after)
  }

  /** `deleteClothingItem`: 404 when there is no such item, 403 when the
      caller does not own it, otherwise the item is deleted and its id pulled
      from the caller's list. */
  function DeleteOutcome(s: State, caller: Claims, id: ObjectId): (r: Step<Response>)
    ensures r.value == NotFoundResponse <==> FindItem(s.items, id).None?
    ensures r.value == DeleteForbiddenResponse <==>
      FindItem(s.items, id).Some? && FindItem(s.items, id).value.owner != caller.userId
    ensures r.value.status == NoContentStatus <==>
      FindItem(s.items, id).Some? && FindItem(s.items, id).value.owner == caller.userId
    ensures r.value.status != NoContentStatus ==> r.after == s
    ensures r.value.status == NoContentStatus ==>
      && r.value.body == NoContent
      && FindItem(s.items, id).value.owner == caller.userId
      && r.after == PullItemRef(RemoveItem(s, id), caller.userId, id)
  {
    match FindItem(s.items, id)
    case None => Step(NotFoundResponse, s)
    case Some(it) =>
      if it.owner != caller.userId then Step(DeleteForbiddenResponse, s)
      else Step(Response(NoContentStatus, NoContent), PullItemRef(RemoveItem(s, id), caller.userId, it.id))
  }

  // ---------------------------------------------------------------------------
  // The handlers on the database

  /** `GET /api/clothing`. It has no `modifies` clause: listing writes nothing. */
  method GetClothingItems(db: Database, caller: Claims) returns (resp: Response)
    ensures resp == ListOutcome(db.Snapshot(), caller)
  {
    var items := db.FindItems(caller.userId);
    resp := Response(OK, Items(items));
  }

  /** `POST /api/clothing`. */
  method CreateClothingItem(db: Database, caller: Claims, body: ItemFields, file: Option<UploadedFile>)
    returns (resp: Response)
    modifies db
    requires db.Valid()
    ensures var r := CreateOutcome(old(db.Snapshot()), caller, body, file);
      resp == r.value && db.Snapshot() == r.after
    ensures db.Valid()
  {
    ghost var s := db.Snapshot();
    var imageUrl := if file.Some? then Some(ImageUrl(file.value.path)) else None;
    if !Present(body.name) || !Present(body.category) || !Present(body.color) {
      return MissingFieldsResponse;
    }
    var created := db.CreateItem(body.name.value, body.category.value, body.color.value,
                                 body.brand, imageUrl, caller.userId);
    if created.Err? {
      return ServerError;
    }
    var newItem := created.value;
    db.PushRef(caller.userId, newItem.id);
    InsertThenPushConsistent(s, body.name.value, body.category.value, body.color.value,
                             body.brand, imageUrl, caller.userId);
    resp := Response(Created, Item(newItem));
  }

  /** `PUT /api/clothing/:id`. */
  method UpdateClothingItem(db: Database, caller: Claims, id: ObjectId, body: ItemFields,
                            file: Option<UploadedFile>)
    returns (resp: Response)
    modifies db
    requires db.Valid()
    ensures var r := UpdateOutcome(old(db.Snapshot()), caller, id, body, file);
      resp == r.value && db.Snapshot() == r.after
    ensures db.Valid()
  {
    ghost var s := db.Snapshot();
    var dataToUpdate := Update(body.name, body.category, body.color, body.brand, None);
    if file.Some? {
      dataToUpdate := dataToUpdate.(imageUrl := Some(ImageUrl(file.value.path)));
    }
    assert dataToUpdate == UpdateFor(body, file);
    var item := db.FindItemById(id);
    if item.None? {
      return NotFoundResponse;
    }
    if item.value.owner != caller.userId {
      return UpdateForbiddenResponse;
    }
    var updatedItem := db.UpdateItem(id, dataToUpdate);
    UpdateConsistent(s, id, dataToUpdate);
    resp := Response(OK, Item(updatedItem.value));
  }

  /** `DELETE /api/clothing/:id`. */
  method DeleteClothingItem(db: Database, caller: Claims, id: ObjectId) returns (resp: Response)
    modifies db
    requires db.Valid()
    ensures var r := DeleteOutcome(old(db.Snapshot()), caller, id);
      resp == r.value && db.Snapshot() == r.after
    ensures db.Valid()
  {
    ghost var s := db.Snapshot();
    var item := db.FindItemById(id);
    if item.None? {
      return NotFoundResponse;
    }
    if item.value.owner != caller.userId {
      return DeleteForbiddenResponse;
    }
    db.DeleteItem(id);
    db.PullRef(caller.userId, item.value.id);
    RemoveThenPullConsistent(s, id, caller.userId);
    resp := Response(NoContentStatus, NoContent);
  }

  // ---------------------------------------------------------------------------
  // Properties

  /** An update of a missing item is answered 404 for every caller, owner
      or not, whatever the body, and nothing is written. */
  lemma UpdateMissingItemNotFound(s: State, caller: Claims, id: ObjectId, body: ItemFields,
                                  file: Option<UploadedFile>)
    requires FindItem(s.items, id).None?
    ensures UpdateOutcome(s, caller, id, body, file) == Step(NotFoundResponse, s)
  {
  }

  /** A delete of a missing item is answered 404 for every caller, and
      nothing is written. */
  lemma DeleteMissingItemNotFound(s: State, caller: Claims, id: ObjectId)
    requires FindItem(s.items, id).None?
    ensures DeleteOutcome(s, caller, id) == Step(NotFoundResponse, s)
  {
  }

  /** An update by a caller who does not own the item is answered 403 and
      leaves items and user lists alone, whatever the body. */
  lemma UpdateByNonOwnerChangesNothing(s: State, caller: Claims, id: ObjectId, body: ItemFields,
                                       file: Option<UploadedFile>)
    requires FindItem(s.items, id).Some? && FindItem(s.items, id).value.owner != caller.userId
    ensures UpdateOutcome(s, caller, id, body, file) == Step(UpdateForbiddenResponse, s)
  {
  }

  /** A delete by a caller who does not own the item is answered 403 and
      leaves items and user lists alone. */
  lemma DeleteByNonOwnerChangesNothing(s: State, caller: Claims, id: ObjectId)
    requires FindItem(s.items, id).Some? && FindItem(s.items, id).value.owner != caller.userId
    ensures DeleteOutcome(s, caller, id) == Step(DeleteForbiddenResponse, s)
  {
  }

  /** Create keeps the store consistent: the new id reaches the caller's list. */
  lemma CreateKeepsConsistency(s: State, caller: Claims, body: ItemFields, file: Option<UploadedFile>)
    requires Consistent(s)
    ensures Consistent(CreateOutcome(s, caller, body, file).after)
  {
    if HasRequiredFields(body) {
      var st := InsertItem(s, body.name.value, body.category.value, body.color.value,
                           body.brand, ImageUrlFor(file), caller.userId);
      if st.value.Ok? {
        InsertThenPushConsistent(s, body.name.value, body.category.value, body.color.value,
                                 body.brand, ImageUrlFor(file), caller.userId);
      }
    }
  }

  /** Update keeps the store consistent. */
  lemma UpdateKeepsConsistency(s: State, caller: Claims, id: ObjectId, body: ItemFields,
                               file: Option<UploadedFile>)
    requires Consistent(s)
    ensures Consistent(UpdateOutcome(s, caller, id, body, file).after)
  {
    UpdateConsistent(s, id, UpdateFor(body, file));
  }

  /** Delete keeps the store consistent: the id leaves the owner's list. */
  lemma DeleteKeepsConsistency(s: State, caller: Claims, id: ObjectId)
    requires Consistent(s)
    ensures Consistent(DeleteOutcome(s, caller, id).after)
  {
    if FindItem(s.items, id).Some? && FindItem(s.items, id).value.owner == caller.userId {
      RemoveThenPullConsistent(s, id, caller.userId);
    }
  }

  /** A successful update sets exactly the supplied fields of the one item
      with that id; its id and owner stay, and every other item is untouched. */
  lemma UpdateChangesOnlyThatItem(s: State, caller: Claims, id: ObjectId, body: ItemFields,
                                  file: Option<UploadedFile>)
    requires UpdateOutcome(s, caller, id, body, file).value.status == OK
    ensures var before := FindItem(s.items, id).value;
      var after := UpdateOutcome(s, caller, id, body, file).after;
      && after.users == s.users && |after.items| == |s.items|
      && (forall k :: 0 <= k < |s.items| && s.items[k].id != id ==> after.items[k] == s.items[k])
      && (forall k :: 0 <= k < |s.items| && s.items[k].id == id ==>
            var n := after.items[k];
            && n.id == id && n.owner == before.owner
            && n.name == body.name.GetOr(before.name)
            && n.category == body.category.GetOr(before.category)
            && n.color == body.color.GetOr(before.color)
            && n.brand == (if body.brand.Some? then body.brand else before.brand)
            && n.imageUrl == (if file.Some? then Some(ImageUrl(file.value.path)) else before.imageUrl))
  {
  }

  /** Sending the same update twice leaves the store as sending it once, and
      both answers are the same. */
  lemma {:induction false} UpdateIdempotent(s: State, caller: Claims, id: ObjectId, body: ItemFields,
                                            file: Option<UploadedFile>)
    requires Consistent(s)
    ensures var first := UpdateOutcome(s, caller, id, body, file);
      UpdateOutcome(first.after, caller, id, body, file) == first
  {
    var first := UpdateOutcome(s, caller, id, body, file);
    if first.value.status == OK {
      var before := FindItem(s.items, id).value;
      var u := UpdateFor(body, file);
      var updated := ApplyUpdate(before, u);
      var items := ReplaceItem(s.items, updated);
      FindItemUnique(s.items, before);
      var k :| 0 <= k < |s.items| && s.items[k] == before;
      assert items[k] == updated;
      assert DistinctIds(items);
      FindItemUnique(items, updated);
      ApplyUpdateIdempotent(before, u);
      assert ReplaceItem(items, updated) == items;
    }
  }

  /** A second delete of the same id finds nothing. */
  lemma DeleteTwiceNotFound(s: State, caller: Claims, id: ObjectId)
    requires DeleteOutcome(s, caller, id).value.status == NoContentStatus
    ensures var t := DeleteOutcome(s, caller, id).after;
      DeleteOutcome(t, caller, id) == Step(NotFoundResponse, t)
  {
    var t := DeleteOutcome(s, caller, id).after;
    forall it | it in t.items ensures it.id != id {
      RemoveIdMember(s.items, id, it);
    }
  }

  /** After a successful create the caller's listing is the old listing with
      the new item at the end. */
  lemma CreateThenList(s: State, caller: Claims, body: ItemFields, file: Option<UploadedFile>)
    requires CreateOutcome(s, caller, body, file).value.status == Created
    ensures var r := CreateOutcome(s, caller, body, file);
      ListOutcome(r.after, caller).body.items == ListOutcome(s, caller).body.items + [r.value.body.item]
  {
    var r := CreateOutcome(s, caller, body, file);
    OwnedItemsAppend(s.items, r.value.body.item, caller.userId);
  }

  lemma {:induction false} OwnedItemsAppend(items: seq<ClothingItem>, x: ClothingItem, owner: ObjectId)
    ensures OwnedItems(items + [x], owner) == OwnedItems(items, owner) + (if x.owner == owner then [x] else [])
  {
    if items == [] {
      assert OwnedItems([x], owner) == (if x.owner == owner then [x] else []) + OwnedItems([], owner);
    } else {
      assert (items + [x])[1..] == items[1..] + [x];
      OwnedItemsAppend(items[1..], x, owner);
    }
  }

  /** After a successful delete the item is gone from its owner's listing. */
  lemma DeleteThenList(s: State, caller: Claims, id: ObjectId)
    requires DeleteOutcome(s, caller, id).value.status == NoContentStatus
    ensures forall it :: it in ListOutcome(DeleteOutcome(s, caller, id).after, caller).body.items ==> it.id != id
  {
    var t := DeleteOutcome(s, caller, id).after;
    forall it | it in t.items ensures it.id != id {
      RemoveIdMember(s.items, id, it);
    }
  }

  /** Update runs no validator: an owner can store a category outside the enum. */
  lemma UpdateSkipsValidation()
    ensures var s := State(map[], [ClothingItem(0, "Tee", "SHIRT", "blue", None, None, 7)], 1);
      var r := UpdateOutcome(s, Claims(7), 0, ItemFields(None, Some("hat"), None, None), None);
      && r.value.status == OK
      && !Conforms(r.after.items[0])
  {
  }

  /** A category the enum does not admit is accepted by the field check and
      then refused by the schema, as a server error. */
  lemma CreateWithUnknownCategory(s: State, caller: Claims)
    ensures CreateOutcome(s, caller, ItemFields(Some("Jeans"), Some("Pants"), Some("blue"), None), None)
         == Step(ServerError, s)
  {
    assert ParseCategory("Pants").None?;
  }
}
