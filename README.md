# wardrobe-api, modelled in Dafny

wardrobe-api is an Express and Mongoose backend for a personal wardrobe.
Users register and log in with an email and a password. Login hands out a
signed session token. With that token a user lists, creates, updates and
deletes the clothing items they own, and may attach an image to an item.

This project models the request-deciding code of that backend. Its parts:

- the two schemas, ClothingItem and User (`clothing_model.dfy`, `user_model.dfy`);
- the Mongoose calls the handlers make, on an in-memory store (`store.dfy`);
- the bearer-token guard (`auth_middleware.dfy`);
- the register and login handlers (`auth_controller.dfy`);
- the four clothing handlers (`clothing_controller.dfy`);
- the upload filter and the stored file name (`upload.dfy`).

It also contains string helpers with the JavaScript meaning of `toLowerCase`,
`trim` and `split` (`strings.dfy`), the response shapes (`http.dfy`) and the
hashing and token libraries as parameters (`crypto.dfy`). Properties that span
several handlers are in `scenarios.dfy`.

## How the store is modelled

- `Store.State` holds three things:
  - the users, as a map from id to document;
  - the clothing items, as a sequence in insertion order;
  - the next free id.
- Each Mongoose call the handlers make is a pure function on `State`, for
  example `InsertItem` for `ClothingItem.create` and `PullItemRef` for the
  `$pull` update.
- The class `Store.Database` holds the state. It runs each call as one method
  whose contract is that function.
- Each handler appears twice:
  - as a module-level method that takes the `Database` as an argument and
    makes the same sequence of store calls as the source;
  - as a pure `…Outcome` function, which the method is proved to follow.

  The properties are lemmas about the `…Outcome` functions.
- The store invariant is `Store.Consistent`:
  - item ids are distinct;
  - every stored user is well formed, and emails are unique;
  - every user's `clothingItems` list equals the ids of the items that user
    owns, in collection order.

  Create and delete each write twice, and the invariant holds only after both
  writes. `Store.InsertAloneBreaksConsistency` and
  `Store.RemoveAloneBreaksConsistency` show that the state between the two
  writes breaks it.
- The handlers are modelled after the Mongoose controllers. The test files in
  the repository were written for an older revision and expect 404 for an
  unknown user at login. The controller returns 401, and the model follows the
  controller.
- The item collection is a sequence rather than a map from id to item. The
  sequence lets the back-reference invariant be an exact equality of id
  lists. The model lists items in insertion order. That order is the model's
  choice: `find({ owner })` has no sort, and MongoDB leaves the order of an
  unsorted query unspecified.

## Data model

- `ClothingModel.ClothingItem` is the ClothingItem schema (src/models/clothing.model.js:3-30). The category is kept as the string that was written. Ids and owners are natural numbers.
- `UserModel.User` is the User schema (src/models/user.model.js:3-32). `clothingItems` is the list of referenced item ids.
- `Store.State` is the database: the two collections and the next free id.

## Model

| member | source | states |
|---|---|---|
| ClothingModel.ParseCategory | src/models/clothing.model.js:8-12 | a stored category string is accepted exactly when it spells one of SHIRT, PANTS, SHOES, JACKET, ACCESSORY, OTHER, and the category it yields spells that string |
| ClothingModel.ParseCategoryName | src/models/clothing.model.js:11 | every enum value's name is accepted and yields that value |
| ClothingModel.CategoryIsCaseSensitive | src/models/clothing.model.js:11 | "PANTS" is a category and "Pants" is not |
| ClothingModel.Conforms | src/models/clothing.model.js:4-16 | an item passes the schema validators exactly when its name and color are non-empty and its category is the name of one of the enum values |
| UserModel.NormalizeEmail | src/models/user.model.js:12-13 | an email as stored and as filtered on is the input lower-cased and then trimmed; its shape and idempotence are the two lemmas below |
| UserModel.WellFormed | src/models/user.model.js:8-13 | a stored user's email is non-empty and already in normal form, which is what the required validator leaves after the setters ran |
| UserModel.UniqueEmails | src/models/user.model.js:11 | the unique index: no two stored users have the same email |
| Strings.ToLower | src/models/user.model.js:12 | `toLowerCase` on ASCII letters, every other character kept; lower-casing twice is lower-casing once (`Strings.ToLowerIdempotent`) |
| Strings.Trim | src/models/user.model.js:13 | `trim`: the result starts and ends with no white space, and it is a slice of the input with only white space cut off on either side |
| Strings.LowerTrimCommute | src/models/user.model.js:12-13 | lower-casing and trimming commute, so the order in which the two setters run does not change the stored email |
| Strings.Split | src/middlewares/auth.middleware.js:4 | `split(' ')` yields at least one field and no field contains the separator; joining the fields with the separator gives the input back (`Strings.JoinSplit`) |
| UserModel.NormalizeEmailIdempotent | src/models/user.model.js:12-13 | applying the lowercase and trim setters twice gives what applying them once gives |
| UserModel.NormalizedEmailShape | src/models/user.model.js:12-13 | a normalised email has no upper-case ASCII letter and starts and ends without white space |
| Store.Consistent | src/models/user.model.js:8-31 | the store invariant: distinct item ids below the counter, well-formed users with unique emails, and every user's `clothingItems` equal to the ids of the items that user owns, in collection order |
| Store.ErrorCode | src/controllers/auth.controller.js:31 | the thrown error's `code` is 11000 exactly for a duplicate key |
| Store.FindItem | src/controllers/clothing.controller.js:78 | `findById` yields a stored item with the asked id, or none when no stored item has that id |
| Store.OwnedItems | src/controllers/clothing.controller.js:12 | `find({ owner })` yields exactly the stored items whose owner is the given user |
| Store.OwnedItemsCount | src/controllers/clothing.controller.js:12 | each item of the owner is listed exactly as often as it is stored, and no other item is listed; with `ClothingController.OwnedItemsAppend` this fixes the listing in the model's insertion order, which the source does not promise |
| Store.UserByEmail | src/controllers/auth.controller.js:51 | `findOne({ email })` looks for the normalised email: it yields a user whose stored email equals it, or none when no stored email does |
| Store.FreshId | src/controllers/clothing.controller.js:39-42 | the id a created document gets is at least the counter and above every item's owner id |
| Store.InsertItem | src/controllers/clothing.controller.js:39-42 | `create` succeeds exactly when name and color are non-empty and the category is in the enum; on success it appends the item with the given fields, a fresh id and the caller as owner; on failure it throws a validation error and writes nothing |
| Store.PushItemRef | src/controllers/clothing.controller.js:45-48 | `$push` appends the item id to that user's `clothingItems` and changes nothing else; with no such user it writes nothing; together with the create it keeps the back-references exact (`Store.PushKeepsBackRefs`) |
| Store.RemoveAll | src/controllers/clothing.controller.js:124 | `$pull` removes every occurrence of the id from the list, keeping the order of the rest (membership in `Store.RemoveAllMember`) |
| Store.PullItemRef | src/controllers/clothing.controller.js:122-125 | `updateOne` with `$pull` replaces that user's list by its `RemoveAll` and changes nothing else; with no such user it writes nothing; together with the delete it keeps the back-references exact (`Store.PullKeepsBackRefs`) |
| Store.ApplyUpdate | src/controllers/clothing.controller.js:69-73 | `$set` of the update replaces only the supplied fields; id and owner are kept |
| Store.ApplyUpdateIdempotent | src/controllers/clothing.controller.js:90 | setting the same fields twice gives what setting them once gives |
| Store.ReplaceItem | src/controllers/clothing.controller.js:90 | the collection with the document of the updated id replaced in place, order and every other document kept; owners' id lists are unaffected (`Store.OwnedIdsReplace`) |
| Store.UpdateItemById | src/controllers/clothing.controller.js:90 | `findByIdAndUpdate(…, { new: true })` yields nothing and writes nothing when the id is missing; otherwise it yields the updated document, which replaces the stored one |
| Store.InsertUser | src/controllers/auth.controller.js:20-24 | `User.create` normalises the email; it fails with a validation error when the result is empty, with a duplicate key when a stored user has it, and otherwise stores the user under a fresh id with an empty item list; a failure writes nothing |
| Store.RemoveId | src/controllers/clothing.controller.js:119 | the collection without the documents with that id, the others in their order (membership in `Store.RemoveIdMember`) |
| Store.RemoveItem | src/controllers/clothing.controller.js:119 | `findByIdAndDelete` removes the item from the collection and leaves users and the counter alone |
| Store.RemoveAllMember | src/controllers/clothing.controller.js:122-125 | `$pull` keeps exactly the ids that differ from the pulled one |
| Store.RemoveIdMember | src/controllers/clothing.controller.js:119 | `findByIdAndDelete` keeps exactly the items with other ids |
| Store.OwnedIdsRemove | src/controllers/clothing.controller.js:119-125 | deleting an item's documents removes its id, and only its id, from every owner's list of owned ids |
| Store.OwnedIdsAppend | src/controllers/clothing.controller.js:39-48 | appending an item adds its id at the end of its owner's list of owned ids and changes no other user's list |
| Store.InsertThenPushConsistent | src/controllers/clothing.controller.js:39-48 | creating an item and then pushing its id onto the owner's list keeps the store consistent |
| Store.InsertAloneBreaksConsistency | src/controllers/clothing.controller.js:39-48 | between the create and the push the owner's list misses the new id, so the store is not consistent |
| Store.RemoveThenPullConsistent | src/controllers/clothing.controller.js:119-125 | deleting an item and then pulling its id from its owner's list keeps the store consistent |
| Store.RemoveAloneBreaksConsistency | src/controllers/clothing.controller.js:119-125 | between the delete and the pull the owner's list still names the deleted item, so the store is not consistent |
| Store.UpdateConsistent | src/controllers/clothing.controller.js:90 | an update keeps the store consistent, because it changes neither ids nor owners |
| Store.InsertUserConsistent | src/controllers/auth.controller.js:20-24 | creating a user keeps the store consistent |
| Store.AddUserKeepsUnique | src/models/user.model.js:8-11 | adding a user whose email no stored user has keeps emails unique |
| Store.FreshIdIsFresh | src/controllers/clothing.controller.js:39-42 | in a consistent store the next id belongs to no stored user, no stored item and no item's owner |
| Store.FindItemUnique | src/controllers/clothing.controller.js:78 | with distinct ids, `findById` of a stored item's id yields that item |
| Store.EmptyConsistent | src/models/clothing.model.js:32 | the empty store is consistent |
| Store.Database.constructor | src/models/user.model.js:34 | a new database is empty and consistent |
| Store.Database.FindItems | src/controllers/clothing.controller.js:12 | returns the `find({ owner })` result and writes nothing |
| Store.Database.FindItemById | src/controllers/clothing.controller.js:78 | returns the `findById` result and writes nothing |
| Store.Database.FindUserByEmail | src/controllers/auth.controller.js:51 | returns the `findOne({ email })` result and writes nothing |
| Store.Database.CreateItem | src/controllers/clothing.controller.js:39-42 | performs `ClothingItem.create`: the new state and the result are those of `InsertItem` |
| Store.Database.PushRef | src/controllers/clothing.controller.js:45-48 | performs the `$push` of the new id onto the user's list, and does nothing when there is no such user |
| Store.Database.UpdateItem | src/controllers/clothing.controller.js:90 | performs `findByIdAndUpdate`: the new state and the result are those of `UpdateItemById` |
| Store.Database.DeleteItem | src/controllers/clothing.controller.js:119 | performs `findByIdAndDelete`: every item with that id is removed and nothing else changes |
| Store.Database.PullRef | src/controllers/clothing.controller.js:122-125 | performs the `$pull` of the id from the user's list, and does nothing when there is no such user |
| Store.Database.CreateUser | src/controllers/auth.controller.js:20-24 | performs `User.create`: the new state and the result are those of `InsertUser` |
| AuthMiddleware.ExtractToken | src/middlewares/auth.middleware.js:4 | a token is found exactly when a header is present and contains a space, and the token found contains no space |
| AuthMiddleware.TokenIsSecondField | src/middlewares/auth.middleware.js:4 | for any first word, the token is the text after the first space up to the next space; the scheme word is not checked |
| AuthMiddleware.AnySchemeYieldsToken | src/middlewares/auth.middleware.js:4 | `<word> <token>` yields the token whatever the word, when neither contains a space |
| AuthMiddleware.Authorize | src/middlewares/auth.middleware.js:7-20 | a missing or empty token gives the 401 "No token provided, authorization denied"; a token `verify` refuses gives the 401 "Token is not valid"; otherwise the request is admitted with the payload `verify` decoded; there is no other answer |
| AuthMiddleware.NoTokenIgnoresVerify | src/middlewares/auth.middleware.js:7-10 | without a usable token the answer does not depend on `verify` |
| AuthMiddleware.NoTokenExamples | src/middlewares/auth.middleware.js:4-10 | no header, "Bearer", "Bearer " and "Bearer  abc" all get the no-token 401 |
| AuthMiddleware.Exchange.constructor | src/middlewares/auth.middleware.js:3 | a request starts with no `req.user`, no response sent and `next` not called |
| AuthMiddleware.Protect | src/middlewares/auth.middleware.js:3-21 | it either sends the 401 and leaves `req.user` and `next` alone, or sets `req.user` to the decoded payload and calls `next` exactly once without sending anything |
| AuthController.HasCredentials | src/controllers/auth.controller.js:10 | the field check is passed exactly when both are present and non-empty, and it fails exactly when email or password is missing or empty; login makes the same check (:44) |
| AuthController.NewUser | src/controllers/auth.controller.js:20-24 | the document register creates: the name as sent, the normalised email, the password hashed with cost 10, and an empty item list |
| AuthController.RegisterOutcome | src/controllers/auth.controller.js:6-38 | 400 exactly when email or password is missing or empty; 409 exactly when the normalised email is taken; 500 exactly when the email is blank after normalisation; 201 exactly when the credentials are present and the normalised email is non-blank and not taken, with the new id, and the store gains the user with the normalised email and the hashed password; every answer other than 201 leaves the store unchanged |
| AuthController.LoginOutcome | src/controllers/auth.controller.js:40-72 | 400 exactly when email or password is missing or empty; 200 exactly when a user has the normalised email and the password matches the stored hash, with a token signed for that user's id with a one-hour lifetime; every 401 is "Invalid credentials", and an unknown email gets that 401; no other status occurs |
| AuthController.Register | src/controllers/auth.controller.js:6-38 | the handler answers and changes the database as `RegisterOutcome` says, and keeps it consistent |
| AuthController.Login | src/controllers/auth.controller.js:40-72 | the handler answers as `LoginOutcome` says and has no right to change the database |
| AuthController.RegisterConsistent | src/controllers/auth.controller.js:16-28 | registering keeps the store consistent |
| AuthController.RegisterWithoutCredentials | src/controllers/auth.controller.js:10-13 | a body without email or password gets 400 whatever the store and the hasher, and nothing is written |
| AuthController.LoginWithoutCredentials | src/controllers/auth.controller.js:44-47 | a body without email or password gets 400 whatever the users, the hasher and the token codec |
| AuthController.RegisterStoresHash | src/controllers/auth.controller.js:16-24 | the stored password is the hash of the submitted one with cost 10, and it differs from the plaintext when the hash does |
| AuthController.RegisterTwiceConflicts | src/controllers/auth.controller.js:29-34 | registering an address that normalises the same as a registered one gives 409 and adds nobody |
| AuthController.UnknownUserLikeWrongPassword | src/controllers/auth.controller.js:51-61 | an unknown email and a wrong password get the identical 401 "Invalid credentials" |
| ClothingController.ImageUrl | src/controllers/clothing.controller.js:30 | the URL is a slash followed by the path, with every backslash turned into a slash and every other character kept, so it starts with `/` and contains no backslash |
| ClothingController.ImageUrlOfPosixPath | src/controllers/clothing.controller.js:30 | a path without backslashes becomes itself with a leading slash |
| ClothingController.ImageUrlIgnoresSeparatorKind | src/controllers/clothing.controller.js:72 | paths that differ only in using `\` or `/` give the same URL |
| ClothingController.ImageUrlFor | src/controllers/clothing.controller.js:30 | `ImageUrl` of the uploaded file's path when a file came, and no URL otherwise |
| ClothingController.HasRequiredFields | src/controllers/clothing.controller.js:32 | name, category and color are all present and non-empty |
| ClothingController.UpdateFor | src/controllers/clothing.controller.js:67-73 | the update carries the four body fields as sent, and an image URL exactly when a file came, which is then `ImageUrl` of the file's path |
| ClothingController.ListOutcome | src/controllers/clothing.controller.js:8-19 | 200 with exactly the stored items the caller owns |
| ClothingController.CreateOutcome | src/controllers/clothing.controller.js:24-56 | 400 "Name, category, and color are required" exactly when one of them is missing or empty; 500 exactly when the category is not in the enum; 201 exactly when the fields are present and the category is in the enum, with the new item, which has the given fields, the image URL, the caller as owner and a fresh id, and whose id is pushed onto the caller's list; every answer other than 201 leaves the store unchanged |
| ClothingController.UpdateOutcome | src/controllers/clothing.controller.js:61-97 | 404 exactly when the item is missing; 403 exactly when it exists and the caller does not own it; 200 exactly when it exists and the caller owns it, with the updated item, which replaces the stored one; every answer other than 200 leaves the store unchanged |
| ClothingController.DeleteOutcome | src/controllers/clothing.controller.js:102-132 | 404 exactly when the item is missing; 403 exactly when it exists and the caller does not own it; 204 exactly when it exists and the caller owns it, the item is deleted and its id is pulled from the caller's list; every answer other than 204 leaves the store unchanged |
| ClothingController.GetClothingItems | src/controllers/clothing.controller.js:8-19 | the handler answers as `ListOutcome` says and has no right to change the database |
| ClothingController.CreateClothingItem | src/controllers/clothing.controller.js:24-56 | the handler answers and changes the database as `CreateOutcome` says, and keeps it consistent |
| ClothingController.UpdateClothingItem | src/controllers/clothing.controller.js:61-97 | the handler answers and changes the database as `UpdateOutcome` says, and keeps it consistent |
| ClothingController.DeleteClothingItem | src/controllers/clothing.controller.js:102-132 | the handler answers and changes the database as `DeleteOutcome` says, and keeps it consistent |
| ClothingController.UpdateMissingItemNotFound | src/controllers/clothing.controller.js:78-82 | an update of a missing item gets 404 for every caller and every body, before any ownership check, and writes nothing |
| ClothingController.DeleteMissingItemNotFound | src/controllers/clothing.controller.js:107-111 | a delete of a missing item gets 404 for every caller, before any ownership check, and writes nothing |
| ClothingController.UpdateByNonOwnerChangesNothing | src/controllers/clothing.controller.js:85-87 | an update by a non-owner gets 403 and leaves items and user lists unchanged |
| ClothingController.DeleteByNonOwnerChangesNothing | src/controllers/clothing.controller.js:114-116 | a delete by a non-owner gets 403 and leaves items and user lists unchanged |
| ClothingController.CreateKeepsConsistency | src/controllers/clothing.controller.js:39-48 | create keeps every user's list equal to the ids of the items the user owns |
| ClothingController.UpdateKeepsConsistency | src/controllers/clothing.controller.js:90 | update keeps the store consistent |
| ClothingController.DeleteKeepsConsistency | src/controllers/clothing.controller.js:119-125 | delete keeps every user's list equal to the ids of the items the user owns |
| ClothingController.UpdateChangesOnlyThatItem | src/controllers/clothing.controller.js:69-90 | a successful update sets exactly the supplied name, category, color and brand, and the image URL when a file came; it keeps the item's id, owner and other fields and leaves every other item and every user untouched |
| ClothingController.UpdateIdempotent | src/controllers/clothing.controller.js:90 | sending the same update twice gives the same answer and the same store as sending it once |
| ClothingController.DeleteTwiceNotFound | src/controllers/clothing.controller.js:107-125 | after a successful delete, a second delete of the same id gets 404 |
| ClothingController.OwnedItemsAppend | src/controllers/clothing.controller.js:12 | after an item is appended, the owner's listing is the old listing followed by it in the model's insertion order, and other listings are unchanged |
| ClothingController.CreateThenList | src/controllers/clothing.controller.js:39-51 | after a successful create, the caller's listing is the old listing followed by the new item, in the model's insertion order |
| ClothingController.DeleteThenList | src/controllers/clothing.controller.js:119-127 | after a successful delete, the caller's listing holds no item with that id |
| ClothingController.UpdateSkipsValidation | src/controllers/clothing.controller.js:90 | an owner's update can store the category "hat", which the schema enum does not admit |
| ClothingController.CreateWithUnknownCategory | src/controllers/clothing.controller.js:37-55 | a create with category "Pants" passes the field check, is refused by the schema and gets 500, and the store is unchanged |
| Upload.ExtName | src/config/multer.js:23 | `path.extname`: the extension is the tail of the last path segment (trailing slashes dropped) from its last dot on; it is empty exactly when that segment has no dot after its first character or is ".."; it starts with its only dot and contains no slash |
| Upload.ExtNameLastDotExamples | src/config/multer.js:23 | "a.b.c" gives ".c", "..c" gives ".c" and "..." gives "." |
| Upload.ExtNameLeadingDotExamples | src/config/multer.js:23 | "..", ".x" and "a/.b" have no extension |
| Upload.ExtNameTrailingExamples | src/config/multer.js:23 | "x.//" and "a." give "." |
| Upload.ExtNameLower | src/config/multer.js:23 | taking the extension commutes with lower-casing |
| Upload.FileTypesTest | src/config/multer.js:21 | the unanchored test for the four alternatives jpeg, jpg, png and gif holds when one of the four words occurs anywhere in the string |
| Upload.ExtensionAllowed | src/config/multer.js:23 | the file-type test applied to the lower-cased extension of the original name |
| Upload.MimeAllowed | src/config/multer.js:25 | the file-type test applied to the MIME type as sent, without lower-casing |
| Upload.CheckFileType | src/config/multer.js:19-35 | a file is accepted exactly when its MIME type and its lower-cased extension both contain one of jpeg, jpg, png or gif; a rejection passes the error "Error: Images Only!" and never `true` |
| Upload.ExtensionTestIgnoresCase | src/config/multer.js:23 | names that differ only in letter case pass or fail the extension test together |
| Upload.MimeTestIsCaseSensitive | src/config/multer.js:25 | "image/png" passes the MIME test and "IMAGE/PNG" does not |
| Upload.NoExtensionRejected | src/config/multer.js:21-33 | a name without an extension is always rejected |
| Upload.UnanchoredTestsAccept | src/config/multer.js:21-25 | the extension ".PNGX" and the MIME type "text/x-gif-notes" are accepted, because neither test is anchored |
| Upload.Destination | src/config/multer.js:7-10 | every accepted file is written to "./uploads/", whatever the file |
| Upload.Filename | src/config/multer.js:12 | the stored name starts with the field name and "-", ends with the original extension, and the digits between them have no leading zero and read back as the upload time |
| Upload.FilenameKeepsExtension | src/config/multer.js:12 | the stored name, the field name followed by "-", the timestamp and the original extension, has the original's extension |
| Upload.StoredNamePassesExtensionTest | src/config/multer.js:12 | a file that passed the extension test is stored under a name that passes it too |
| Scenarios.RegisterThenLogin | src/controllers/auth.controller.js:51-64 | with a hasher whose compare accepts every password against its own hash, after a successful register, a login with the same password and any spelling of the email that normalises the same way gets 200 and a token for the new id |
| Scenarios.LoginFindsUser | src/controllers/auth.controller.js:51-64 | a login whose email normalises to a stored user's email and whose password matches that user's stored hash gets 200 with a token signed for that user's id |
| Scenarios.IssuedTokenAdmitted | src/middlewares/auth.middleware.js:4-16 | with a codec whose verify returns the claims of every token it signed, the token of a login, sent as `Bearer <token>`, is admitted with that user's id |
| Scenarios.OtherUserCannotDelete | src/controllers/clothing.controller.js:114-116 | when one user creates an item, another user's delete of it gets 403, and the item stays in the creator's listing |

## Left out

- Logging and the HTTP framework are not modelled.
- Listing order: `find({ owner })` (src/controllers/clothing.controller.js:12) has no sort, and MongoDB leaves its order unspecified. The model lists in insertion order, so the order stated by `ClothingController.OwnedItemsAppend`, `ClothingController.CreateThenList` and `Store.OwnedItemsCount` is a property of that choice. The membership and multiplicity they state do not depend on it.
- Concurrent requests are not modelled. Each handler runs as one uninterrupted sequence of store calls that ends in one response, so no other request's writes fall between its `await`s. This hides one answer of the source: when another request deletes the item between `findById` (src/controllers/clothing.controller.js:78) and `findByIdAndUpdate` (:90), the update answers 200 with a `null` body.
- Routing is not modelled. The model assumes that `protect` guards every clothing route (src/routes/clothing.routes.js:14). It also assumes that uploads come only with the create and update requests (src/routes/clothing.routes.js:21, 26). A caller is the payload `Authorize` admitted.
- Failing store calls are not modelled. A lost connection or a partial failure between the two writes of create or delete is not an error path of the model. The only store errors modelled are schema validation and the unique index.
- A malformed id in the URL is not modelled. Ids are natural numbers, so the 500 that Mongoose's failed id cast produces has no counterpart.
- The ids of the model are not Mongo ObjectIds. A new document gets an id above every stored id and above every owner id, which is what the invariant needs.
- bcrypt and jsonwebtoken are parameters (`Crypto.Hasher`, `Crypto.TokenCodec`):
  - hash salts, and token expiry against a clock, are not modelled;
  - `jwt.verify` yields `None` where the library throws;
  - the secret is a parameter, so a missing `JWT_SECRET` is not modelled.
- `Date.now()` is the parameter `now` of `Upload.Filename`. The disk writes and the 10 MB size limit of multer are not modelled.
- `path.extname` follows POSIX rules. Windows separators are not modelled.
- Lower-casing and white-space trimming follow JavaScript for ASCII letters and for the JavaScript white-space characters. Lower-casing of other Unicode letters is not modelled.
- Body fields are strings or missing. Non-string JSON values (numbers, arrays) are not modelled.
- The schema timestamps (`createdAt`, `updatedAt`) are not modelled. The user fields `image` and `emailVerified` are carried, but no handler sets them.
- The model assumes Mongoose 6 or later: setters run on query filters, keys whose value is `undefined` are dropped from updates, and `findByIdAndUpdate` runs no validators.
- Upload.FilenameKeepsExtension: stated only for names that have an extension. A field name containing a dot could otherwise lend the stored name an extension.
- Scenarios.IssuedTokenAdmitted: stated only for tokens that are non-empty and contain no space, which real signed tokens are.
