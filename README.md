# SWE_Journal storage layer and sign-in/sign-up checks in Dafny

The model covers four parts of SWE_Journal, a journaling web application with a Flask back end over MongoDB and React front ends.

- **The later storage layer.** This is `DBStorage` in flask_backend/db/db_manager.py, modelled in module `Storage`. It holds users, posts and comments. It handles:
  - password hashing;
  - likes, with a liker list and a counter;
  - comments, which are stored in their own collection and also copied into their post with a counter;
  - deletes that cascade from comments to posts to the user.
- **The earlier storage layer.** This is `DBStorage` in db/db_manager.py, modelled in module `LegacyStorage`. It holds users and posts only:
  - posts name their owner by ObjectId;
  - likes hold user ids;
  - nothing cascades.

  Where the earlier code is identical to the later one, it is modelled once, in `Storage`.
- **The sign-in form check.** This is the validation chain of `logInUser` in react_frontend/src/Components/SignIn.js.
- **The sign-up form check.** This is the validation chain of `registerUser` in react_app/src/Components/SignUp.js.

How the model is built:

- **Database.** Each MongoDB collection is a field of a Dafny class holding a sequence of documents in natural order. `Valid()` is the unique index on `_id`.
- **Driver calls.** Each one is a function of module `Mongo`:
  - equality filters;
  - `find`/`find_one`;
  - `insert_one`;
  - `update_one`/`update_many` with `$set`, `$inc` + `$addToSet` and `$inc` + `$pull`;
  - `delete_one`/`delete_many`;
  - an ascending `sort`.
- **Storage methods.** Each Python storage method is a method that makes the same calls in the same order. It ends with the same result:
  - a value, or `None`, where the Python code catches the exception;
  - `Raised(fault)` where an exception escapes.
- **Identifiers.**
  - Identifiers arrive as strings and go through `ObjectId(...)`, which accepts exactly 24 hexadecimal digits.
  - `str(oid)` writes 24 lower-case digits.
  - The two are proved inverse.
- **bcrypt.** A digest records its salt and the password it was made from, and verification compares passwords. The salt that `bcrypt.gensalt()` draws is a parameter.
- **Values that come from outside** are parameters:
  - the ObjectId the driver generates for an insert;
  - whether a store write raises, for the -3 write of `update_user_password` and the steps of `delete_many_comments`, `delete_post` and `delete_user`.
- **Form checks.** The two checks are total functions from the form fields to the first failing check's message, or to the request body.
- **The email regular expression.** It is given its regular-expression meaning. It is proved equal to a direct description: no white space, exactly one `@` that is not first, and after it a `.` that is neither right after the `@` nor last.

## Behaviour the model keeps as the code has it

- **`update_user_info` returns `None` in both versions, after the write.** It returns `list(map(serialize_ObjectId, updated_user))[0]`. That iterates the keys of the returned dict and raises, and the exception is caught. The earlier `update_post` does the same.
- **The later `update_user_info` copies a truthy new username into posts** whose `user_id` is the given string. It does so even when no user matched the id.
- **The later `delete_post` deletes the post's comments before it checks ownership.** So a caller who does not own the post still removes its comments.
- **The later `delete_user` deletes comments by the comment's own `user_id`.** Its filter is `{'user_id': ObjectId(user_id)}`, which selects the user's own comments, not the comments on the user's posts. Comments that other users left on the deleted posts stay in the comments collection.
- **`delete_comment` pulls the embedded copy from the post whatever the username.** Only the comment-collection delete is filtered by author.
- **`insert_comment` inserts the comment first.** An invalid post id, or an update the server rejects, then raises after the insert has happened.
- **`insert_comment` does not check the post for an existing copy.** It sends `$inc` with `$addToSet` unconditionally. A copy equal to a stored one is not appended, but it is still counted. A copy that reuses a stored `_id` with other fields is appended, and the `_id`s are then repeated. Consistency of the post is promised only when no copy with the new id is there.
- **MongoDB equality semantics are kept.**
  - `like_post` in the later layer uses the username as the liker.
  - `$pull` with a document condition queries the list's document elements.
  - A `$set` that would change `_id` is rejected.
- **The sign-up message "Please enter you email" is kept as written.**

## Model

| member | source | states |
|---|---|---|
| Credentials.HashPass | flask_backend/db/db_manager.py:15-19 | the digest stored for a password verifies that password and carries the salt that was drawn |
| Credentials.VerifyHash | flask_backend/db/db_manager.py:22-24 | checking a candidate against the hash of a password succeeds exactly when the candidate is that password |
| Credentials.FreshSaltsGiveDistinctHashes | flask_backend/db/db_manager.py:15-24 | hashing one password under two different salts gives different digests, both of which verify it |
| ObjectIds.ParseObjectId | flask_backend/db/db_manager.py:167 | `ObjectId(s)` succeeds exactly for strings of 24 hexadecimal digits of either case |
| ObjectIds.IdString | flask_backend/db/db_manager.py:40 | `str(oid)` is 24 lower-case hexadecimal digits |
| ObjectIds.ParseIdString | flask_backend/db/db_manager.py:40 | the string form of an ObjectId parses back to the same ObjectId |
| ObjectIds.IdStringOfParse | flask_backend/db/db_manager.py:40 | a lower-case identifier string that parses is the string form of its ObjectId |
| ObjectIds.IdStringInjective | flask_backend/db/db_manager.py:40 | distinct ObjectIds have distinct string forms |
| Documents.NatStringValue | flask_backend/db/db_manager.py:33-40 | the digits `str` writes for a non-negative integer are its decimal numeral: read back as a number they give the integer |
| Documents.StringifyKey | flask_backend/db/db_manager.py:33-40 | stringifying one key keeps the key set and leaves every other key's value alone |
| Documents.SerializeObjectId | flask_backend/db/db_manager.py:27-42 | same keys; keys other than `user_id`, `post_id` and `_id` keep their values; a present non-None id key becomes a string; a None stays None (identical in db/db_manager.py:27-42) |
| Documents.SerializeKeepsIdentity | flask_backend/db/db_manager.py:39-40 | an ObjectId under an id key becomes its string form, which parses back to the same ObjectId |
| Documents.SerializeIdempotent | flask_backend/db/db_manager.py:27-42 | serializing an already serialized document changes nothing |
| Documents.SerializeAll | flask_backend/db/db_manager.py:151 | `list(map(serialize_ObjectId, docs))` keeps length and order and serializes each document |
| Documents.SerializeAllMembers | flask_backend/db/db_manager.py:126 | the serialized list holds exactly the serialized forms of the documents found |
| Documents.SerializeKeysOf | flask_backend/db/db_manager.py:181 | mapping `serialize_ObjectId` over a dict returns only for the empty dict and raises on any other |
| Mongo.FirstMatch | flask_backend/db/db_manager.py:116 | the position of the first matching document: none iff no document matches, and every earlier one fails to match |
| Mongo.FindOne | flask_backend/db/db_manager.py:116 | `find_one` gives a matching document of the collection, or None exactly when none matches |
| Mongo.Locate | flask_backend/db/db_manager.py:244 | an id lookup is BadId iff the string is not an ObjectId, Missing iff no document has that `_id`, and otherwise a document with that `_id` |
| Mongo.Select | flask_backend/db/db_manager.py:125 | `find`/`delete_many` keep exactly the documents that match (or fail to match) and never add one |
| Mongo.DeleteOne | flask_backend/db/db_manager.py:343-346 | `delete_one` leaves one document fewer when one matches and the collection as it was otherwise |
| Mongo.DeleteOneContents | flask_backend/db/db_manager.py:343-346 | `delete_one` removes exactly one occurrence of the first matching document, and every document that does not match stays |
| Mongo.DeleteOneByIdLeavesNone | flask_backend/db/db_manager.py:442-444 | under the unique `_id` index, after `delete_one` by `_id` nothing with that `_id` remains |
| Mongo.DeleteManyLeavesNone | flask_backend/db/db_manager.py:388 | after `delete_many(f)`, `find(f)` is empty |
| Mongo.IncField | flask_backend/db/db_manager.py:252 | `$inc` adds to an integer field, starts a missing field at the increment, and is rejected on a non-integer |
| Mongo.AddToSetField | flask_backend/db/db_manager.py:253 | `$addToSet` appends an absent item, leaves a present one, creates a missing array holding just the item, and is rejected on a non-array |
| Mongo.ApplyUpdate | flask_backend/db/db_manager.py:249-255 | an accepted update keeps `_id`; a `$set` is accepted unless it would change `_id` |
| Mongo.SetWrites | flask_backend/db/db_manager.py:229-232 | an accepted `$set` leaves the document with its own keys plus the sent ones, each sent field holding the sent value and every other field unchanged |
| Mongo.SetOneField | flask_backend/db/db_manager.py:324-326 | a `$set` of a single field other than `_id` is accepted and assigns just that field |
| Mongo.PullAllMembers | flask_backend/db/db_manager.py:270 | `$pull` keeps an element exactly when it was in the list and the condition does not match it |
| Mongo.SetMany | flask_backend/db/db_manager.py:176-179 | `update_many` with `$set` rewrites exactly the matching documents and leaves every other one as it was |
| Mongo.InsertSorted | flask_backend/db/db_manager.py:374 | inserting into a sorted list keeps it sorted and adds exactly the new document |
| Mongo.SortAscending | flask_backend/db/db_manager.py:374 | `sort(field, 1)` returns a sorted permutation of its input |
| Mongo.SerializeCommutesWithSort | flask_backend/db/db_manager.py:374-375 | serializing after sorting on a non-id field equals sorting the serialized documents |
| PostDocs.PullNone | flask_backend/db/db_manager.py:270 | `$pull` with a condition no element meets leaves the list as it is |
| PostDocs.PullSingle | flask_backend/db/db_manager.py:270 | `$pull` with a condition exactly one element meets removes exactly that element |
| PostDocs.LikeAddsOnce | flask_backend/db/db_manager.py:249-255 | on a consistent post, the like update with a new liker appends it once, raises the counter by one, and keeps the counter equal to the list length |
| PostDocs.UnlikeRemovesOnce | flask_backend/db/db_manager.py:266-272 | on a consistent post, the unlike update with a present liker removes exactly that liker, lowers the counter by one, stays consistent and changes no other field |
| PostDocs.LikeThenUnlikeRestores | flask_backend/db/db_manager.py:241-274 | a like followed by an unlike of the same new liker gives back the original post |
| PostDocs.AddCommentOnce | flask_backend/db/db_manager.py:286-292 | on a consistent post, adding a copy with a new `_id` appends it once, raises `number_of_comments` by one and keeps the copies distinct |
| PostDocs.AddPresentCopyDrifts | flask_backend/db/db_manager.py:286-292 | when an equal copy is already in `comments`, the update leaves the list as it is but still raises the counter, so the post is no longer consistent |
| PostDocs.AddCopyWithTakenIdRepeats | flask_backend/db/db_manager.py:286-292 | a new copy that reuses a stored copy's `_id` is appended, and the copies' `_id`s are then not distinct |
| PostDocs.PullCopy | flask_backend/db/db_manager.py:355 | pulling by a present copy id removes exactly that copy, keeps every other copy, and keeps the copies distinct |
| PostDocs.RemoveCommentOnce | flask_backend/db/db_manager.py:351-357 | on a consistent post, removing a present copy drops exactly that copy (the others stay), lowers the counter by one, stays consistent, and keeps the other fields and the key set |
| PostDocs.AddThenRemoveCommentRestores | flask_backend/db/db_manager.py:287-357 | adding a comment copy and then pulling it by its id gives back the original post |
| Storage.PublicUser | flask_backend/db/db_manager.py:106 | a user as read back has every field except `password`, each non-id field with its stored value |
| Storage.UserInfoUpdate | flask_backend/db/db_manager.py:162 | the fields sent to `$set` are exactly the caller's fields without `password`, with the caller's values |
| Storage.UserInfoKeepsPassword | flask_backend/db/db_manager.py:162-170 | the user-info update never changes, adds or removes the stored password |
| Storage.PropagateUsername | flask_backend/db/db_manager.py:172-179 | with a truthy new username, exactly the posts whose `user_id` is the given string get it and every other post is untouched; otherwise posts are unchanged |
| Storage.LocateLike | flask_backend/db/db_manager.py:244-248 | the reads before a like: the post the id names, its `likes` list, and the username of the user the id names |
| Storage.LocateLikeRaises | flask_backend/db/db_manager.py:244-248 | the reads before a like raise exactly when the post or the user is not found, the user has no `username`, or the post has no `likes` list |
| Storage.ScanCopies | flask_backend/db/db_manager.py:349-350 | the loop over the embedded copies hits only when a copy has this id; on distinct copies it hits exactly then and never breaks |
| Storage.ScanFor | flask_backend/db/db_manager.py:349-358 | the loop ends as the scan over the copies prescribes |
| Storage.CopyRemovalExact | flask_backend/db/db_manager.py:347-357 | a post is rewritten only when it holds the copy; on a consistent post it is rewritten exactly then, one copy shorter, consistent, without that id, with every other copy kept and every field other than the comments and their counter unchanged |
| Storage.DBStorage.InsertUser | flask_backend/db/db_manager.py:85-91 | the user is stored with the hash of the plaintext password and its new `_id`; a missing or non-string password raises; a taken `_id` raises DuplicateKey (identical in db/db_manager.py:64-70) |
| Storage.DBStorage.InsertPost | flask_backend/db/db_manager.py:93-98 | the post is appended as given with its `_id`, which is returned; a taken `_id` raises DuplicateKey (identical in db/db_manager.py:72-77) |
| Storage.DBStorage.FindUser | flask_backend/db/db_manager.py:102-110 | the first matching user, without password and serialized; None exactly when nothing matches (identical in db/db_manager.py:79-87) |
| Storage.DBStorage.GetHash | flask_backend/db/db_manager.py:112-119 | the stored password of the first user with this email; None when there is no such user or it has no password (identical in db/db_manager.py:89-96) |
| Storage.DBStorage.FindUserPosts | flask_backend/db/db_manager.py:121-129 | exactly the posts whose `user_id` is the given string, serialized, one entry per matching post |
| Storage.DBStorage.FindPost | flask_backend/db/db_manager.py:131-139 | the first matching post, serialized; None exactly when nothing matches (identical in db/db_manager.py:108-116) |
| Storage.DBStorage.FindAllUsers | flask_backend/db/db_manager.py:141-145 | every user in order, none with a password |
| Storage.DBStorage.FindAllPosts | flask_backend/db/db_manager.py:147-151 | every post in order, serialized |
| Storage.DBStorage.FindComment | flask_backend/db/db_manager.py:296-312 | a comment with this id and author, serialized; None exactly when the id is invalid or there is no such comment |
| Storage.DBStorage.GetPostComments | flask_backend/db/db_manager.py:364-377 | None iff the post id is invalid; otherwise exactly the comments on that post, serialized, ascending by `date_posted` |
| Storage.DBStorage.NoCommentsListed | flask_backend/db/db_manager.py:364-377 | a post none of whose comments is stored has an empty comment listing |
| Storage.DBStorage.UpdateUserInfo | flask_backend/db/db_manager.py:155-184 | returns None; no stored password changes; the matched user gets the update; a truthy username reaches the given user's posts unless the id is invalid or the user update is rejected |
| Storage.DBStorage.SetUserAt | flask_backend/db/db_manager.py:166-170 | the `$set` on one user, with every stored password kept |
| Storage.DBStorage.RenameAuthor | flask_backend/db/db_manager.py:172-179 | the posts become their username propagation and nothing else changes |
| Storage.DBStorage.UpdateUserPassword | flask_backend/db/db_manager.py:186-218 | codes -1 (no user), -2 (old password fails), -3 (write raises) and 0; nothing is written unless 0; after 0 the stored digest is the new hash and verifies the new password (identical in db/db_manager.py:137-169) |
| Storage.DBStorage.SetPasswordAt | flask_backend/db/db_manager.py:210-213 | the `$set` of the new hash on the located user: only that user's `password` changes, and the user's stored digest is the new one |
| Storage.DBStorage.UpdatePost | flask_backend/db/db_manager.py:220-237 | `$set` lands only on the first post whose `_id` and owner string both match, and that post is returned serialized; otherwise None and nothing changes |
| Storage.DBStorage.UpdateComment | flask_backend/db/db_manager.py:314-331 | only the comment whose `_id` and author both match gets the new body and is returned serialized; otherwise None and nothing changes |
| Storage.DBStorage.LikePost | flask_backend/db/db_manager.py:241-257 | False after adding a new liker once and counting it; True with nothing changed when the username is already there; the read errors raise; every consistent post stays consistent |
| Storage.DBStorage.UnlikePost | flask_backend/db/db_manager.py:259-274 | False after pulling a present liker and lowering the counter by one; True with nothing changed when the username is absent; the read errors raise |
| Storage.DBStorage.InsertComment | flask_backend/db/db_manager.py:276-294 | unless the `_id` is taken (DuplicateKey, nothing written), exactly one comment is inserted, and its copy with a string `_id` is added to the post and counted; a bad post id raises after the insert; consistent posts that hold no copy with the new id stay consistent |
| Storage.DBStorage.AddCopy | flask_backend/db/db_manager.py:286-292 | the post update of `insert_comment` and the exception it raises |
| Storage.DBStorage.DeleteComment | flask_backend/db/db_manager.py:333-362 | the comment goes when its author matches; True exactly when the post's copy was found and pulled; consistent posts stay consistent |
| Storage.DBStorage.RemoveCopy | flask_backend/db/db_manager.py:347-362 | the post is rewritten exactly as the copy removal prescribes, and the result says whether it was |
| Storage.DBStorage.FindRemoval | flask_backend/db/db_manager.py:347-350 | the reads and the loop of `delete_comment` find where the copy removal goes |
| Storage.DBStorage.DeleteManyComments | flask_backend/db/db_manager.py:379-396 | by post when a post id is given, otherwise by author; True exactly when the id parses and the store does not fail; with neither id, False and nothing deleted |
| Storage.DBStorage.DeletePost | flask_backend/db/db_manager.py:400-415 | the post's comments go first; then only a post whose `_id` and owner match; if the cascade fails, False and nothing changes; after True the post has no comments |
| Storage.DBStorage.DeleteUser | flask_backend/db/db_manager.py:417-449 | comments by the user, then the user's posts, then the user, each only after the previous step succeeded; after True none of them can be found |
| Storage.DBStorage.UpdatePostAt | flask_backend/db/db_manager.py:249-255 | `update_one` on one post: the post becomes the update's result, or nothing changes if the update is rejected |
| LegacyStorage.LocateLike | db/db_manager.py:217-220 | the reads before a like: an error iff an id is invalid, the post is missing, or its `likes` is missing or not a list; the liker is the user's ObjectId |
| LegacyStorage.DBStorage.FindUserPosts | db/db_manager.py:98-106 | None iff the user id is invalid; otherwise exactly the posts whose `user_id` is that ObjectId, serialized, one entry per matching post |
| LegacyStorage.DBStorage.UpdateUserInfo | db/db_manager.py:118-135 | returns None; only the matched user changes, posts never do; no stored password changes |
| LegacyStorage.DBStorage.UpdatePost | db/db_manager.py:171-188 | returns None; `$set` lands only on the first post whose `_id` and owner ObjectId both match |
| LegacyStorage.DBStorage.DeletePost | db/db_manager.py:190-200 | True iff both ids parse and the store does not fail; then only the post with both ids matching is removed and none is left; users are untouched |
| LegacyStorage.DBStorage.LikePost | db/db_manager.py:214-229 | False after adding the user's id once and counting it; True with nothing changed when it is already there; consistent posts stay consistent |
| LegacyStorage.DBStorage.UnlikePost | db/db_manager.py:231-245 | False after pulling the user's id and lowering the counter; True with nothing changed when it is absent; consistent posts stay consistent |
| LegacyStorage.DBStorage.UpdatePostAt | db/db_manager.py:221-227 | `update_one` on one post: the post becomes the update's result, or nothing changes |
| LegacyStorage.DeleteOneOwnedLeavesNone | db/db_manager.py:194-197 | after `delete_one` on the ownership filter, no post matches that filter |
| Forms.Utf16Length | react_frontend/src/Components/SignIn.js:38 | JavaScript's `length` lies between the character count and twice it, and is zero only for the empty string |
| EmailPattern.RegexIsWellFormed | react_frontend/src/Components/SignIn.js:35 | a string matching the email pattern is well formed |
| EmailPattern.WellFormedIsRegex | react_frontend/src/Components/SignIn.js:35 | a well-formed string matches the email pattern |
| EmailPattern.EmailRegexCharacterised | react_frontend/src/Components/SignIn.js:35-36 | the pattern matches exactly the strings with no white space, one `@` not first, and a later `.` neither right after it nor last |
| EmailPattern.RegexRejects | react_frontend/src/Components/SignIn.js:35-36 | the empty string, and any string with white space, does not match |
| SignIn.LogInUserCheck | react_frontend/src/Components/SignIn.js:35-44 | "Invalid email" iff the pattern fails; "Invalid password" iff it holds and the password is empty; otherwise exactly `{email, password}` is sent |
| SignIn.LogInAcceptsExactly | react_frontend/src/Components/SignIn.js:35-44 | a login is sent exactly for a well-formed email with a non-empty password |
| SignIn.EmailCheckedFirst | react_frontend/src/Components/SignIn.js:36-39 | a bad email with an empty password reports "Invalid email" |
| SignUp.RegisterUserCheck | react_app/src/Components/SignUp.js:16-31 | each message appears exactly when the checks before it pass and its own fails; otherwise exactly `{username, email, password}` is sent |
| SignUp.RegisterAcceptsExactly | react_app/src/Components/SignUp.js:16-31 | a registration is sent exactly for a username, a well-formed email and a password of six code units or more |
| SignUp.UsernameCheckedFirst | react_app/src/Components/SignUp.js:18-19 | an empty username reports "Please enter your username" whatever the other fields are |
| SignUp.SixCharactersPass | react_app/src/Components/SignUp.js:24-25 | a six-character password passes the length check |
| SignUp.FiveUnitsFail | react_app/src/Components/SignUp.js:24-25 | a password of five code units fails it |
| SignUp.EmptyEmailFailsThePattern | react_app/src/Components/SignUp.js:20-23 | the empty email would fail the pattern too, so the presence check only changes the message |
| SignUp.RegisteredCanLogIn | react_app/src/Components/SignUp.js:16-31 | whatever the sign-up form sends, the sign-in form accepts with the same email and password |
| Scenarios.LikeTwiceThenUnlike | flask_backend/db/db_manager.py:241-274 | on a fresh database with one user and her post: a like returns False and counts 1; a second like returns True and keeps 1; an unlike returns False and counts 0 |
| Scenarios.WrongOldPassword | flask_backend/db/db_manager.py:200-206 | a wrong old password gives -2, and the original password still verifies afterwards |

## Left out

- `__init__` (the connection, environment variables, database-name selection and its `print`s), `clear_db`, and the `print` in `delete_comment` are configuration, test support and output.
- bcrypt is abstract here:
  - the digest records the password, and verification compares it;
  - its one-wayness, the 72-byte truncation and constant-time comparison are not modelled;
  - the random salt is a parameter.
- Randomness and store failures become parameters:
  - the driver's generated ObjectId;
  - the -3 write failure;
  - the failing step of `delete_many_comments`, `delete_post` and `delete_user`.

  A failing write is modelled as writing nothing. A `delete_many` that fails part-way is not modelled.
- A store write that raises is not modelled in `delete_comment`, `update_user_info`, `update_post` or `update_comment`. Each catches the exception and returns a result: False, or None. The model covers only the update the server rejects as invalid, where `ApplyUpdate` is None. A network or server failure in these four methods is not a case here. For example, `DeleteComment` returns True whenever the removal is found and accepted.
- MongoDB's query language is not modelled beyond the filters the code sends, which are all field equalities. These are left out:
  - operators;
  - matching an array field by element;
  - `None` in a filter matching a missing field;
  - projections other than dropping `password`.
- Other MongoDB and driver details:
  - An empty `$set` is accepted and changes nothing, as in MongoDB 5.0 and later.
  - Sort keys order by BSON type and then by value for integers, ObjectIds, booleans and dates, and tie within strings, documents, arrays and binaries.
  - `bytes.fromhex`-style leniency is not part of `ObjectId(...)`; an ObjectId passed as an object (not a string) is not an input here.
- `PyStr`: Python's `str` is exact for None, booleans, integers, strings and ObjectIds. Dates, bytes, lists and dicts get a fixed tag instead of their Python rendering.
- `in` on a `likes` value that is not a list:
  - In Python it is a substring test on a string, a key test on a dict, and a TypeError on other values.
  - The model raises TypeError for every non-list value.
- The in-place mutation of the argument dicts is not modelled: `serialize_ObjectId` writes its argument, `update_fields.pop` pops the caller's dict, and `insert_comment` rewrites `document['_id']`. Results are returned as new values.
- Concurrency is not modelled. Each method runs alone, and the read-then-write of likes and comments is not interleaved with other calls.
- UnlikePost: consistency preservation is stated only when no stored username is an embedded document. With a document username, `$pull` treats the value as a query rather than an equal element.
- React state, `localStorage`, navigation, the requests themselves and the alert and setter side effects are left out. LogInUserCheck and RegisterUserCheck return the message or the request body. The email pattern is read over characters; `length` is read in UTF-16 code units.
- react_frontend/src/Components/UpdatePassword.js, the Flask routes, main.py and the React App shell are not part of this model. The field whitelist at routes/profile.py:47-50 is not a precondition here; any update fields may be passed.
