/**
  The later persistence layer, `DBStorage` in flask_backend/db/db_manager.py.

  MongoDB is three in-memory collections held in the object: `users`,
  `posts` and `comments`, each a sequence of documents in natural order. Each
  method is the sequence of driver calls the Python method makes, each call
  being the corresponding function of module Mongo. Identifiers arrive as
  strings and are parsed with `ObjectId(...)`; the ObjectId that the driver
  would generate for an insert, the salt `bcrypt.gensalt()` would draw, and
  store failures where the Python code turns them into a result are
  parameters.

  In this version posts store their owner's id as a string (`{'user_id':
  user_id}` filters) and `likes` holds usernames.
 */
module Storage {
  import opened Wrappers
  import opened ObjectIds
  import opened Credentials
  import opened Documents
  import opened Mongo
  import opened PostDocs

  /** A user as the read methods return it: password projected out, ids as strings. */
  function PublicUser(u: Doc): (r: Doc)
    ensures "password" !in r
    ensures r.Keys == u.Keys - {"password"}
    ensures forall k :: k in r && k !in IdKeys ==> r[k] == u[k]
  {
    SerializeObjectId(u - {"password"})
  }

  /** `{'_id': ObjectId(post_id), 'user_id': user_id}`: the ownership filter on posts. */
  function OwnedPost(postId: ObjectId, userId: string): Filter {
    map["_id" := VId(postId), "user_id" := VStr(userId)]
  }

  /** `{'_id': ObjectId(comment_id), 'username': username}`: the ownership filter on comments. */
  function OwnedComment(commentId: ObjectId, username: string): Filter {
    map["_id" := VId(commentId), "username" := VStr(username)]
  }

  /** `{'user_id': user_id}` on posts. */
  function PostsOf(userId: string): Filter {
    map["user_id" := VStr(userId)]
  }

  /** `{'post_id': ObjectId(post_id)}` on comments. */
  function CommentsOn(postId: ObjectId): Filter {
    map["post_id" := VId(postId)]
  }

  /** `{'user_id': ObjectId(user_id)}` on comments. */
  function CommentsBy(userId: ObjectId): Filter {
    map["user_id" := VId(userId)]
  }

  /** The update `update_user_info` sends: the caller's fields with `password` popped. */
  function UserInfoUpdate(updateFields: Doc): (r: map<string, Value>)
    ensures "password" !in r
    ensures r.Keys == updateFields.Keys - {"password"}
    ensures forall k :: k in updateFields && k != "password" ==> k in r && r[k] == updateFields[k]
  {
    updateFields - {"password"}
  }

  /** Both documents hold the same password, or neither holds one. */
  predicate SamePassword(a: Doc, b: Doc) {
    ("password" in a <==> "password" in b) && ("password" in a ==> a["password"] == b["password"])
  }

  /** `update_user_info`'s `$set` never changes the stored password. */
  lemma UserInfoKeepsPassword(d: Doc, updateFields: Doc)
    ensures ApplyUpdate(d, Set(UserInfoUpdate(updateFields))).Some? ==>
              SamePassword(ApplyUpdate(d, Set(UserInfoUpdate(updateFields))).value, d)
  {
  }

  /**
    The second write of `update_user_info`: when the update carries a truthy
    `username`, every post whose `user_id` is the given string gets it.
   */
  function PropagateUsername(posts: Collection, userId: string, fields: map<string, Value>): (r: Collection)
    ensures |r| == |posts|
    ensures "username" in fields && Truthy(fields["username"]) ==>
      forall i :: 0 <= i < |posts| ==>
        r[i] == if Matches(posts[i], PostsOf(userId)) then posts[i]["username" := fields["username"]] else posts[i]
    ensures !("username" in fields && Truthy(fields["username"])) ==> r == posts
  {
    if "username" in fields && Truthy(fields["username"]) then
      var r := SetMany(posts, PostsOf(userId), map["username" := fields["username"]]);
      assert forall d: Doc :: d + map["username" := fields["username"]] == d["username" := fields["username"]];
      r
    else posts
  }

  /** The stored password digest of the user the identifier string names, if any. */
  function StoredDigest(users: Collection, userId: string): Option<Digest> {
    match Locate(users, userId)
    case Found(i) =>
      if "password" in users[i] && users[i]["password"].VHash? then Some(users[i]["password"].digest) else None
    case _ => None
  }

  /**
    Usernames are strings, never embedded documents; `$pull` with a document
    condition would query the list's elements instead of comparing them.
   */
  ghost predicate ScalarUsernames(users: Collection) {
    forall i :: 0 <= i < |users| && "username" in users[i] ==> !users[i]["username"].VDoc?
  }

  /** What `like_post`/`unlike_post` have read before they write: the post, the liker and `post['likes']`. */
  datatype LikeTarget = LikeTarget(index: nat, liker: Value, likes: seq<Value>)

  /**
    The reads of `like_post` and `unlike_post`, in Python's order:
    `ObjectId(post_id)`, `ObjectId(user_id)`, `user['username']`, then `post['likes']`.
   */
  function LocateLike(users: Collection, posts: Collection, userId: string, postId: string): (r: Outcome<LikeTarget>)
    ensures r.Returned? ==>
      && r.value.index < |posts|
      && "likes" in posts[r.value.index] && posts[r.value.index]["likes"] == VList(r.value.likes)
      && Locate(posts, postId) == Found(r.value.index)
      && (exists u :: 0 <= u < |users| && Locate(users, userId) == Found(u) &&
                                   "username" in users[u] && users[u]["username"] == r.value.liker)
    ensures r.Returned? && ScalarUsernames(users) ==> !r.value.liker.VDoc?
  {
    var at := Locate(posts, postId);
    if at.BadId? then Raised(InvalidId)
    else
      var who := Locate(users, userId);
      if who.BadId? then Raised(InvalidId)
      else if who.Missing? then Raised(TypeError)       // user['username'] on None
      else if "username" !in users[who.index] then Raised(KeyError)
      else if at.Missing? then Raised(TypeError)        // post['likes'] on None
      else if "likes" !in posts[at.index] then Raised(KeyError)
      else if !posts[at.index]["likes"].VList? then Raised(TypeError)
      else Returned(LikeTarget(at.index, users[who.index]["username"], posts[at.index]["likes"].items))
  }

  /**
    The reads of `like_post` and `unlike_post` raise exactly when the post or
    the user is not found, the user has no `username`, or the post has no
    `likes` list.
   */
  lemma LocateLikeRaises(users: Collection, posts: Collection, userId: string, postId: string)
    ensures LocateLike(users, posts, userId, postId).Raised? <==>
      || !Locate(posts, postId).Found? || !Locate(users, userId).Found?
      || "username" !in users[Locate(users, userId).index]
      || "likes" !in posts[Locate(posts, postId).index]
      || !posts[Locate(posts, postId).index]["likes"].VList?
  {
  }

  /** How the loop of `delete_comment` over `post['comments']` ends. */
  datatype Scan = Hit | Miss | Broken

  /** `for c in post['comments']: if comment_id == c['_id']: ...`; `Broken` is the exception `c['_id']` raises. */
  function ScanCopies(items: seq<Value>, commentId: string): (r: Scan)
    ensures r == Hit ==> HasCopy(items, VStr(commentId))
    ensures DistinctCopies(items) ==> (r == Hit <==> HasCopy(items, VStr(commentId)))
    ensures DistinctCopies(items) ==> r != Broken
  {
    if items == [] then Miss
    else if !IsCommentCopy(items[0]) then Broken
    else if items[0].fields["_id"] == VStr(commentId) then Hit
    else
      var r := ScanCopies(items[1..], commentId);
      assert DistinctCopies(items) ==> DistinctCopies(items[1..]) by {
        assert forall i :: 0 <= i < |items[1..]| ==> items[1..][i] == items[i + 1];
      }
      assert HasCopy(items[1..], VStr(commentId)) ==> HasCopy(items, VStr(commentId)) by {
        if HasCopy(items[1..], VStr(commentId)) {
          var i :| 0 <= i < |items[1..]| && IsCommentCopy(items[1..][i]) &&
                   items[1..][i].fields["_id"] == VStr(commentId);
          assert items[i + 1] == items[1..][i];
        }
      }
      assert HasCopy(items, VStr(commentId)) && items[0].fields["_id"] != VStr(commentId) ==>
             HasCopy(items[1..], VStr(commentId)) by {
        if HasCopy(items, VStr(commentId)) && items[0].fields["_id"] != VStr(commentId) {
          var i :| 0 <= i < |items| && IsCommentCopy(items[i]) && items[i].fields["_id"] == VStr(commentId);
          assert i > 0 && items[1..][i - 1] == items[i];
        }
      }
      r
  }

  /** The loop of `delete_comment`: walks the copies until one has this id or has no `_id`. */
  method ScanFor(items: seq<Value>, commentId: string) returns (s: Scan)
    ensures s == ScanCopies(items, commentId)
  {
    var k := 0;
    while k < |items|
      invariant 0 <= k <= |items|
      invariant ScanCopies(items[k..], commentId) == ScanCopies(items, commentId)
    {
      var c := items[k];
      if !IsCommentCopy(c) {
        return Broken;
      }
      if c.fields["_id"] == VStr(commentId) {
        return Hit;
      }
      assert items[k..][1..] == items[k + 1..];
      k := k + 1;
    }
    return Miss;
  }

  /**
    The post `delete_comment` rewrites and what it becomes: the post the string
    names, when its loop meets the copy and the pull is accepted.
   */
  function CopyRemoval(posts: Collection, postId: string, commentId: string): Option<(nat, Doc)> {
    match Locate(posts, postId)
    case Found(i) =>
      if "comments" in posts[i] && posts[i]["comments"].VList? &&
         ScanCopies(posts[i]["comments"].items, commentId) == Hit
      then
        match ApplyUpdate(posts[i], RemoveCommentUpdate(commentId))
        case Some(p) => Some((i, p))
        case None => None
      else None
    case _ => None
  }

  /**
    `delete_comment` rewrites a post only when the post holds a copy with
    this id; on a consistent post it does so exactly then, and the result
    is consistent again, one copy shorter, without that id.
   */
  lemma CopyRemovalExact(posts: Collection, postId: string, commentId: string)
    ensures CopyRemoval(posts, postId, commentId).Some? ==>
      && Locate(posts, postId).Found?
      && CopyRemoval(posts, postId, commentId).value.0 == Locate(posts, postId).index
      && HasCopy(posts[Locate(posts, postId).index]["comments"].items, VStr(commentId))
    ensures Locate(posts, postId).Found? && CommentsConsistent(posts[Locate(posts, postId).index]) ==>
      var p := posts[Locate(posts, postId).index];
      && (CopyRemoval(posts, postId, commentId).Some? <==> HasCopy(p["comments"].items, VStr(commentId)))
      && (CopyRemoval(posts, postId, commentId).Some? ==>
            var q := CopyRemoval(posts, postId, commentId).value.1;
            && CommentsConsistent(q)
            && !HasCopy(q["comments"].items, VStr(commentId))
            && |q["comments"].items| == |p["comments"].items| - 1
            && (forall x :: x in q["comments"].items <==>
                            x in p["comments"].items && x.fields["_id"] != VStr(commentId))
            && q.Keys == p.Keys
            && (forall k :: k in p && k != "comments" && k != "number_of_comments" ==> q[k] == p[k]))
  {
    var at := Locate(posts, postId);
    if at.Found? && CommentsConsistent(posts[at.index]) &&
       HasCopy(posts[at.index]["comments"].items, VStr(commentId)) {
      RemoveCommentOnce(posts[at.index], commentId);
    }
  }

  /** Replacing a document by one with the same `_id` does not change where an `_id` lookup leads. */
  lemma ReplaceKeepsLocate(c: Collection, i: nat, d: Doc, s: string)
    requires i < |c| && "_id" in c[i] && "_id" in d && d["_id"] == c[i]["_id"]
    ensures Locate(c[i := d], s) == Locate(c, s)
  {
    if ParseObjectId(s).Some? {
      var f := IdFilter(ParseObjectId(s).value);
      var c' := c[i := d];
      assert forall k :: 0 <= k < |c| ==> (Matches(c'[k], f) <==> Matches(c[k], f));
      match FirstMatch(c, f)
      case None =>
      case Some(j) =>
        assert FirstMatch(c', f).Some?;
        assert FirstMatch(c', f).value == j;
    }
  }

  class DBStorage {
    var users: Collection
    var posts: Collection
    var comments: Collection

    /** The unique `_id` index of each collection. */
    ghost predicate Valid()
      reads this
    {
      WellKeyed(users) && WellKeyed(posts) && WellKeyed(comments)
    }

    /** A storage object over a database that holds these collections. */
    constructor (users0: Collection, posts0: Collection, comments0: Collection)
      requires WellKeyed(users0) && WellKeyed(posts0) && WellKeyed(comments0)
      ensures Valid()
      ensures users == users0 && posts == posts0 && comments == comments0
    {
      users, posts, comments := users0, posts0, comments0;
    }

    // -------------------------------------------------------------------------
    // INSERT

    /** `insert_user`: the plaintext password is replaced by its hash before the insert. */
    method InsertUser(document: Doc, generated: ObjectId, salt: Salt) returns (r: Outcome<Value>)
      requires Valid()
      modifies this
      ensures Valid() && posts == old(posts) && comments == old(comments)
      ensures "password" !in document ==> r == Raised(KeyError) && users == old(users)
      ensures "password" in document && !document["password"].VStr? ==>
                r == Raised(AttributeError) && users == old(users)
      ensures "password" in document && document["password"].VStr? ==>
        var id := InsertedId(document, generated);
        var hashed := document["password" := VHash(HashPass(document["password"].s, salt))];
        if IdTaken(old(users), id) then r == Raised(DuplicateKey) && users == old(users)
        else r == Returned(id) && users == old(users) + [hashed["_id" := id]]
      ensures r.Returned? ==>
        var stored := users[|users| - 1];
        && stored["password"].VHash?
        && CheckHashPassword(stored["password"].digest, document["password"].s)
    {
      if "password" !in document {
        return Raised(KeyError);
      }
      var password := document["password"];
      if !password.VStr? {
        return Raised(AttributeError);  // password.encode('utf-8')
      }
      var hashed := document["password" := VHash(HashPass(password.s, salt))];
      var id := InsertedId(hashed, generated);
      if IdTaken(users, id) {
        return Raised(DuplicateKey);
      }
      var stored := hashed["_id" := id];
      AppendWellKeyed(users, stored);
      users := users + [stored];
      r := Returned(id);
    }

    /** `insert_post`: the document goes in as it is. */
    method InsertPost(document: Doc, generated: ObjectId) returns (r: Outcome<Value>)
      requires Valid()
      modifies this
      ensures Valid() && users == old(users) && comments == old(comments)
      ensures var id := InsertedId(document, generated);
        if IdTaken(old(posts), id) then r == Raised(DuplicateKey) && posts == old(posts)
        else r == Returned(id) && posts == old(posts) + [document["_id" := id]]
    {
      var id := InsertedId(document, generated);
      if IdTaken(posts, id) {
        return Raised(DuplicateKey);
      }
      var stored := document["_id" := id];
      AppendWellKeyed(posts, stored);
      posts := posts + [stored];
      r := Returned(id);
    }

    // -------------------------------------------------------------------------
    // FIND

    /** `find_user`: the first user matching `info`, without its password, or `None`. */
    function FindUser(info: Filter): (r: Option<Doc>)
      reads this
      ensures r.None? <==> forall i :: 0 <= i < |users| ==> !Matches(users[i], info)
      ensures r.Some? ==> "password" !in r.value
      ensures r.Some? ==> exists i :: 0 <= i < |users| && Matches(users[i], info) &&
                                      (forall j :: 0 <= j < i ==> !Matches(users[j], info)) &&
                                      r.value == PublicUser(users[i])
    {
      match FirstMatch(users, info)
      case None => None
      case Some(i) => Some(PublicUser(users[i]))
    }

    /** `get_hash`: the stored password of the first user with this email, or `None`. */
    function GetHash(email: string): (r: Option<Value>)
      reads this
      ensures r.Some? <==> exists i :: FirstMatch(users, map["email" := VStr(email)]) == Some(i) &&
                                       "password" in users[i]
      ensures r.Some? ==> exists i :: 0 <= i < |users| && Matches(users[i], map["email" := VStr(email)]) &&
                                      (forall j :: 0 <= j < i ==> !Matches(users[j], map["email" := VStr(email)])) &&
                                      "password" in users[i] && users[i]["password"] == r.value
    {
      match FirstMatch(users, map["email" := VStr(email)])
      case None => None
      case Some(i) => if "password" in users[i] then Some(users[i]["password"]) else None
    }

    /** `find_user_posts`: exactly the posts whose `user_id` is the given string, serialized. */
    function FindUserPosts(userId: string): (r: Option<seq<Doc>>)
      reads this
      ensures r.Some?
      ensures |r.value| == |Find(posts, PostsOf(userId))|
      ensures forall d :: d in r.value <==>
                exists p :: p in posts && Matches(p, PostsOf(userId)) && d == SerializeObjectId(p)
    {
      var found := Find(posts, PostsOf(userId));
      SerializeAllMembers(found);
      Some(SerializeAll(found))
    }

    /** `find_post`: the first post matching `info`, serialized, or `None`. */
    function FindPost(info: Filter): (r: Option<Doc>)
      reads this
      ensures r.None? <==> forall i :: 0 <= i < |posts| ==> !Matches(posts[i], info)
      ensures r.Some? ==> exists i :: 0 <= i < |posts| && Matches(posts[i], info) &&
                                      (forall j :: 0 <= j < i ==> !Matches(posts[j], info)) &&
                                      r.value == SerializeObjectId(posts[i])
    {
      match FirstMatch(posts, info)
      case None => None
      case Some(i) => Some(SerializeObjectId(posts[i]))
    }

    /** `find_all_users`: every user, in order, without passwords. */
    function FindAllUsers(): (r: seq<Doc>)
      reads this
      ensures |r| == |users|
      ensures forall i :: 0 <= i < |r| ==> "password" !in r[i] && r[i] == PublicUser(users[i])
    {
      seq(|users|, i requires 0 <= i < |users| reads this => PublicUser(users[i]))
    }

    /** `find_all_posts`: every post, in order, serialized. */
    function FindAllPosts(): (r: seq<Doc>)
      reads this
      ensures |r| == |posts|
      ensures forall i :: 0 <= i < |r| ==> r[i] == SerializeObjectId(posts[i])
    {
      SerializeAll(posts)
    }

    /** `find_comment`: the comment with this id and author, serialized, or `None`. */
    function FindComment(commentId: string, username: string): (r: Option<Doc>)
      reads this
      ensures ParseObjectId(commentId).None? ==> r.None?
      ensures r.Some? ==>
        exists i :: 0 <= i < |comments| &&
                    Matches(comments[i], OwnedComment(ParseObjectId(commentId).value, username)) &&
                    r.value == SerializeObjectId(comments[i])
      ensures ParseObjectId(commentId).Some? ==>
                (r.None? <==> forall i :: 0 <= i < |comments| ==>
                                !Matches(comments[i], OwnedComment(ParseObjectId(commentId).value, username)))
    {
      match ParseObjectId(commentId)
      case None => None
      case Some(cid) =>
        match FirstMatch(comments, OwnedComment(cid, username))
        case None => None
        case Some(i) => Some(SerializeObjectId(comments[i]))
    }

    /** A post none of whose comments is stored lists no comments. */
    lemma NoCommentsListed(postId: string)
      requires ParseObjectId(postId).Some?
      requires Find(comments, CommentsOn(ParseObjectId(postId).value)) == []
      ensures GetPostComments(postId) == Some([])
    {
      assert |multiset(GetPostComments(postId).value)| == 0;
    }

    /** `get_post_comments`: exactly the post's comments, ascending by `date_posted`. */
    function GetPostComments(postId: string): (r: Option<seq<Doc>>)
      reads this
      ensures r.None? <==> ParseObjectId(postId).None?
      ensures r.Some? ==> SortedBy(r.value, "date_posted")
      ensures r.Some? ==>
        multiset(r.value) == multiset(SerializeAll(Find(comments, CommentsOn(ParseObjectId(postId).value))))
      ensures r.Some? ==> forall d :: d in r.value <==>
        exists c :: c in comments && Matches(c, CommentsOn(ParseObjectId(postId).value)) && d == SerializeObjectId(c)
    {
      match ParseObjectId(postId)
      case None => None
      case Some(pid) =>
        var found := Find(comments, CommentsOn(pid));
        var r := SerializeAll(SortAscending(found, "date_posted"));
        SerializeCommutesWithSort(found, "date_posted");
        SerializeAllMembers(found);
        assert forall d :: d in r <==> d in multiset(r);
        assert forall d :: d in SerializeAll(found) <==> d in multiset(SerializeAll(found));
        Some(r)
    }

    // -------------------------------------------------------------------------
    // UPDATE

    /**
      `update_user_info`. The password is popped from the update; the user is
      updated with `$set`; a truthy new username is copied into every post whose
      `user_id` is the given string, whether or not a user matched. The method then
      returns `None` in every case: `list(map(serialize_ObjectId, updated_user))`
      iterates the keys of the returned dict (or None) and raises, and the
      exception is caught.
     */
    method UpdateUserInfo(userId: string, updateFields: Doc) returns (r: Option<Doc>)
      requires Valid()
      modifies this
      ensures Valid() && comments == old(comments)
      ensures r.None?
      ensures |users| == |old(users)| && forall i :: 0 <= i < |users| ==> SamePassword(users[i], old(users)[i])
      ensures match Locate(old(users), userId)
        case BadId => users == old(users) && posts == old(posts)
        case Missing =>
          users == old(users) && posts == PropagateUsername(old(posts), userId, UserInfoUpdate(updateFields))
        case Found(i) =>
          match ApplyUpdate(old(users)[i], Set(UserInfoUpdate(updateFields)))
          case None => users == old(users) && posts == old(posts)
          case Some(u) =>
            users == old(users)[i := u] &&
            posts == PropagateUsername(old(posts), userId, UserInfoUpdate(updateFields))
    {
      var fields := UserInfoUpdate(updateFields);
      var at := Locate(users, userId);
      if at.BadId? {
        return None;  // ObjectId(user_id) raises InvalidId inside the try
      }
      if at.Found? {
        var updated := SetUserAt(at.index, updateFields);
        if updated.None? {
          return None;  // the server rejects a change of _id; caught
        }
        // list(map(serialize_ObjectId, updated_user)) walks the keys of a non-empty dict
        assert SerializeKeysOf(updated.value).Raised?;
      }
      // ... or list(map(serialize_ObjectId, None)) raises TypeError: caught either way
      RenameAuthor(userId, fields);
      r := None;
    }

    /** The first write of `update_user_info`: `$set` on the user at position `i`, password popped. */
    method SetUserAt(i: nat, updateFields: Doc) returns (updated: Option<Doc>)
      requires Valid() && i < |users|
      modifies this
      ensures Valid() && posts == old(posts) && comments == old(comments)
      ensures updated == ApplyUpdate(old(users)[i], Set(UserInfoUpdate(updateFields)))
      ensures updated.None? ==> users == old(users)
      ensures updated.Some? ==> users == old(users)[i := updated.value] && "_id" in updated.value
      ensures |users| == |old(users)| && forall j :: 0 <= j < |users| ==> SamePassword(users[j], old(users)[j])
    {
      updated := ApplyUpdate(users[i], Set(UserInfoUpdate(updateFields)));
      if updated.Some? {
        UserInfoKeepsPassword(users[i], updateFields);
        ReplaceWellKeyed(users, i, updated.value);
        users := users[i := updated.value];
      }
    }

    /** The second write of `update_user_info`. */
    method RenameAuthor(userId: string, fields: map<string, Value>)
      requires Valid()
      modifies this
      ensures Valid() && users == old(users) && comments == old(comments)
      ensures posts == PropagateUsername(old(posts), userId, fields)
    {
      if "username" in fields && Truthy(fields["username"]) {
        SetManyWellKeyed(posts, PostsOf(userId), map["username" := fields["username"]]);
      }
      posts := PropagateUsername(posts, userId, fields);
    }

    /**
      `update_user_password`: 0 on success, -1 when there is no such user, -2
      when the old password does not verify, -3 when the write raises
      (`writeFails`). An invalid id, a missing password field or a stored
      password that is not a hash raise before the try.
     */
    method UpdateUserPassword(userId: string, oldPassword: string, newPassword: string,
                              salt: Salt, writeFails: bool) returns (r: Outcome<int>)
      requires Valid()
      modifies this
      ensures Valid() && posts == old(posts) && comments == old(comments)
      ensures r != Returned(0) ==> users == old(users)
      ensures match Locate(old(users), userId)
        case BadId => r == Raised(InvalidId)
        case Missing => r == Returned(-1)
        case Found(i) =>
          var user := old(users)[i];
          if "password" !in user then r == Raised(KeyError)
          else if !user["password"].VHash? then r == Raised(TypeError)
          else if !CheckHashPassword(user["password"].digest, oldPassword) then r == Returned(-2)
          else if writeFails then r == Returned(-3)
          else r == Returned(0) && users == old(users)[i := user["password" := VHash(HashPass(newPassword, salt))]]
      ensures r == Returned(0) ==>
        && StoredDigest(users, userId) == Some(HashPass(newPassword, salt))
        && CheckHashPassword(StoredDigest(users, userId).value, newPassword)
    {
      match Locate(users, userId) {
        case BadId =>
          return Raised(InvalidId);
        case Missing =>
          return Returned(-1);
        case Found(i) =>
          var user := users[i];
          if "password" !in user {
            return Raised(KeyError);
          }
          if !user["password"].VHash? {
            return Raised(TypeError);  // bcrypt.checkpw needs bytes
          }
          if !CheckHashPassword(user["password"].digest, oldPassword) {
            return Returned(-2);
          }
          var newHash := HashPass(newPassword, salt);
          if writeFails {
            return Returned(-3);
          }
          SetPasswordAt(i, userId, newHash);
          return Returned(0);
      }
    }

    /** The write of `update_user_password`: `$set` of the new hash on the located user. */
    method SetPasswordAt(i: nat, userId: string, digest: Digest)
      requires Valid() && Locate(users, userId) == Found(i)
      modifies this
      ensures Valid() && posts == old(posts) && comments == old(comments)
      ensures users == old(users)[i := old(users)[i]["password" := VHash(digest)]]
      ensures StoredDigest(users, userId) == Some(digest)
    {
      var u := ApplyUpdate(users[i], Set(map["password" := VHash(digest)]));
      SetOneField(users[i], "password", VHash(digest));
      ReplaceWellKeyed(users, i, u.value);
      ReplaceKeepsLocate(users, i, u.value, userId);
      users := users[i := u.value];
    }

    /** `update_post`: `$set` on the post only when both its id and its owner match. */
    method UpdatePost(postId: string, userId: string, updateFields: Doc) returns (r: Option<Doc>)
      requires Valid()
      modifies this
      ensures Valid() && users == old(users) && comments == old(comments)
      ensures ParseObjectId(postId).None? ==> r.None? && posts == old(posts)
      ensures ParseObjectId(postId).Some? ==>
        var owned := OwnedPost(ParseObjectId(postId).value, userId);
        match FirstMatch(old(posts), owned)
        case None => r.None? && posts == old(posts)
        case Some(i) =>
          match ApplyUpdate(old(posts)[i], Set(updateFields))
          case None => r.None? && posts == old(posts)
          case Some(p) => r == Some(SerializeObjectId(p)) && posts == old(posts)[i := p]
    {
      var pid := ParseObjectId(postId);
      if pid.None? {
        return None;
      }
      match FirstMatch(posts, OwnedPost(pid.value, userId)) {
        case None =>
          return None;  // serialize_ObjectId(None) raises AttributeError; caught
        case Some(i) =>
          var p := ApplyUpdate(posts[i], Set(updateFields));
          if p.None? {
            return None;
          }
          ReplaceWellKeyed(posts, i, p.value);
          posts := posts[i := p.value];
          return Some(SerializeObjectId(p.value));
      }
    }

    /** `update_comment`: `$set` the body of the comment with this id and author. */
    method UpdateComment(commentId: string, username: string, body: Value) returns (r: Option<Doc>)
      requires Valid()
      modifies this
      ensures Valid() && users == old(users) && posts == old(posts)
      ensures ParseObjectId(commentId).None? ==> r.None? && comments == old(comments)
      ensures ParseObjectId(commentId).Some? ==>
        match FirstMatch(old(comments), OwnedComment(ParseObjectId(commentId).value, username))
        case None => r.None? && comments == old(comments)
        case Some(i) =>
          var c := old(comments)[i]["body" := body];
          r == Some(SerializeObjectId(c)) && comments == old(comments)[i := c]
    {
      var cid := ParseObjectId(commentId);
      if cid.None? {
        return None;
      }
      match FirstMatch(comments, OwnedComment(cid.value, username)) {
        case None =>
          return None;
        case Some(i) =>
          var c := ApplyUpdate(comments[i], Set(map["body" := body]));
          SetOneField(comments[i], "body", body);
          ReplaceWellKeyed(comments, i, c.value);
          comments := comments[i := c.value];
          return Some(SerializeObjectId(c.value));
      }
    }

    // -------------------------------------------------------------------------
    // FEED'S INTERACTIONS

    /**
      `like_post`: a liker not yet in `likes` is added and counted, and the
      result is False; a liker already there leaves the post as it is, and the
      result is True.
     */
    method LikePost(userId: string, postId: string) returns (r: Outcome<bool>)
      requires Valid()
      modifies this
      ensures Valid() && users == old(users) && comments == old(comments)
      ensures |posts| == |old(posts)|
      ensures match LocateLike(old(users), old(posts), userId, postId)
        case Raised(f) => r == Raised(f) && posts == old(posts)
        case Returned(t) =>
          if t.liker in t.likes then r == Returned(true) && posts == old(posts)
          else
            match ApplyUpdate(old(posts)[t.index], LikeUpdate(t.liker))
            case None => r == Raised(WriteError) && posts == old(posts)
            case Some(p) => r == Returned(false) && posts == old(posts)[t.index := p]
      ensures forall i :: 0 <= i < |posts| && LikesConsistent(old(posts)[i]) ==> LikesConsistent(posts[i])
      ensures r == Returned(false) ==>
        var t := LocateLike(old(users), old(posts), userId, postId).value;
        LikesConsistent(old(posts)[t.index]) ==>
          posts[t.index]["likes"] == VList(t.likes + [t.liker]) &&
          posts[t.index]["number_of_likes"] == VInt(|t.likes| + 1)
    {
      var target := LocateLike(users, posts, userId, postId);
      if target.Raised? {
        return Raised(target.fault);
      }
      var t := target.value;
      if t.liker in t.likes {
        return Returned(true);
      }
      var p := ApplyUpdate(posts[t.index], LikeUpdate(t.liker));
      if p.Some? {
        if LikesConsistent(posts[t.index]) {
          LikeAddsOnce(posts[t.index], t.liker);
        }
        ReplaceKeepsLikes(posts, t.index, p.value);
      }
      var ok := UpdatePostAt(t.index, LikeUpdate(t.liker));
      r := if ok then Returned(false) else Raised(WriteError);
    }

    /**
      `unlike_post`: a liker in `likes` is pulled and the counter moves back,
      and the result is False; a liker not there leaves the post as it is,
      and the result is True.
     */
    method UnlikePost(userId: string, postId: string) returns (r: Outcome<bool>)
      requires Valid()
      modifies this
      ensures Valid() && users == old(users) && comments == old(comments)
      ensures |posts| == |old(posts)|
      ensures match LocateLike(old(users), old(posts), userId, postId)
        case Raised(f) => r == Raised(f) && posts == old(posts)
        case Returned(t) =>
          if t.liker !in t.likes then r == Returned(true) && posts == old(posts)
          else
            match ApplyUpdate(old(posts)[t.index], UnlikeUpdate(t.liker))
            case None => r == Raised(WriteError) && posts == old(posts)
            case Some(p) => r == Returned(false) && posts == old(posts)[t.index := p]
      ensures ScalarUsernames(old(users)) ==>
        forall i :: 0 <= i < |posts| && LikesConsistent(old(posts)[i]) ==> LikesConsistent(posts[i])
      ensures r == Returned(false) && ScalarUsernames(old(users)) ==>
        var t := LocateLike(old(users), old(posts), userId, postId).value;
        LikesConsistent(old(posts)[t.index]) ==>
          t.liker !in posts[t.index]["likes"].items &&
          posts[t.index]["number_of_likes"] == VInt(|t.likes| - 1)
    {
      var target := LocateLike(users, posts, userId, postId);
      if target.Raised? {
        return Raised(target.fault);
      }
      var t := target.value;
      if t.liker !in t.likes {
        return Returned(true);
      }
      var p := ApplyUpdate(posts[t.index], UnlikeUpdate(t.liker));
      if p.Some? {
        if LikesConsistent(posts[t.index]) && ScalarUsernames(users) {
          UnlikeRemovesOnce(posts[t.index], t.liker);
        }
        if ScalarUsernames(users) {
          ReplaceKeepsLikes(posts, t.index, p.value);
        }
      }
      var ok := UpdatePostAt(t.index, UnlikeUpdate(t.liker));
      r := if ok then Returned(false) else Raised(WriteError);
    }

    // -------------------------------------------------------------------------
    // COMMENTS

    /**
      `insert_comment`: the comment is inserted, then a copy whose `_id` is the
      string form of the new id is added to the post's `comments` and counted.
      An invalid post id or a rejected update raises after the insert.
     */
    method InsertComment(document: Doc, postId: string, generated: ObjectId) returns (r: Outcome<Value>)
      requires Valid()
      modifies this
      ensures Valid() && users == old(users)
      ensures var id := InsertedId(document, generated);
        if IdTaken(old(comments), id) then
          r == Raised(DuplicateKey) && comments == old(comments) && posts == old(posts)
        else
          && comments == old(comments) + [document["_id" := id]]
          && (var copy := document["_id" := VStr(PyStr(id))];
              match Locate(old(posts), postId)
              case BadId => r == Raised(InvalidId) && posts == old(posts)
              case Missing => r == Returned(id) && posts == old(posts)
              case Found(i) =>
                match ApplyUpdate(old(posts)[i], AddCommentUpdate(copy))
                case None => r == Raised(WriteError) && posts == old(posts)
                case Some(p) => r == Returned(id) && posts == old(posts)[i := p])
      ensures forall i :: 0 <= i < |posts| && CommentsConsistent(old(posts)[i]) &&
                          !HasCopy(old(posts)[i]["comments"].items, VStr(PyStr(InsertedId(document, generated)))) ==>
                CommentsConsistent(posts[i])
    {
      var id := InsertedId(document, generated);
      if IdTaken(comments, id) {
        return Raised(DuplicateKey);
      }
      var stored := document["_id" := id];
      AppendWellKeyed(comments, stored);
      comments := comments + [stored];
      var fault := AddCopy(postId, document["_id" := VStr(PyStr(id))]);
      r := if fault.Some? then Raised(fault.value) else Returned(id);
    }

    /**
      The second write of `insert_comment`: `update_one` on the post with
      `ObjectId(post_id)`, adding the copy and counting it; `fault` is the
      exception it raises.
     */
    method AddCopy(postId: string, copy: Doc) returns (fault: Option<Fault>)
      requires Valid()
      modifies this
      ensures Valid() && users == old(users) && comments == old(comments)
      ensures match Locate(old(posts), postId)
        case BadId => fault == Some(InvalidId) && posts == old(posts)
        case Missing => fault == None && posts == old(posts)
        case Found(i) =>
          match ApplyUpdate(old(posts)[i], AddCommentUpdate(copy))
          case None => fault == Some(WriteError) && posts == old(posts)
          case Some(p) => fault == None && posts == old(posts)[i := p]
      ensures "_id" in copy ==>
        forall j :: 0 <= j < |posts| && CommentsConsistent(old(posts)[j]) &&
                    !HasCopy(old(posts)[j]["comments"].items, copy["_id"]) ==>
          CommentsConsistent(posts[j])
    {
      match Locate(posts, postId) {
        case BadId =>
          return Some(InvalidId);
        case Missing =>
          return None;
        case Found(i) =>
          var p := ApplyUpdate(posts[i], AddCommentUpdate(copy));
          if p.None? {
            return Some(WriteError);
          }
          if "_id" in copy {
            if CommentsConsistent(posts[i]) && !HasCopy(posts[i]["comments"].items, copy["_id"]) {
              AddCommentOnce(posts[i], copy);
            }
            ReplaceKeepsCommentsWithout(posts, i, p.value, copy["_id"]);
          }
          var ok := UpdatePostAt(i, AddCommentUpdate(copy));
          return None;
      }
    }

    /**
      `delete_comment`: the comment is deleted when its author matches; then
      the post's embedded copies are scanned until a copy with this id turns
      up; then every copy with this id is pulled (only one while the copies
      are distinct) and the counter goes down by one. True only when a copy
      was found and pulled.
     */
    method DeleteComment(commentId: string, username: string, postId: string) returns (r: bool)
      requires Valid()
      modifies this
      ensures Valid() && users == old(users)
      ensures ParseObjectId(commentId).None? ==> !r && comments == old(comments) && posts == old(posts)
      ensures ParseObjectId(commentId).Some? ==>
        && comments == DeleteOne(old(comments), OwnedComment(ParseObjectId(commentId).value, username))
        && match CopyRemoval(old(posts), postId, commentId)
           case None => !r && posts == old(posts)
           case Some((i, p)) => r && posts == old(posts)[i := p]
      ensures forall i :: 0 <= i < |posts| && CommentsConsistent(old(posts)[i]) ==> CommentsConsistent(posts[i])
    {
      var cid := ParseObjectId(commentId);
      if cid.None? {
        return false;
      }
      DeleteOneWellKeyed(comments, OwnedComment(cid.value, username));
      comments := DeleteOne(comments, OwnedComment(cid.value, username));
      r := RemoveCopy(postId, commentId);
    }

    /**
      The rest of `delete_comment`: `find_one` on the post, the loop over its
      copies, and the pull of the copy with this id.
     */
    method RemoveCopy(postId: string, commentId: string) returns (r: bool)
      requires Valid()
      modifies this
      ensures Valid() && users == old(users) && comments == old(comments)
      ensures match CopyRemoval(old(posts), postId, commentId)
        case None => !r && posts == old(posts)
        case Some((i, p)) => r && posts == old(posts)[i := p]
      ensures forall i :: 0 <= i < |posts| && CommentsConsistent(old(posts)[i]) ==> CommentsConsistent(posts[i])
    {
      var removal := FindRemoval(postId, commentId);
      if removal.None? {
        return false;
      }
      var i := removal.value.0;
      CopyRemovalExact(posts, postId, commentId);
      ReplaceKeepsComments(posts, i, removal.value.1);
      var ok := UpdatePostAt(i, RemoveCommentUpdate(commentId));
      return true;
    }

    /**
      The reads of `delete_comment`: `find_one` on the post and the loop over
      its copies; the result is where the pull would go and what it writes.
     */
    method FindRemoval(postId: string, commentId: string) returns (removal: Option<(nat, Doc)>)
      ensures removal == CopyRemoval(posts, postId, commentId)
      ensures removal.Some? ==>
        removal.value.0 < |posts| &&
        ApplyUpdate(posts[removal.value.0], RemoveCommentUpdate(commentId)) == Some(removal.value.1)
    {
      var at := Locate(posts, postId);
      if !at.Found? {
        return None;  // ObjectId(post_id) raises, or post['comments'] on None
      }
      var post := posts[at.index];
      if "comments" !in post || !post["comments"].VList? {
        return None;
      }
      var scan := ScanFor(post["comments"].items, commentId);
      if scan != Hit {
        return None;  // no copy with this id, or c['_id'] raised first
      }
      var p := ApplyUpdate(post, RemoveCommentUpdate(commentId));
      if p.None? {
        return None;
      }
      return Some((at.index, p.value));
    }

    /**
      `delete_many_comments`: by post when a post id is given, otherwise by
      author when a user id is given, otherwise nothing. `storeFails` is the
      store raising on the delete, which leaves the collection as it was.
     */
    method DeleteManyComments(postId: Option<string>, userId: Option<string>, storeFails: bool) returns (r: bool)
      requires Valid()
      modifies this
      ensures Valid() && users == old(users) && posts == old(posts)
      ensures !r ==> comments == old(comments)
      ensures postId.Some? ==>
        && (r <==> ParseObjectId(postId.value).Some? && !storeFails)
        && (r ==> comments == DeleteMany(old(comments), CommentsOn(ParseObjectId(postId.value).value)))
      ensures postId.None? && userId.Some? ==>
        && (r <==> ParseObjectId(userId.value).Some? && !storeFails)
        && (r ==> comments == DeleteMany(old(comments), CommentsBy(ParseObjectId(userId.value).value)))
      ensures postId.None? && userId.None? ==> !r
    {
      var f: Filter;
      if postId.Some? {
        var pid := ParseObjectId(postId.value);
        if pid.None? {
          return false;
        }
        f := CommentsOn(pid.value);
      } else if userId.Some? {
        var uid := ParseObjectId(userId.value);
        if uid.None? {
          return false;
        }
        f := CommentsBy(uid.value);
      } else {
        return false;
      }
      if storeFails {
        return false;
      }
      SelectWellKeyed(comments, f, false);
      comments := DeleteMany(comments, f);
      return true;
    }

    // -------------------------------------------------------------------------
    // DELETE

    /**
      `delete_post`: first every comment on the post, then the post itself when
      its owner matches. `failingWrite` numbers the store write that raises
      (1: the comments, 2: the post); with any other value none does.
     */
    method DeletePost(postId: string, userId: string, failingWrite: nat) returns (r: bool)
      requires Valid()
      modifies this
      ensures Valid() && users == old(users)
      ensures ParseObjectId(postId).None? || failingWrite == 1 ==>
                !r && comments == old(comments) && posts == old(posts)
      ensures ParseObjectId(postId).Some? && failingWrite != 1 ==>
        var pid := ParseObjectId(postId).value;
        && comments == DeleteMany(old(comments), CommentsOn(pid))
        && if failingWrite == 2 then !r && posts == old(posts)
           else r && posts == DeleteOne(old(posts), OwnedPost(pid, userId))
      ensures r ==> GetPostComments(postId) == Some([])
      ensures posts != old(posts) ==> Find(comments, CommentsOn(ParseObjectId(postId).value)) == []
    {
      var deleted := DeleteManyComments(Some(postId), None, failingWrite == 1);
      if !deleted {
        return false;
      }
      var pid := ParseObjectId(postId).value;
      DeleteManyLeavesNone(old(comments), CommentsOn(pid));
      if failingWrite == 2 {
        return false;
      }
      DeleteOneWellKeyed(posts, OwnedPost(pid, userId));
      posts := DeleteOne(posts, OwnedPost(pid, userId));
      NoCommentsListed(postId);
      return true;
    }

    /**
      `delete_user`: first the user's comments, then the user's posts, then the
      user. `failingWrite` numbers the store write that raises (1: comments,
      2: posts, 3: the user); with any other value none does.
     */
    method DeleteUser(userId: string, failingWrite: nat) returns (r: bool)
      requires Valid()
      modifies this
      ensures Valid()
      ensures r <==> ParseObjectId(userId).Some? && failingWrite !in {1, 2, 3}
      ensures ParseObjectId(userId).None? || failingWrite == 1 ==>
                comments == old(comments) && posts == old(posts) && users == old(users)
      ensures ParseObjectId(userId).Some? && failingWrite != 1 ==>
        var uid := ParseObjectId(userId).value;
        && comments == DeleteMany(old(comments), CommentsBy(uid))
        && (if failingWrite == 2 then posts == old(posts) else posts == DeleteMany(old(posts), PostsOf(userId)))
        && (if failingWrite in {2, 3} then users == old(users) else users == DeleteOne(old(users), IdFilter(uid)))
      ensures r ==>
        && FindOne(users, IdFilter(ParseObjectId(userId).value)).None?
        && FindUserPosts(userId) == Some([])
        && Find(comments, CommentsBy(ParseObjectId(userId).value)) == []
      ensures posts != old(posts) ==> Find(comments, CommentsBy(ParseObjectId(userId).value)) == []
      ensures users != old(users) ==> Find(posts, PostsOf(userId)) == []
    {
      var deleted := DeleteManyComments(None, Some(userId), failingWrite == 1);
      if !deleted {
        return false;
      }
      var uid := ParseObjectId(userId).value;
      DeleteManyLeavesNone(old(comments), CommentsBy(uid));
      if failingWrite == 2 {
        return false;
      }
      SelectWellKeyed(posts, PostsOf(userId), false);
      DeleteManyLeavesNone(posts, PostsOf(userId));
      posts := DeleteMany(posts, PostsOf(userId));
      if failingWrite == 3 {
        return false;
      }
      DeleteOneWellKeyed(users, IdFilter(uid));
      DeleteOneByIdLeavesNone(users, uid);
      users := DeleteOne(users, IdFilter(uid));
      return true;
    }

    /** `update_one({'_id': ...}, update)` on the post at position `i`. */
    method UpdatePostAt(i: nat, update: Update) returns (ok: bool)
      requires Valid() && i < |posts|
      modifies this
      ensures Valid() && users == old(users) && comments == old(comments)
      ensures match ApplyUpdate(old(posts)[i], update)
        case None => !ok && posts == old(posts)
        case Some(p) => ok && posts == old(posts)[i := p]
    {
      var p := ApplyUpdate(posts[i], update);
      if p.None? {
        return false;
      }
      ReplaceWellKeyed(posts, i, p.value);
      posts := posts[i := p.value];
      return true;
    }
  }
}
