/**
  The earlier persistence layer, `DBStorage` in db/db_manager.py: users and
  posts only, no comments.

  `insert_user`, `insert_post`, `find_user`, `get_hash`, `find_post`,
  `find_all_users`, `find_all_posts` and `update_user_password` are the same
  code as in the later layer and are modelled once, in module Storage. This
  class holds the operations that differ: posts store their owner as an
  ObjectId, likes hold the liker's ObjectId, `update_user_info` does not
  touch posts, `update_post` returns nothing, and `delete_post` removes the
  post alone.
 */
module LegacyStorage {
  import opened Wrappers
  import opened ObjectIds
  import opened Documents
  import opened Mongo
  import opened PostDocs
  import Storage

  /** `{'user_id': ObjectId(user_id)}` on posts. */
  function PostsOf(userId: ObjectId): Filter {
    map["user_id" := VId(userId)]
  }

  /** `{'_id': ObjectId(post_id), 'user_id': ObjectId(user_id)}`: the ownership filter. */
  function OwnedPost(postId: ObjectId, userId: ObjectId): Filter {
    map["_id" := VId(postId), "user_id" := VId(userId)]
  }

  /**
    The reads of `like_post` and `unlike_post` here: `ObjectId(post_id)`,
    `ObjectId(user_id)`, then `post['likes']`; the liker is the user's ObjectId,
    whether or not such a user exists.
   */
  function LocateLike(posts: Collection, userId: string, postId: string): (r: Outcome<Storage.LikeTarget>)
    ensures r.Returned? ==>
      && r.value.index < |posts|
      && Locate(posts, postId) == Found(r.value.index)
      && "likes" in posts[r.value.index] && posts[r.value.index]["likes"] == VList(r.value.likes)
      && ParseObjectId(userId).Some? && r.value.liker == VId(ParseObjectId(userId).value)
    ensures r.Raised? <==>
      || ParseObjectId(postId).None? || ParseObjectId(userId).None?
      || !Locate(posts, postId).Found?
      || "likes" !in posts[Locate(posts, postId).index]
      || !posts[Locate(posts, postId).index]["likes"].VList?
  {
    var at := Locate(posts, postId);
    if at.BadId? then Raised(InvalidId)
    else
      var uid := ParseObjectId(userId);
      if uid.None? then Raised(InvalidId)
      else if at.Missing? then Raised(TypeError)       // post['likes'] on None
      else if "likes" !in posts[at.index] then Raised(KeyError)
      else if !posts[at.index]["likes"].VList? then Raised(TypeError)
      else Returned(Storage.LikeTarget(at.index, VId(uid.value), posts[at.index]["likes"].items))
  }

  class DBStorage {
    var users: Collection
    var posts: Collection

    /** The unique `_id` index of each collection. */
    ghost predicate Valid()
      reads this
    {
      WellKeyed(users) && WellKeyed(posts)
    }

    /** A storage object over a database that holds these collections. */
    constructor (users0: Collection, posts0: Collection)
      requires WellKeyed(users0) && WellKeyed(posts0)
      ensures Valid() && users == users0 && posts == posts0
    {
      users, posts := users0, posts0;
    }

    /** `find_user_posts`: the posts whose `user_id` is that ObjectId, or `None` for an invalid id. */
    function FindUserPosts(userId: string): (r: Option<seq<Doc>>)
      reads this
      ensures r.None? <==> ParseObjectId(userId).None?
      ensures r.Some? ==> |r.value| == |Find(posts, PostsOf(ParseObjectId(userId).value))|
      ensures r.Some? ==> forall d :: d in r.value <==>
        exists p :: p in posts && Matches(p, PostsOf(ParseObjectId(userId).value)) && d == SerializeObjectId(p)
    {
      match ParseObjectId(userId)
      case None => None
      case Some(uid) =>
        var found := Find(posts, PostsOf(uid));
        SerializeAllMembers(found);
        Some(SerializeAll(found))
    }

    /**
      `update_user_info`: the password is popped and the user is updated with
      `$set`; posts are not touched. As in the later layer the result is
      always `None`, since iterating the returned document raises.
     */
    method UpdateUserInfo(userId: string, updateFields: Doc) returns (r: Option<Doc>)
      requires Valid()
      modifies this
      ensures Valid() && posts == old(posts)
      ensures r.None?
      ensures match Locate(old(users), userId)
        case Found(i) =>
          (match ApplyUpdate(old(users)[i], Set(Storage.UserInfoUpdate(updateFields)))
           case None => users == old(users)
           case Some(u) => users == old(users)[i := u])
        case _ => users == old(users)
      ensures |users| == |old(users)| && forall i :: 0 <= i < |users| ==> Storage.SamePassword(users[i], old(users)[i])
    {
      match Locate(users, userId) {
        case Found(i) =>
          var u := ApplyUpdate(users[i], Set(Storage.UserInfoUpdate(updateFields)));
          if u.Some? {
            Storage.UserInfoKeepsPassword(users[i], updateFields);
            ReplaceWellKeyed(users, i, u.value);
            users := users[i := u.value];
            assert SerializeKeysOf(u.value).Raised?;
          }
        case _ =>
      }
      r := None;
    }

    /**
      `update_post`: `$set` on the post when both its id and its owner's
      ObjectId match. The result is always `None`: the returned document is
      iterated key by key, which raises, and a missing post is iterated as
      `None`, which raises too.
     */
    method UpdatePost(postId: string, userId: string, updateFields: Doc) returns (r: Option<Doc>)
      requires Valid()
      modifies this
      ensures Valid() && users == old(users)
      ensures r.None?
      ensures ParseObjectId(postId).None? || ParseObjectId(userId).None? ==> posts == old(posts)
      ensures ParseObjectId(postId).Some? && ParseObjectId(userId).Some? ==>
        var owned := OwnedPost(ParseObjectId(postId).value, ParseObjectId(userId).value);
        match FirstMatch(old(posts), owned)
        case None => posts == old(posts)
        case Some(i) =>
          match ApplyUpdate(old(posts)[i], Set(updateFields))
          case None => posts == old(posts)
          case Some(p) => posts == old(posts)[i := p]
    {
      var pid := ParseObjectId(postId);
      var uid := ParseObjectId(userId);
      if pid.None? || uid.None? {
        return None;
      }
      match FirstMatch(posts, OwnedPost(pid.value, uid.value)) {
        case None =>
        case Some(i) =>
          var p := ApplyUpdate(posts[i], Set(updateFields));
          if p.Some? {
            ReplaceWellKeyed(posts, i, p.value);
            posts := posts[i := p.value];
            assert SerializeKeysOf(p.value).Raised?;
          }
      }
      r := None;
    }

    /**
      `delete_post`: the post goes when both its id and its owner match;
      nothing else is removed. False for an invalid id or when the store
      raises (`storeFails`).
     */
    method DeletePost(postId: string, userId: string, storeFails: bool) returns (r: bool)
      requires Valid()
      modifies this
      ensures Valid() && users == old(users)
      ensures r <==> ParseObjectId(postId).Some? && ParseObjectId(userId).Some? && !storeFails
      ensures !r ==> posts == old(posts)
      ensures r ==> posts == DeleteOne(old(posts), OwnedPost(ParseObjectId(postId).value, ParseObjectId(userId).value))
      ensures r ==> FindOne(posts, OwnedPost(ParseObjectId(postId).value, ParseObjectId(userId).value)).None?
    {
      var pid := ParseObjectId(postId);
      var uid := ParseObjectId(userId);
      if pid.None? || uid.None? || storeFails {
        return false;
      }
      var f := OwnedPost(pid.value, uid.value);
      DeleteOneWellKeyed(posts, f);
      DeleteOneOwnedLeavesNone(posts, pid.value, uid.value);
      posts := DeleteOne(posts, f);
      return true;
    }

    /** `like_post`: as in the later layer, with the user's ObjectId as the liker. */
    method LikePost(userId: string, postId: string) returns (r: Outcome<bool>)
      requires Valid()
      modifies this
      ensures Valid() && users == old(users)
      ensures |posts| == |old(posts)|
      ensures match LocateLike(old(posts), userId, postId)
        case Raised(f) => r == Raised(f) && posts == old(posts)
        case Returned(t) =>
          if t.liker in t.likes then r == Returned(true) && posts == old(posts)
          else
            match ApplyUpdate(old(posts)[t.index], LikeUpdate(t.liker))
            case None => r == Raised(WriteError) && posts == old(posts)
            case Some(p) => r == Returned(false) && posts == old(posts)[t.index := p]
      ensures forall i :: 0 <= i < |posts| && LikesConsistent(old(posts)[i]) ==> LikesConsistent(posts[i])
    {
      var target := LocateLike(posts, userId, postId);
      if target.Raised? {
        return Raised(target.fault);
      }
      var t := target.value;
      if t.liker in t.likes {
        return Returned(true);
      }
      var p := ApplyUpdate(posts[t.index], LikeUpdate(t.liker));
      if p.Some? {
        if LikesConsistent(posts[t.index]) {
          LikeAddsOnce(posts[t.index], t.liker);
        }
        ReplaceKeepsLikes(posts, t.index, p.value);
      }
      var ok := UpdatePostAt(t.index, LikeUpdate(t.liker));
      r := if ok then Returned(false) else Raised(WriteError);
    }

    /** `unlike_post`: as in the later layer, with the user's ObjectId as the liker. */
    method UnlikePost(userId: string, postId: string) returns (r: Outcome<bool>)
      requires Valid()
      modifies this
      ensures Valid() && users == old(users)
      ensures |posts| == |old(posts)|
      ensures match LocateLike(old(posts), userId, postId)
        case Raised(f) => r == Raised(f) && posts == old(posts)
        case Returned(t) =>
          if t.liker !in t.likes then r == Returned(true) && posts == old(posts)
          else
            match ApplyUpdate(old(posts)[t.index], UnlikeUpdate(t.liker))
            case None => r == Raised(WriteError) && posts == old(posts)
            case Some(p) => r == Returned(false) && posts == old(posts)[t.index := p]
      ensures forall i :: 0 <= i < |posts| && LikesConsistent(old(posts)[i]) ==> LikesConsistent(posts[i])
    {
      var target := LocateLike(posts, userId, postId);
      if target.Raised? {
        return Raised(target.fault);
      }
      var t := target.value;
      if t.liker !in t.likes {
        return Returned(true);
      }
      var p := ApplyUpdate(posts[t.index], UnlikeUpdate(t.liker));
      if p.Some? {
        if LikesConsistent(posts[t.index]) {
          UnlikeRemovesOnce(posts[t.index], t.liker);
        }
        ReplaceKeepsLikes(posts, t.index, p.value);
      }
      var ok := UpdatePostAt(t.index, UnlikeUpdate(t.liker));
      r := if ok then Returned(false) else Raised(WriteError);
    }

    /** `update_one({'_id': ...}, update)` on the post at position `i`. */
    method UpdatePostAt(i: nat, update: Update) returns (ok: bool)
      requires Valid() && i < |posts|
      modifies this
      ensures Valid() && users == old(users)
      ensures match ApplyUpdate(old(posts)[i], update)
        case None => !ok && posts == old(posts)
        case Some(p) => ok && posts == old(posts)[i := p]
    {
      var p := ApplyUpdate(posts[i], update);
      if p.None? {
        return false;
      }
      ReplaceWellKeyed(posts, i, p.value);
      posts := posts[i := p.value];
      return true;
    }
  }

  /** After `delete_one` on the ownership filter no post matches it: ids are unique. */
  lemma DeleteOneOwnedLeavesNone(c: Collection, postId: ObjectId, userId: ObjectId)
    requires WellKeyed(c)
    ensures FindOne(DeleteOne(c, OwnedPost(postId, userId)), OwnedPost(postId, userId)).None?
  {
    var f := OwnedPost(postId, userId);
    DeleteOneByIdLeavesNone(c, postId);
    var r := DeleteOne(c, f);
    if FirstMatch(c, f).None? {
      assert forall i :: 0 <= i < |c| ==> !Matches(c[i], f);
    } else {
      var k := FirstMatch(c, f).value;
      assert DeleteOne(c, IdFilter(postId)) == r by {
        assert Matches(c[k], IdFilter(postId));
        assert forall i :: 0 <= i < k ==> !Matches(c[i], IdFilter(postId));
      }
    }
  }
}
