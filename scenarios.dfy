/**
  Two end-to-end runs of the later storage layer from an empty database:
  a user likes a post twice and then unlikes it, and a password change is
  refused for a wrong old password. Each is proved from the operations'
  contracts alone.
 */
module Scenarios {
  import opened Wrappers
  import opened ObjectIds
  import opened Credentials
  import opened Documents
  import opened Mongo
  import opened PostDocs
  import opened Storage

  /** The sign-up document for amy. */
  function Amy(): Doc {
    map["username" := VStr("amy"), "email" := VStr("a@x.com"), "password" := VStr("pw1")]
  }

  /**
    A post owned by the user with this id. The scenario assumes the caller
    stored it with an empty `likes` list and a zero `number_of_likes`;
    without `likes`, `like_post` would raise KeyError at `post['likes']`.
   */
  function FreshPost(owner: ObjectId): Doc {
    map["title" := VStr("t"), "content" := VStr("c"), "user_id" := VStr(IdString(owner)),
        "likes" := VList([]), "number_of_likes" := VInt(0)]
  }

  /** Which post of the collection holds this id, when exactly one does. */
  lemma LocateSingle(c: Collection, id: ObjectId)
    requires |c| == 1 && "_id" in c[0] && c[0]["_id"] == VId(id)
    ensures Locate(c, IdString(id)) == Found(0)
  {
    ParseIdString(id);
    assert Matches(c[0], IdFilter(id));
  }

  /** amy's user document as stored. */
  function StoredAmy(amyId: ObjectId, salt: Salt): Doc {
    Amy()["password" := VHash(HashPass("pw1", salt))]["_id" := VId(amyId)]
  }

  /** The post as stored, liked by the given list. */
  function PostLikedBy(owner: ObjectId, postId: ObjectId, likes: seq<Value>): Doc {
    FreshPost(owner)["_id" := VId(postId)]["number_of_likes" := VInt(|likes|)]["likes" := VList(likes)]
  }

  /** What the like and unlike calls read on that database: amy's username and the post's likes. */
  lemma LikeTargets(amyId: ObjectId, postId: ObjectId, salt: Salt, likes: seq<Value>)
    ensures LocateLike([StoredAmy(amyId, salt)], [PostLikedBy(amyId, postId, likes)], IdString(amyId), IdString(postId)) ==
              Returned(LikeTarget(0, VStr("amy"), likes))
  {
    LocateSingle([StoredAmy(amyId, salt)], amyId);
    LocateSingle([PostLikedBy(amyId, postId, likes)], postId);
  }

  /** What the like writes on a post nobody liked: amy is added and counted. */
  lemma LikeWrites(amyId: ObjectId, postId: ObjectId)
    ensures ApplyUpdate(PostLikedBy(amyId, postId, []), LikeUpdate(VStr("amy"))) ==
              Some(PostLikedBy(amyId, postId, [VStr("amy")]))
  {
    var p0 := PostLikedBy(amyId, postId, []);
    assert p0["likes"].items == [];
    LikeAddsOnce(p0, VStr("amy"));
    assert p0["likes"].items + [VStr("amy")] == [VStr("amy")];
    var p1 := p0["number_of_likes" := VInt(1)]["likes" := VList([VStr("amy")])];
    assert p1.Keys == PostLikedBy(amyId, postId, [VStr("amy")]).Keys;
    assert forall k :: k in p1 ==> p1[k] == PostLikedBy(amyId, postId, [VStr("amy")])[k];
    assert p1 == PostLikedBy(amyId, postId, [VStr("amy")]);
    assert LikesConsistent(p0);
    assert ApplyUpdate(p0, LikeUpdate(VStr("amy"))).value == p1;
  }

  /** What the unlike writes on the post amy liked: both the like and the count are taken back. */
  lemma UnlikeWrites(amyId: ObjectId, postId: ObjectId)
    ensures ApplyUpdate(PostLikedBy(amyId, postId, [VStr("amy")]), UnlikeUpdate(VStr("amy"))) ==
              Some(PostLikedBy(amyId, postId, []))
  {
    var p0 := PostLikedBy(amyId, postId, []);
    assert p0["likes"].items == [];
    assert LikesConsistent(p0);
    LikeWrites(amyId, postId);
    LikeThenUnlikeRestores(p0, VStr("amy"));
  }

  /** An empty database after amy signs up and writes one post. */
  method AmyAndHerPost(amyId: ObjectId, postId: ObjectId, salt: Salt) returns (db: DBStorage)
    ensures fresh(db) && db.Valid()
    ensures db.users == [StoredAmy(amyId, salt)] && db.posts == [PostLikedBy(amyId, postId, [])]
  {
    db := new DBStorage([], [], []);
    var amy := db.InsertUser(Amy(), amyId, salt);
    assert db.users == [StoredAmy(amyId, salt)];
    var post := db.InsertPost(FreshPost(amyId), postId);
    assert FreshPost(amyId)["_id" := VId(postId)] == PostLikedBy(amyId, postId, []);
  }

  /**
    like, like again, unlike: False with one like, True with the count still
    one, False with no like left.
   */
  method LikeTwiceThenUnlike(amyId: ObjectId, postId: ObjectId, salt: Salt)
    returns (first: Outcome<bool>, likes1: Value, second: Outcome<bool>, likes2: Value,
             third: Outcome<bool>, likes3: Value)
    ensures first == Returned(false) && likes1 == VInt(1)
    ensures second == Returned(true) && likes2 == VInt(1)
    ensures third == Returned(false) && likes3 == VInt(0)
  {
    var db := AmyAndHerPost(amyId, postId, salt);

    first := LikeStep(db, amyId, postId, salt, [], true);
    likes1 := db.posts[0]["number_of_likes"];
    second := LikeStep(db, amyId, postId, salt, [VStr("amy")], true);
    likes2 := db.posts[0]["number_of_likes"];
    third := LikeStep(db, amyId, postId, salt, [VStr("amy")], false);
    likes3 := db.posts[0]["number_of_likes"];
  }

  /** One like (or unlike) by amy on her post, liked so far by `likes`. */
  method LikeStep(db: DBStorage, amyId: ObjectId, postId: ObjectId, salt: Salt, likes: seq<Value>, like: bool)
    returns (r: Outcome<bool>)
    requires likes == [] || likes == [VStr("amy")]
    requires db.Valid() && db.users == [StoredAmy(amyId, salt)] && db.posts == [PostLikedBy(amyId, postId, likes)]
    modifies db
    ensures db.Valid() && db.users == old(db.users)
    ensures r == Returned(like == (likes != []))
    ensures db.posts == [PostLikedBy(amyId, postId, if like then [VStr("amy")] else [])]
  {
    if like {
      r := LikeOnce(db, amyId, postId, salt, likes);
    } else {
      r := UnlikeOnce(db, amyId, postId, salt, likes);
    }
  }

  /** amy likes her post: a first like is recorded, a second one reports that she already liked it. */
  method LikeOnce(db: DBStorage, amyId: ObjectId, postId: ObjectId, salt: Salt, likes: seq<Value>)
    returns (r: Outcome<bool>)
    requires likes == [] || likes == [VStr("amy")]
    requires db.Valid() && db.users == [StoredAmy(amyId, salt)] && db.posts == [PostLikedBy(amyId, postId, likes)]
    modifies db
    ensures db.Valid() && db.users == old(db.users)
    ensures r == Returned(likes != [])
    ensures db.posts == [PostLikedBy(amyId, postId, [VStr("amy")])]
  {
    LikeTargets(amyId, postId, salt, likes);
    if likes == [] {
      LikeWrites(amyId, postId);
    }
    r := db.LikePost(IdString(amyId), IdString(postId));
  }

  /** amy takes back her like; with none to take back, the call reports that she had not liked the post. */
  method UnlikeOnce(db: DBStorage, amyId: ObjectId, postId: ObjectId, salt: Salt, likes: seq<Value>)
    returns (r: Outcome<bool>)
    requires likes == [] || likes == [VStr("amy")]
    requires db.Valid() && db.users == [StoredAmy(amyId, salt)] && db.posts == [PostLikedBy(amyId, postId, likes)]
    modifies db
    ensures db.Valid() && db.users == old(db.users)
    ensures r == Returned(likes == [])
    ensures db.posts == [PostLikedBy(amyId, postId, [])]
  {
    LikeTargets(amyId, postId, salt, likes);
    if likes != [] {
      UnlikeWrites(amyId, postId);
    }
    r := db.UnlikePost(IdString(amyId), IdString(postId));
  }

  /** A wrong old password gives -2, and the old one still verifies afterwards. */
  method WrongOldPassword(amyId: ObjectId, salt: Salt, newSalt: Salt)
    returns (code: Outcome<int>, oldStillVerifies: bool)
    ensures code == Returned(-2)
    ensures oldStillVerifies
  {
    var db := new DBStorage([], [], []);
    var amy := db.InsertUser(Amy(), amyId, salt);
    LocateSingle(db.users, amyId);
    code := db.UpdateUserPassword(IdString(amyId), "wrong", "new", newSalt, false);
    LocateSingle(db.users, amyId);
    match StoredDigest(db.users, IdString(amyId)) {
      case None =>
        oldStillVerifies := false;
      case Some(h) =>
        oldStillVerifies := CheckHashPassword(h, "pw1");
    }
  }
}
