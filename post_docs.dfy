/**
  What the storage layer keeps in a post document besides its own fields:
  the liker list with its counter, and the embedded comment copies with
  theirs. Both storage versions send the same update documents for likes
  (flask_backend/db/db_manager.py:249-272, db/db_manager.py:221-243); the
  later one also sends those for comments (flask_backend/db/db_manager.py:287-293,
  351-357). The lemmas say what those updates do to a post whose counters agree
  with its lists.
 */
module PostDocs {
  import opened Wrappers
  import opened Documents
  import opened Mongo

  predicate NoRepeats(xs: seq<Value>) {
    forall i, j :: 0 <= i < |xs| && 0 <= j < |xs| && i != j ==> xs[i] != xs[j]
  }

  /** `number_of_likes == len(likes)` and no one is counted twice. */
  ghost predicate LikesConsistent(p: Doc) {
    && "likes" in p && p["likes"].VList? && NoRepeats(p["likes"].items)
    && "number_of_likes" in p && p["number_of_likes"] == VInt(|p["likes"].items|)
  }

  /** `{'$inc': {'number_of_likes': 1}, '$addToSet': {'likes': liker}}` */
  function LikeUpdate(liker: Value): Update {
    IncAddToSet("number_of_likes", 1, "likes", liker)
  }

  /** `{'$inc': {'number_of_likes': -1}, '$pull': {'likes': liker}}` */
  function UnlikeUpdate(liker: Value): Update {
    IncPull("number_of_likes", -1, "likes", liker)
  }

  /** An embedded comment copy: a document with an `_id`. */
  predicate IsCommentCopy(x: Value) {
    x.VDoc? && "_id" in x.fields
  }

  predicate DistinctCopies(xs: seq<Value>) {
    && (forall i :: 0 <= i < |xs| ==> IsCommentCopy(xs[i]))
    && (forall i, j :: 0 <= i < |xs| && 0 <= j < |xs| && i != j ==>
          xs[i].fields["_id"] != xs[j].fields["_id"])
  }

  predicate HasCopy(xs: seq<Value>, id: Value) {
    exists i :: 0 <= i < |xs| && IsCommentCopy(xs[i]) && xs[i].fields["_id"] == id
  }

  /** `number_of_comments == len(comments)` and each copy has its own `_id`. */
  ghost predicate CommentsConsistent(p: Doc) {
    && "comments" in p && p["comments"].VList? && DistinctCopies(p["comments"].items)
    && "number_of_comments" in p && p["number_of_comments"] == VInt(|p["comments"].items|)
  }

  /** `{'$inc': {'number_of_comments': 1}, '$addToSet': {'comments': copy}}` */
  function AddCommentUpdate(copy: Doc): Update {
    IncAddToSet("number_of_comments", 1, "comments", VDoc(copy))
  }

  /** The pull condition `{'_id': comment_id}`. */
  function CopyCondition(commentId: string): Value {
    VDoc(map["_id" := VStr(commentId)])
  }

  /** A comment copy matches `{'_id': comment_id}` exactly when it carries that id. */
  lemma CopyConditionMatches(x: Value, commentId: string)
    requires IsCommentCopy(x)
    ensures PullMatches(x, CopyCondition(commentId)) <==> x.fields["_id"] == VStr(commentId)
  {
    assert "_id" in CopyCondition(commentId).fields;
  }

  /** `{'$inc': {'number_of_comments': -1}, '$pull': {'comments': {'_id': comment_id}}}` */
  function RemoveCommentUpdate(commentId: string): Update {
    IncPull("number_of_comments", -1, "comments", CopyCondition(commentId))
  }

  // ---------------------------------------------------------------------------
  // $pull on lists

  lemma {:induction false} PullNone(xs: seq<Value>, cond: Value)
    requires forall i :: 0 <= i < |xs| ==> !PullMatches(xs[i], cond)
    ensures PullAll(xs, cond) == xs
  {
    if xs != [] {
      PullNone(xs[1..], cond);
    }
  }

  /** Pulling the one element that matches removes exactly that element. */
  lemma {:induction false} PullSingle(xs: seq<Value>, cond: Value, k: nat)
    requires k < |xs| && PullMatches(xs[k], cond)
    requires forall i :: 0 <= i < |xs| && i != k ==> !PullMatches(xs[i], cond)
    ensures PullAll(xs, cond) == xs[..k] + xs[k + 1..]
  {
    if k == 0 {
      PullMatchingHead(xs, cond);
    } else {
      var rest := xs[1..];
      forall i | 0 <= i < |rest| && i != k - 1 ensures !PullMatches(rest[i], cond) {
        assert rest[i] == xs[i + 1];
      }
      PullSingle(rest, cond, k - 1);
      PullNonMatchingHead(xs, cond);
      assert rest[..k - 1] + rest[k..] == xs[1..k] + xs[k + 1..];
      assert [xs[0]] + xs[1..k] == xs[..k];
    }
  }

  lemma PullMatchingHead(xs: seq<Value>, cond: Value)
    requires xs != [] && PullMatches(xs[0], cond)
    requires forall i :: 1 <= i < |xs| ==> !PullMatches(xs[i], cond)
    ensures PullAll(xs, cond) == xs[1..]
  {
    var rest := xs[1..];
    forall i | 0 <= i < |rest| ensures !PullMatches(rest[i], cond) {
      assert rest[i] == xs[i + 1];
    }
    PullNone(rest, cond);
  }

  lemma PullNonMatchingHead(xs: seq<Value>, cond: Value)
    requires xs != [] && !PullMatches(xs[0], cond)
    ensures PullAll(xs, cond) == [xs[0]] + PullAll(xs[1..], cond)
  {
  }

  /** Dropping the element at `k`, which occurs nowhere else, keeps exactly the other elements. */
  lemma RemoveAtMembers(xs: seq<Value>, k: nat)
    requires k < |xs|
    requires forall i :: 0 <= i < |xs| && i != k ==> xs[i] != xs[k]
    ensures forall x :: x in xs[..k] + xs[k + 1..] <==> x in xs && x != xs[k]
  {
    var r := xs[..k] + xs[k + 1..];
    assert forall i :: 0 <= i < |r| ==> r[i] == xs[if i < k then i else i + 1];
    forall x | x in xs && x != xs[k] ensures x in r {
      var j :| 0 <= j < |xs| && xs[j] == x;
      assert r[if j < k then j else j - 1] == x;
    }
  }

  lemma RemoveAtKeepsNoRepeats(xs: seq<Value>, k: nat)
    requires NoRepeats(xs) && k < |xs|
    ensures NoRepeats(xs[..k] + xs[k + 1..])
  {
    var r := xs[..k] + xs[k + 1..];
    assert forall i :: 0 <= i < |r| ==> r[i] == xs[if i < k then i else i + 1];
  }

  lemma RemoveAtKeepsDistinctCopies(xs: seq<Value>, k: nat)
    requires DistinctCopies(xs) && k < |xs|
    ensures DistinctCopies(xs[..k] + xs[k + 1..])
  {
    var r := xs[..k] + xs[k + 1..];
    assert forall i :: 0 <= i < |r| ==> r[i] == xs[if i < k then i else i + 1];
  }

  // ---------------------------------------------------------------------------
  // likes

  /** Rewriting one post in a way that keeps it consistent keeps every post consistent. */
  lemma ReplaceKeepsLikes(posts: seq<Doc>, i: nat, p: Doc)
    requires i < |posts| && (LikesConsistent(posts[i]) ==> LikesConsistent(p))
    ensures forall j :: 0 <= j < |posts| && LikesConsistent(posts[j]) ==> LikesConsistent(posts[i := p][j])
  {
  }

  /** The same, for the posts that do not yet hold a copy with this id. */
  lemma ReplaceKeepsCommentsWithout(posts: seq<Doc>, i: nat, p: Doc, id: Value)
    requires i < |posts|
    requires CommentsConsistent(posts[i]) && !HasCopy(posts[i]["comments"].items, id) ==> CommentsConsistent(p)
    ensures forall j :: 0 <= j < |posts| && CommentsConsistent(posts[j]) && !HasCopy(posts[j]["comments"].items, id) ==>
              CommentsConsistent(posts[i := p][j])
  {
  }

  lemma ReplaceKeepsComments(posts: seq<Doc>, i: nat, p: Doc)
    requires i < |posts| && (CommentsConsistent(posts[i]) ==> CommentsConsistent(p))
    ensures forall j :: 0 <= j < |posts| && CommentsConsistent(posts[j]) ==> CommentsConsistent(posts[i := p][j])
  {
  }

  /** Liking with a new liker appends it once and moves the counter by one. */
  lemma LikeAddsOnce(p: Doc, liker: Value)
    requires LikesConsistent(p) && liker !in p["likes"].items
    ensures ApplyUpdate(p, LikeUpdate(liker)).Some?
    ensures var q := ApplyUpdate(p, LikeUpdate(liker)).value;
      && q == p["number_of_likes" := VInt(|p["likes"].items| + 1)]
               ["likes" := VList(p["likes"].items + [liker])]
      && LikesConsistent(q)
  {
    var xs := p["likes"].items;
    var ys := xs + [liker];
    assert forall i :: 0 <= i < |xs| ==> ys[i] == xs[i];
  }

  /** Unliking by a present liker removes it once and moves the counter back by one. */
  lemma UnlikeRemovesOnce(p: Doc, liker: Value)
    requires LikesConsistent(p) && liker in p["likes"].items && !liker.VDoc?
    ensures ApplyUpdate(p, UnlikeUpdate(liker)).Some?
    ensures var q := ApplyUpdate(p, UnlikeUpdate(liker)).value;
      && LikesConsistent(q)
      && liker !in q["likes"].items
      && |q["likes"].items| == |p["likes"].items| - 1
      && (forall x :: x in q["likes"].items <==> x in p["likes"].items && x != liker)
      && q.Keys == p.Keys
      && (forall k :: k in p && k != "likes" && k != "number_of_likes" ==> q[k] == p[k])
  {
    var xs := p["likes"].items;
    var k :| 0 <= k < |xs| && xs[k] == liker;
    PullSingle(xs, liker, k);
    RemoveAtKeepsNoRepeats(xs, k);
    RemoveAtMembers(xs, k);
  }

  /** A like followed by an unlike of the same liker gives back the original post. */
  lemma LikeThenUnlikeRestores(p: Doc, liker: Value)
    requires LikesConsistent(p) && liker !in p["likes"].items && !liker.VDoc?
    ensures ApplyUpdate(p, LikeUpdate(liker)).Some?
    ensures ApplyUpdate(ApplyUpdate(p, LikeUpdate(liker)).value, UnlikeUpdate(liker)) == Some(p)
  {
    LikeAddsOnce(p, liker);
    var xs := p["likes"].items;
    var q := ApplyUpdate(p, LikeUpdate(liker)).value;
    PullSingle(xs + [liker], liker, |xs|);
    assert (xs + [liker])[..|xs|] == xs;
    assert IncField(q, "number_of_likes", -1) == Some(VInt(|xs|));
    assert PullAll(q["likes"].items, liker) == xs;
    var r := ApplyUpdate(q, UnlikeUpdate(liker)).value;
    assert r == q["number_of_likes" := VInt(|xs|)]["likes" := VList(xs)];
    assert r == p;
  }

  // ---------------------------------------------------------------------------
  // embedded comments

  /** A copy with a new `_id` is appended once and the counter moves by one. */
  lemma AddCommentOnce(p: Doc, copy: Doc)
    requires CommentsConsistent(p) && "_id" in copy && !HasCopy(p["comments"].items, copy["_id"])
    ensures ApplyUpdate(p, AddCommentUpdate(copy)).Some?
    ensures var q := ApplyUpdate(p, AddCommentUpdate(copy)).value;
      && q == p["number_of_comments" := VInt(|p["comments"].items| + 1)]
               ["comments" := VList(p["comments"].items + [VDoc(copy)])]
      && CommentsConsistent(q)
      && HasCopy(q["comments"].items, copy["_id"])
  {
    var xs := p["comments"].items;
    var ys := xs + [VDoc(copy)];
    assert forall i :: 0 <= i < |xs| ==> ys[i] == xs[i];
    assert VDoc(copy) !in xs;
    assert IsCommentCopy(ys[|xs|]);
  }

  /**
    `$addToSet` does not append a copy equal to one already there, but `$inc`
    still counts it: the counter runs ahead of the list.
   */
  lemma AddPresentCopyDrifts(p: Doc, copy: Doc)
    requires CommentsConsistent(p) && VDoc(copy) in p["comments"].items
    ensures ApplyUpdate(p, AddCommentUpdate(copy)).Some?
    ensures var q := ApplyUpdate(p, AddCommentUpdate(copy)).value;
      && q["comments"] == p["comments"]
      && q["number_of_comments"] == VInt(|p["comments"].items| + 1)
      && !CommentsConsistent(q)
  {
  }

  /**
    A copy that differs from every stored one but reuses a stored `_id` is
    appended and counted, and the copies' `_id`s are no longer distinct.
   */
  lemma AddCopyWithTakenIdRepeats(p: Doc, copy: Doc)
    requires CommentsConsistent(p) && "_id" in copy
    requires HasCopy(p["comments"].items, copy["_id"]) && VDoc(copy) !in p["comments"].items
    ensures ApplyUpdate(p, AddCommentUpdate(copy)).Some?
    ensures var q := ApplyUpdate(p, AddCommentUpdate(copy)).value;
      && q["comments"] == VList(p["comments"].items + [VDoc(copy)])
      && !DistinctCopies(q["comments"].items)
  {
    var xs := p["comments"].items;
    var k :| 0 <= k < |xs| && IsCommentCopy(xs[k]) && xs[k].fields["_id"] == copy["_id"];
    var ys := xs + [VDoc(copy)];
    assert ys[k] == xs[k] && ys[|xs|] == VDoc(copy);
    assert ys[k].fields["_id"] == ys[|xs|].fields["_id"];
  }

  /** Pulling by a present copy id removes exactly that copy from the list. */
  lemma PullCopy(xs: seq<Value>, commentId: string)
    requires DistinctCopies(xs) && HasCopy(xs, VStr(commentId))
    ensures var ys := PullAll(xs, CopyCondition(commentId));
      && DistinctCopies(ys)
      && !HasCopy(ys, VStr(commentId))
      && |ys| == |xs| - 1
      && (forall x :: x in ys <==> x in xs && x.fields["_id"] != VStr(commentId))
  {
    var cond := CopyCondition(commentId);
    var k :| 0 <= k < |xs| && IsCommentCopy(xs[k]) && xs[k].fields["_id"] == VStr(commentId);
    forall i | 0 <= i < |xs|
      ensures PullMatches(xs[i], cond) <==> i == k
      ensures xs[i] != xs[k] <==> xs[i].fields["_id"] != VStr(commentId)
    {
      CopyConditionMatches(xs[i], commentId);
    }
    PullSingle(xs, cond, k);
    RemoveAtKeepsDistinctCopies(xs, k);
    RemoveAtMembers(xs, k);
  }

  /** Pulling by a present copy id removes exactly that copy and moves the counter by one. */
  lemma RemoveCommentOnce(p: Doc, commentId: string)
    requires CommentsConsistent(p) && HasCopy(p["comments"].items, VStr(commentId))
    ensures ApplyUpdate(p, RemoveCommentUpdate(commentId)).Some?
    ensures var q := ApplyUpdate(p, RemoveCommentUpdate(commentId)).value;
      && CommentsConsistent(q)
      && !HasCopy(q["comments"].items, VStr(commentId))
      && |q["comments"].items| == |p["comments"].items| - 1
      && (forall x :: x in q["comments"].items <==>
                      x in p["comments"].items && x.fields["_id"] != VStr(commentId))
      && q.Keys == p.Keys
      && (forall k :: k in p && k != "comments" && k != "number_of_comments" ==> q[k] == p[k])
  {
    PullCopy(p["comments"].items, commentId);
  }

  /** Adding a comment copy and removing it by its id gives back the original post. */
  lemma AddThenRemoveCommentRestores(p: Doc, copy: Doc, commentId: string)
    requires CommentsConsistent(p) && "_id" in copy && copy["_id"] == VStr(commentId)
    requires !HasCopy(p["comments"].items, VStr(commentId))
    ensures ApplyUpdate(p, AddCommentUpdate(copy)).Some?
    ensures ApplyUpdate(ApplyUpdate(p, AddCommentUpdate(copy)).value,
                        RemoveCommentUpdate(commentId)) == Some(p)
  {
    AddCommentOnce(p, copy);
    var xs := p["comments"].items;
    var cond := CopyCondition(commentId);
    var ys := xs + [VDoc(copy)];
    forall i | 0 <= i < |xs| ensures !PullMatches(ys[i], cond) {
      assert ys[i] == xs[i];
    }
    PullSingle(ys, cond, |xs|);
    assert ys[..|xs|] == xs;
    var q := ApplyUpdate(p, AddCommentUpdate(copy)).value;
    assert IncField(q, "number_of_comments", -1) == Some(VInt(|xs|));
    assert PullAll(q["comments"].items, cond) == xs;
    var r := ApplyUpdate(q, RemoveCommentUpdate(commentId)).value;
    assert r == q["number_of_comments" := VInt(|xs|)]["comments" := VList(xs)];
    assert r == p;
  }
}
