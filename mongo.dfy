/**
  The part of MongoDB that the storage layer relies on, as functions over one
  collection held as a sequence of documents in natural (insertion) order:
  equality filters, `find`/`find_one`, `insert_one`, `update_one` and
  `update_many` with the `$set`, `$inc`, `$addToSet` and `$pull` combinations
  the storage layer sends, `delete_one`/`delete_many`, and `sort`.
 */
module Mongo {
  import opened Wrappers
  import opened ObjectIds
  import opened Documents

  type Collection = seq<Doc>

  /** A query such as `{'_id': ObjectId(post_id), 'user_id': user_id}`: field equalities. */
  type Filter = map<string, Value>

  predicate Matches(d: Doc, f: Filter) {
    forall k :: k in f ==> k in d && d[k] == f[k]
  }

  /** `{'_id': ObjectId(s)}` */
  function IdFilter(id: ObjectId): Filter {
    map["_id" := VId(id)]
  }

  /** The position of the first document that matches, the one `find_one` returns. */
  function FirstMatch(c: Collection, f: Filter): (r: Option<nat>)
    ensures r.None? <==> forall i :: 0 <= i < |c| ==> !Matches(c[i], f)
    ensures r.Some? ==> r.value < |c| && Matches(c[r.value], f)
    ensures r.Some? ==> forall j :: 0 <= j < r.value ==> !Matches(c[j], f)
  {
    if c == [] then None
    else if Matches(c[0], f) then Some(0)
    else match FirstMatch(c[1..], f)
      case None => None
      case Some(i) => Some(i + 1)
  }

  /** `find_one(f)` */
  function FindOne(c: Collection, f: Filter): (r: Option<Doc>)
    ensures r.None? <==> forall i :: 0 <= i < |c| ==> !Matches(c[i], f)
    ensures r.Some? ==> r.value in c && Matches(r.value, f)
  {
    match FirstMatch(c, f)
    case None => None
    case Some(i) => Some(c[i])
  }

  /** Where an identifier string leads: `find_one({'_id': ObjectId(s)})`. */
  datatype Lookup = BadId | Missing | Found(index: nat)

  function Locate(c: Collection, idString: string): (r: Lookup)
    ensures r.BadId? <==> ParseObjectId(idString).None?
    ensures r.Missing? <==> ParseObjectId(idString).Some? &&
                            forall i :: 0 <= i < |c| ==> !Matches(c[i], IdFilter(ParseObjectId(idString).value))
    ensures r.Found? ==> r.index < |c| && ParseObjectId(idString).Some? &&
                         Matches(c[r.index], IdFilter(ParseObjectId(idString).value))
  {
    match ParseObjectId(idString)
    case None => BadId
    case Some(id) =>
      match FirstMatch(c, IdFilter(id))
      case None => Missing
      case Some(i) => Found(i)
  }

  /** The documents that match (`wanted`) or fail to match (`!wanted`), in their order. */
  function Select(c: Collection, f: Filter, wanted: bool): (r: Collection)
    ensures |r| <= |c|
    ensures forall d :: d in r <==> d in c && Matches(d, f) == wanted
  {
    if c == [] then []
    else (if Matches(c[0], f) == wanted then [c[0]] else []) + Select(c[1..], f, wanted)
  }

  /** `find(f)` */
  function Find(c: Collection, f: Filter): Collection {
    Select(c, f, true)
  }

  /** `delete_many(f)` */
  function DeleteMany(c: Collection, f: Filter): Collection {
    Select(c, f, false)
  }

  /** `delete_one(f)`: the first match goes, everything else stays in place. */
  function DeleteOne(c: Collection, f: Filter): (r: Collection)
    ensures FirstMatch(c, f).None? ==> r == c
    ensures FirstMatch(c, f).Some? ==> |r| == |c| - 1
  {
    match FirstMatch(c, f)
    case None => c
    case Some(i) => c[..i] + c[i + 1..]
  }

  /** What `delete_one` removes: exactly the first match; every document that does not match stays. */
  lemma DeleteOneContents(c: Collection, f: Filter)
    ensures FirstMatch(c, f).Some? ==>
      multiset(DeleteOne(c, f)) + multiset{c[FirstMatch(c, f).value]} == multiset(c)
    ensures forall d :: d in c && !Matches(d, f) ==> d in DeleteOne(c, f)
  {
    if FirstMatch(c, f).Some? {
      var i := FirstMatch(c, f).value;
      var before, after := c[..i], c[i + 1..];
      assert c == before + [c[i]] + after;
      assert DeleteOne(c, f) == before + after;
      forall d | d in c && !Matches(d, f)
        ensures d in DeleteOne(c, f)
      {
        assert d in before || d in after;
      }
    }
  }

  // ---------------------------------------------------------------------------
  // insert_one and the unique index on _id

  /** The `_id` that `insert_one` gives a document: its own, or the one the driver generated. */
  function InsertedId(d: Doc, generated: ObjectId): Value {
    if "_id" in d then d["_id"] else VId(generated)
  }

  predicate IdTaken(c: Collection, id: Value) {
    exists i :: 0 <= i < |c| && "_id" in c[i] && c[i]["_id"] == id
  }

  /** Every document has an `_id` and no two share one: the collection's unique index. */
  ghost predicate WellKeyed(c: Collection) {
    && (forall i :: 0 <= i < |c| ==> "_id" in c[i])
    && (forall i, j :: 0 <= i < |c| && 0 <= j < |c| && i != j ==> c[i]["_id"] != c[j]["_id"])
  }

  lemma AppendWellKeyed(c: Collection, d: Doc)
    requires WellKeyed(c) && "_id" in d && !IdTaken(c, d["_id"])
    ensures WellKeyed(c + [d])
  {
    var c' := c + [d];
    forall i, j | 0 <= i < |c'| && 0 <= j < |c'| && i != j
      ensures c'[i]["_id"] != c'[j]["_id"]
    {
      if i == |c| { assert c'[j] == c[j]; }
      else if j == |c| { assert c'[i] == c[i]; }
    }
  }

  /** A document whose `_id` is unchanged can replace another without breaking the index. */
  lemma ReplaceWellKeyed(c: Collection, i: nat, d: Doc)
    requires WellKeyed(c) && i < |c| && "_id" in d && d["_id"] == c[i]["_id"]
    ensures WellKeyed(c[i := d])
  {
  }

  lemma RemoveWellKeyed(c: Collection, i: nat)
    requires WellKeyed(c) && i < |c|
    ensures WellKeyed(c[..i] + c[i + 1..])
  {
    var c' := c[..i] + c[i + 1..];
    assert forall k :: 0 <= k < |c'| ==> c'[k] == c[if k < i then k else k + 1];
  }

  lemma DeleteOneWellKeyed(c: Collection, f: Filter)
    requires WellKeyed(c)
    ensures WellKeyed(DeleteOne(c, f))
  {
    if FirstMatch(c, f).Some? { RemoveWellKeyed(c, FirstMatch(c, f).value); }
  }

  lemma {:induction false} SelectWellKeyed(c: Collection, f: Filter, wanted: bool)
    requires WellKeyed(c)
    ensures WellKeyed(Select(c, f, wanted))
  {
    if c != [] {
      var rest := c[1..];
      assert WellKeyed(rest) by {
        assert forall k :: 0 <= k < |rest| ==> rest[k] == c[k + 1];
      }
      SelectWellKeyed(rest, f, wanted);
      var tail := Select(rest, f, wanted);
      if Matches(c[0], f) == wanted {
        forall k | 0 <= k < |tail| ensures tail[k]["_id"] != c[0]["_id"] {
          assert tail[k] in rest;
          var m :| 0 <= m < |rest| && rest[m] == tail[k];
          assert c[m + 1] == tail[k];
        }
        AppendFrontWellKeyed(c[0], tail);
      }
    }
  }

  lemma AppendFrontWellKeyed(d: Doc, s: Collection)
    requires WellKeyed(s) && "_id" in d
    requires forall k :: 0 <= k < |s| ==> s[k]["_id"] != d["_id"]
    ensures WellKeyed([d] + s)
  {
    var c' := [d] + s;
    assert forall k :: 0 < k < |c'| ==> c'[k] == s[k - 1];
  }

  /** After `delete_one` by a unique `_id`, nothing with that `_id` is left. */
  lemma DeleteOneByIdLeavesNone(c: Collection, id: ObjectId)
    requires WellKeyed(c)
    ensures FindOne(DeleteOne(c, IdFilter(id)), IdFilter(id)).None?
  {
    var f := IdFilter(id);
    match FirstMatch(c, f)
    case None =>
    case Some(i) =>
      var c' := DeleteOne(c, f);
      forall k | 0 <= k < |c'| ensures !Matches(c'[k], f) {
        var src := if k < i then k else k + 1;
        assert c'[k] == c[src];
        assert Matches(c[i], f);
        assert c[src]["_id"] != c[i]["_id"];
      }
  }

  /** After `delete_many(f)`, `find(f)` is empty. */
  lemma {:induction false} DeleteManyLeavesNone(c: Collection, f: Filter)
    ensures Find(DeleteMany(c, f), f) == []
  {
    if c != [] {
      DeleteManyLeavesNone(c[1..], f);
      if !Matches(c[0], f) {
        var r := DeleteMany(c, f);
        assert r == [c[0]] + DeleteMany(c[1..], f);
        assert r[0] == c[0] && r[1..] == DeleteMany(c[1..], f);
        assert Find(r, f) == Find(r[1..], f);
      } else {
        assert DeleteMany(c, f) == DeleteMany(c[1..], f);
      }
    }
  }

  // ---------------------------------------------------------------------------
  // update_one / update_many / find_one_and_update

  /** The update documents the storage layer sends. */
  datatype Update =
    | Set(fields: map<string, Value>)
      // {'$set': fields}
    | IncAddToSet(counter: string, delta: int, listField: string, item: Value)
      // {'$inc': {counter: delta}, '$addToSet': {listField: item}}
    | IncPull(counter: string, delta: int, listField: string, cond: Value)
      // {'$inc': {counter: delta}, '$pull': {listField: cond}}

  /** `$inc`: a missing field starts from the increment; a non-integer is a write error. */
  function IncField(d: Doc, k: string, delta: int): (r: Option<Value>)
    ensures k in d && d[k].VInt? ==> r == Some(VInt(d[k].i + delta))
    ensures k !in d ==> r == Some(VInt(delta))
    ensures k in d && !d[k].VInt? ==> r.None?
  {
    if k !in d then Some(VInt(delta))
    else if d[k].VInt? then Some(VInt(d[k].i + delta))
    else None
  }

  /** `$addToSet`: appends unless an equal element is there; a non-array is a write error. */
  function AddToSetField(d: Doc, k: string, item: Value): (r: Option<Value>)
    ensures r.Some? ==> r.value.VList? && item in r.value.items
    ensures k in d && d[k].VList? && item in d[k].items ==> r == Some(d[k])
    ensures k in d && d[k].VList? && item !in d[k].items ==> r == Some(VList(d[k].items + [item]))
    ensures r.None? <==> k in d && !d[k].VList?
    ensures k !in d ==> r == Some(VList([item]))
  {
    if k !in d then Some(VList([item]))
    else if !d[k].VList? then None
    else if item in d[k].items then Some(d[k])
    else Some(VList(d[k].items + [item]))
  }

  /**
    Which array elements a `$pull` condition removes: a document condition
    is a query on document elements, any other value removes equal elements.
   */
  predicate PullMatches(x: Value, cond: Value) {
    if cond.VDoc? then x.VDoc? && Matches(x.fields, cond.fields) else x == cond
  }

  function PullAll(xs: seq<Value>, cond: Value): (r: seq<Value>)
    ensures |r| <= |xs|
  {
    if xs == [] then []
    else (if PullMatches(xs[0], cond) then [] else [xs[0]]) + PullAll(xs[1..], cond)
  }

  /** `$pull` keeps exactly the elements the condition does not remove. */
  lemma {:induction false} PullAllMembers(xs: seq<Value>, cond: Value)
    ensures forall x :: x in PullAll(xs, cond) <==> x in xs && !PullMatches(x, cond)
  {
    if xs != [] {
      PullAllMembers(xs[1..], cond);
      assert xs == [xs[0]] + xs[1..];
    }
  }

  /** The document `update_one` leaves, or `None` when the server rejects the update. */
  function ApplyUpdate(d: Doc, u: Update): (r: Option<Doc>)
    ensures r.Some? && "_id" in d ==> "_id" in r.value && r.value["_id"] == d["_id"]
    ensures u.Set? && !("_id" in u.fields && "_id" in d && u.fields["_id"] != d["_id"]) ==> r.Some?
  {
    match u
    case Set(fields) =>
      if "_id" in fields && "_id" in d && fields["_id"] != d["_id"] then None
      else Some(d + fields)
    case IncAddToSet(counter, delta, listField, item) =>
      if counter == "_id" || listField == "_id" || counter == listField then None
      else
        (match (IncField(d, counter, delta), AddToSetField(d, listField, item))
         case (Some(n), Some(a)) => Some(d[counter := n][listField := a])
         case _ => None)
    case IncPull(counter, delta, listField, cond) =>
      if counter == "_id" || listField == "_id" || counter == listField then None
      else
        match IncField(d, counter, delta)
        case None => None
        case Some(n) =>
          if listField !in d then Some(d[counter := n])
          else if !d[listField].VList? then None
          else Some(d[counter := n][listField := VList(PullAll(d[listField].items, cond))])
  }

  /** An accepted `$set` writes exactly the sent fields and keeps every other field. */
  lemma SetWrites(d: Doc, fields: map<string, Value>)
    ensures ApplyUpdate(d, Set(fields)).Some? ==>
      var r := ApplyUpdate(d, Set(fields)).value;
      && r.Keys == d.Keys + fields.Keys
      && (forall k :: k in fields ==> r[k] == fields[k])
      && (forall k :: k in d && k !in fields ==> r[k] == d[k])
  {
  }

  /** A `$set` of one field other than `_id` is a plain assignment of that field. */
  lemma SetOneField(d: Doc, k: string, v: Value)
    requires k != "_id"
    ensures ApplyUpdate(d, Set(map[k := v])) == Some(d[k := v])
  {
    assert d + map[k := v] == d[k := v];
  }

  /** `update_many(f, {'$set': fields})` for fields without `_id`, which cannot be rejected. */
  function SetMany(c: Collection, f: Filter, fields: map<string, Value>): (r: Collection)
    requires "_id" !in fields
    ensures |r| == |c|
    ensures forall i :: 0 <= i < |c| && Matches(c[i], f) ==> r[i] == c[i] + fields
    ensures forall i :: 0 <= i < |c| && !Matches(c[i], f) ==> r[i] == c[i]
  {
    seq(|c|, i requires 0 <= i < |c| => if Matches(c[i], f) then c[i] + fields else c[i])
  }

  lemma SetManyWellKeyed(c: Collection, f: Filter, fields: map<string, Value>)
    requires WellKeyed(c) && "_id" !in fields
    ensures WellKeyed(SetMany(c, f, fields))
  {
    var r := SetMany(c, f, fields);
    assert forall i :: 0 <= i < |c| ==> "_id" in r[i] && r[i]["_id"] == c[i]["_id"];
  }

  // ---------------------------------------------------------------------------
  // sort(field, 1)

  /**
    The BSON sort key of a field: the type's place in MongoDB's comparison
    order (a missing field sorts as null), then the value within the type.
   */
  function SortKey(d: Doc, field: string): (int, int) {
    if field !in d then (0, 0)
    else match d[field]
      case VNull => (0, 0)
      case VInt(i) => (1, i)
      case VStr(_) => (2, 0)
      case VDoc(_) => (3, 0)
      case VList(_) => (4, 0)
      case VHash(_) => (5, 0)
      case VId(id) => (6, id)
      case VBool(b) => (7, if b then 1 else 0)
      case VDate(t) => (8, t)
  }

  predicate KeyLe(a: (int, int), b: (int, int)) {
    a.0 < b.0 || (a.0 == b.0 && a.1 <= b.1)
  }

  ghost predicate SortedBy(s: Collection, field: string) {
    forall i, j :: 0 <= i < j < |s| ==> KeyLe(SortKey(s[i], field), SortKey(s[j], field))
  }

  /** Place `d` before the first element that does not sort below it. */
  function InsertSorted(d: Doc, s: Collection, field: string): (r: Collection)
    requires SortedBy(s, field)
    ensures SortedBy(r, field)
    ensures multiset(r) == multiset(s) + multiset{d}
    ensures |r| == |s| + 1
    ensures r[0] == d || (s != [] && r[0] == s[0])
  {
    if s == [] || KeyLe(SortKey(d, field), SortKey(s[0], field)) then [d] + s
    else
      SortedTail(s, field);
      var tail := InsertSorted(d, s[1..], field);
      InsertBehindHead(d, s, tail, field);
      [s[0]] + tail
  }

  lemma SortedTail(s: Collection, field: string)
    requires SortedBy(s, field) && s != []
    ensures SortedBy(s[1..], field)
  {
    forall i, j | 0 <= i < j < |s| - 1
      ensures KeyLe(SortKey(s[1..][i], field), SortKey(s[1..][j], field))
    {
      assert s[1..][i] == s[i + 1] && s[1..][j] == s[j + 1];
    }
  }

  /** The recursive step of `InsertSorted`: `s[0]` stays in front of the tail `d` went into. */
  lemma InsertBehindHead(d: Doc, s: Collection, tail: Collection, field: string)
    requires SortedBy(s, field) && s != []
    requires !KeyLe(SortKey(d, field), SortKey(s[0], field))
    requires SortedBy(tail, field) && multiset(tail) == multiset(s[1..]) + multiset{d}
    ensures SortedBy([s[0]] + tail, field)
    ensures multiset([s[0]] + tail) == multiset(s) + multiset{d}
  {
    assert s == [s[0]] + s[1..];
    TailAboveHead(d, s, tail, field);
    SortedCons(s[0], tail, field);
  }

  /** What `d` has been inserted into the rest of `s` still sorts at or above `s[0]`. */
  lemma TailAboveHead(d: Doc, s: Collection, tail: Collection, field: string)
    requires SortedBy(s, field) && s != []
    requires KeyLe(SortKey(s[0], field), SortKey(d, field))
    requires multiset(tail) == multiset(s[1..]) + multiset{d}
    ensures forall k :: 0 <= k < |tail| ==> KeyLe(SortKey(s[0], field), SortKey(tail[k], field))
  {
    forall k | 0 <= k < |tail|
      ensures KeyLe(SortKey(s[0], field), SortKey(tail[k], field))
    {
      assert tail[k] in multiset(tail);
      if tail[k] != d {
        assert tail[k] in multiset(s[1..]);
        var j :| 0 <= j < |s[1..]| && s[1..][j] == tail[k];
        assert s[j + 1] == tail[k];
      }
    }
  }

  lemma SortedCons(x: Doc, t: Collection, field: string)
    requires SortedBy(t, field)
    requires forall k :: 0 <= k < |t| ==> KeyLe(SortKey(x, field), SortKey(t[k], field))
    ensures SortedBy([x] + t, field)
  {
    var r := [x] + t;
    forall i, j | 0 <= i < j < |r|
      ensures KeyLe(SortKey(r[i], field), SortKey(r[j], field))
    {
      assert r[j] == t[j - 1];
      if i > 0 { assert r[i] == t[i - 1]; }
    }
  }

  /** `sort(field, 1)`: ascending, ties in natural order. */
  function SortAscending(c: Collection, field: string): (r: Collection)
    ensures SortedBy(r, field)
    ensures multiset(r) == multiset(c)
    ensures |r| == |c|
  {
    if c == [] then []
    else
      assert c == [c[0]] + c[1..];
      InsertSorted(c[0], SortAscending(c[1..], field), field)
  }

  lemma SerializeKeepsKey(d: Doc, field: string)
    requires field !in IdKeys
    ensures SortKey(SerializeObjectId(d), field) == SortKey(d, field)
  {
  }

  /** Serializing ids does not move a document under a sort on a field that is not an id. */
  lemma {:induction false} SerializeCommutesWithInsert(d: Doc, s: Collection, field: string)
    requires field !in IdKeys && SortedBy(s, field)
    ensures SortedBy(SerializeAll(s), field)
    ensures SerializeAll(InsertSorted(d, s, field)) ==
            InsertSorted(SerializeObjectId(d), SerializeAll(s), field)
    decreases |s|, 1
  {
    SerializedSorted(s, field);
    SerializeKeepsKey(d, field);
    if s == [] {
      SerializeAllCons(d, s);
    } else if KeyLe(SortKey(d, field), SortKey(s[0], field)) {
      SerializeKeepsKey(s[0], field);
      SerializeAllCons(d, s);
    } else {
      SerializeKeepsKey(s[0], field);
      InsertCommutesStep(d, s, field);
    }
  }

  lemma {:induction false} InsertCommutesStep(d: Doc, s: Collection, field: string)
    requires field !in IdKeys && SortedBy(s, field) && s != []
    requires SortedBy(SerializeAll(s), field)
    requires SortKey(SerializeObjectId(d), field) == SortKey(d, field)
    requires SortKey(SerializeObjectId(s[0]), field) == SortKey(s[0], field)
    requires !KeyLe(SortKey(d, field), SortKey(s[0], field))
    ensures SerializeAll(InsertSorted(d, s, field)) ==
            InsertSorted(SerializeObjectId(d), SerializeAll(s), field)
    decreases |s|, 0
  {
    var ss := SerializeAll(s);
    var rest := s[1..];
    assert SortedBy(rest, field);
    SerializeCommutesWithInsert(d, rest, field);
    assert ss[1..] == SerializeAll(rest);
    calc {
      SerializeAll(InsertSorted(d, s, field));
      SerializeAll([s[0]] + InsertSorted(d, rest, field));
      { SerializeAllCons(s[0], InsertSorted(d, rest, field)); }
      [SerializeObjectId(s[0])] + SerializeAll(InsertSorted(d, rest, field));
      [ss[0]] + InsertSorted(SerializeObjectId(d), ss[1..], field);
      InsertSorted(SerializeObjectId(d), ss, field);
    }
  }

  lemma SerializeAllCons(d: Doc, s: Collection)
    ensures SerializeAll([d] + s) == [SerializeObjectId(d)] + SerializeAll(s)
  {
    assert ([d] + s)[1..] == s;
  }

  lemma SerializedSorted(s: Collection, field: string)
    requires field !in IdKeys && SortedBy(s, field)
    ensures SortedBy(SerializeAll(s), field)
  {
    var r := SerializeAll(s);
    assert forall i :: 0 <= i < |s| ==> SortKey(r[i], field) == SortKey(s[i], field);
  }

  lemma {:induction false} SerializeCommutesWithSort(c: Collection, field: string)
    requires field !in IdKeys
    ensures SerializeAll(SortAscending(c, field)) == SortAscending(SerializeAll(c), field)
  {
    if c != [] {
      SerializeCommutesWithSort(c[1..], field);
      SerializeCommutesWithInsert(c[0], SortAscending(c[1..], field), field);
      assert SerializeAll(c)[1..] == SerializeAll(c[1..]);
    }
  }
}
