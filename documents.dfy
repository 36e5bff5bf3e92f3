/**
  Documents as the Python code sees them: dictionaries from field names to
  BSON values, and the exceptions that escape from the storage methods.
  `serialize_ObjectId` (flask_backend/db/db_manager.py:27-42, identical in
  db/db_manager.py:27-42) lives here because both storage versions use it.
 */
module Documents {
  import opened Wrappers
  import opened ObjectIds
  import opened Credentials

  /** A BSON value: the kinds of value the users, posts and comments hold. */
  datatype Value =
    | VNull                             // None
    | VBool(b: bool)                    // is_public
    | VInt(i: int)                      // number_of_likes, current_streak, ...
    | VStr(s: string)                   // username, user_id of a later post, ...
    | VId(id: ObjectId)                 // _id, post_id, user_id of an earlier post
    | VDate(ticks: int)                 // datePosted, date_posted
    | VHash(digest: Digest)             // the bcrypt bytes in password
    | VList(items: seq<Value>)          // likes, comments
    | VDoc(fields: map<string, Value>)  // an embedded comment

  /** A document, and equally a `Dict[str, Any]` argument. */
  type Doc = map<string, Value>

  /** The exceptions that can escape from a storage method. */
  datatype Fault =
    | InvalidId       // bson.errors.InvalidId from ObjectId(s)
    | TypeError       // subscripting None, or a value that is not a container
    | KeyError        // a missing dictionary key
    | AttributeError  // calling a str method on a value that is not a str
    | WriteError      // the server rejected an update
    | DuplicateKey    // insert_one with an _id that is already taken

  /** What a Python call does: return a value, or raise. */
  datatype Outcome<+T> = Returned(value: T) | Raised(fault: Fault)

  function NatString(n: nat): (s: string)
    ensures |s| > 0
    ensures forall k :: 0 <= k < |s| ==> '0' <= s[k] <= '9'
  {
    var digit := ('0' as int + n % 10) as char;
    if n < 10 then [digit] else NatString(n / 10) + [digit]
  }

  /** The number a string of decimal digits denotes, most significant digit first. */
  function DecimalValue(s: string): int {
    if s == [] then 0 else 10 * DecimalValue(s[..|s| - 1]) + (s[|s| - 1] as int - '0' as int)
  }

  /** `NatString(n)` is the decimal numeral of `n`. */
  lemma {:induction false} NatStringValue(n: nat)
    ensures DecimalValue(NatString(n)) == n
  {
    var digit := ('0' as int + n % 10) as char;
    if n < 10 {
      assert NatString(n) == [digit];
      assert [digit][..0] == [];
    } else {
      NatStringValue(n / 10);
      var s := NatString(n);
      assert s == NatString(n / 10) + [digit];
      assert s[..|s| - 1] == NatString(n / 10);
    }
  }

  /**
    Python's `str(v)`. It is exact for None, booleans, integers, strings and
    ObjectIds; datetimes, bytes, lists and dicts get a fixed tag instead of
    their Python rendering.
   */
  function PyStr(v: Value): string {
    match v
    case VNull => "None"
    case VBool(b) => if b then "True" else "False"
    case VInt(i) => if i < 0 then "-" + NatString(-i) else NatString(i)
    case VStr(s) => s
    case VId(id) => IdString(id)
    case VDate(_) => "<datetime>"
    case VHash(_) => "<bytes>"
    case VList(_) => "<list>"
    case VDoc(_) => "<dict>"
  }

  /** Python truthiness (`if new_username:`). */
  predicate Truthy(v: Value) {
    match v
    case VNull => false
    case VBool(b) => b
    case VInt(i) => i != 0
    case VStr(s) => s != ""
    case VId(_) => true
    case VDate(_) => true
    case VHash(_) => true
    case VList(items) => items != []
    case VDoc(fields) => fields != map[]
  }

  /** The three keys that `serialize_ObjectId` turns into strings. */
  const IdKeys: set<string> := {"user_id", "post_id", "_id"}

  /** `if di.get(key) is not None: di[key] = str(di[key])` */
  function StringifyKey(di: Doc, key: string): (r: Doc)
    ensures r.Keys == di.Keys
    ensures forall k :: k in di && k != key ==> r[k] == di[k]
  {
    if key in di && di[key] != VNull then di[key := VStr(PyStr(di[key]))] else di
  }

  /**
    `serialize_ObjectId(di)`: the same keys, every present non-None id key
    now a string, every other key untouched.
   */
  function SerializeObjectId(di: Doc): (r: Doc)
    ensures r.Keys == di.Keys
    ensures forall k :: k in di && k !in IdKeys ==> r[k] == di[k]
    ensures forall k :: k in IdKeys && k in di ==> (r[k] == VNull <==> di[k] == VNull)
    ensures forall k :: k in IdKeys && k in di && di[k] != VNull ==> r[k].VStr?
  {
    StringifyKey(StringifyKey(StringifyKey(di, "user_id"), "post_id"), "_id")
  }

  /** An ObjectId under an id key becomes its string form, which parses back to it. */
  lemma SerializeKeepsIdentity(di: Doc, key: string)
    requires key in IdKeys && key in di && di[key].VId?
    ensures SerializeObjectId(di)[key] == VStr(IdString(di[key].id))
    ensures ParseObjectId(SerializeObjectId(di)[key].s) == Some(di[key].id)
  {
    ParseIdString(di[key].id);
  }

  /** Serializing an already serialized document changes nothing. */
  lemma SerializeIdempotent(di: Doc)
    ensures SerializeObjectId(SerializeObjectId(di)) == SerializeObjectId(di)
  {
    var once := SerializeObjectId(di);
    var twice := SerializeObjectId(once);
    assert forall k | k in twice :: twice[k] == once[k];
  }

  /** `list(map(serialize_ObjectId, docs))`. */
  function SerializeAll(docs: seq<Doc>): (r: seq<Doc>)
    ensures |r| == |docs|
    ensures forall i :: 0 <= i < |docs| ==> r[i] == SerializeObjectId(docs[i])
  {
    if docs == [] then [] else [SerializeObjectId(docs[0])] + SerializeAll(docs[1..])
  }

  /** The serialized sequence holds exactly the serialized documents. */
  lemma SerializeAllMembers(docs: seq<Doc>)
    ensures forall d :: d in SerializeAll(docs) <==> exists p :: p in docs && d == SerializeObjectId(p)
  {
    var r := SerializeAll(docs);
    forall d | d in r
      ensures exists p :: p in docs && d == SerializeObjectId(p)
    {
      var k :| 0 <= k < |r| && r[k] == d;
      assert docs[k] in docs;
    }
    forall p | p in docs
      ensures SerializeObjectId(p) in r
    {
      var k :| 0 <= k < |docs| && docs[k] == p;
      assert r[k] == SerializeObjectId(p);
    }
  }

  /**
    `list(map(serialize_ObjectId, d))` where `d` is a single dict: iterating a
    dict yields its keys, and `serialize_ObjectId` calls `.get` on the first
    one, a str, which raises AttributeError; only an empty dict gets through.
   */
  function SerializeKeysOf(d: Doc): (r: Outcome<seq<Doc>>)
    ensures r.Returned? <==> d == map[]
  {
    if d == map[] then Returned([]) else Raised(AttributeError)
  }
}
