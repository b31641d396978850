/** What the server keeps and the libraries it leans on: the Mongo `users`
    collection, BSON ObjectIds and their hex form, and bcrypt. */
module Store {
  import opened Common

  type Byte = x: int | 0 <= x < 256

  /** A BSON ObjectId: 12 bytes. */
  type ObjectId = b: seq<Byte> | |b| == 12 witness seq(12, _ => 0)

  predicate IsHexDigit(c: char)
  {
    ('0' <= c <= '9') || ('a' <= c <= 'f') || ('A' <= c <= 'F')
  }

  predicate IsHexString(s: string)
  {
    forall i :: 0 <= i < |s| ==> IsHexDigit(s[i])
  }

  function DigitValue(c: char): (v: int)
    requires IsHexDigit(c)
    ensures 0 <= v < 16
  {
    if '0' <= c <= '9' then c as int - '0' as int
    else if 'a' <= c <= 'f' then c as int - 'a' as int + 10
    else c as int - 'A' as int + 10
  }

  /** The lower-case hex digit for 0 <= v < 16. */
  function HexChar(v: int): (c: char)
    requires 0 <= v < 16
    ensures IsHexDigit(c) && !('A' <= c <= 'F')
    ensures DigitValue(c) == v
  {
    if v < 10 then (v + '0' as int) as char else (v - 10 + 'a' as int) as char
  }

  /** Lower-case hex, two digits per byte, high nibble first (`str(oid)`). */
  function Hex(b: seq<Byte>): (s: string)
    ensures |s| == 2 * |b| && IsHexString(s)
    ensures forall i :: 0 <= i < |s| ==> !('A' <= s[i] <= 'F')
  {
    if |b| == 0 then "" else [HexChar(b[0] / 16), HexChar(b[0] % 16)] + Hex(b[1..])
  }

  /** bytes.fromhex on an even-length string of hex digits of either case. */
  function Unhex(s: string): (b: seq<Byte>)
    requires |s| % 2 == 0 && IsHexString(s)
    ensures |b| == |s| / 2
  {
    if |s| == 0 then [] else [DigitValue(s[0]) * 16 + DigitValue(s[1])] + Unhex(s[2..])
  }

  /** Each hex digit rewritten in lower case. */
  function LowerHex(s: string): (r: string)
    requires IsHexString(s)
    ensures |r| == |s|
  {
    if |s| == 0 then "" else [HexChar(DigitValue(s[0]))] + LowerHex(s[1..])
  }

  lemma {:induction false} UnhexHex(b: seq<Byte>)
    ensures Unhex(Hex(b)) == b
    decreases |b|
  {
    if |b| > 0 {
      var s := Hex(b);
      assert s[2..] == Hex(b[1..]);
      UnhexHex(b[1..]);
      assert DigitValue(s[0]) * 16 + DigitValue(s[1]) == b[0];
    }
  }

  lemma {:induction false} HexUnhex(s: string)
    requires |s| % 2 == 0 && IsHexString(s)
    ensures Hex(Unhex(s)) == LowerHex(s)
    decreases |s|
  {
    if |s| > 0 {
      var x := DigitValue(s[0]) * 16 + DigitValue(s[1]);
      assert x / 16 == DigitValue(s[0]) && x % 16 == DigitValue(s[1]);
      HexUnhex(s[2..]);
      assert Unhex(s)[1..] == Unhex(s[2..]);
      assert LowerHex(s) == [HexChar(DigitValue(s[0]))] + ([HexChar(DigitValue(s[1]))] + LowerHex(s[2..])) by {
        assert LowerHex(s[1..]) == [HexChar(DigitValue(s[1]))] + LowerHex(s[2..]) by {
          assert s[1..][1..] == s[2..];
        }
      }
    }
  }

  /** `str(ObjectId)`. */
  function ObjectIdString(o: ObjectId): (s: string)
    ensures |s| == 24 && IsHexString(s)
  {
    Hex(o)
  }

  /** `ObjectId(s)` for a string: 24 hex digits of either case, or
      InvalidId (None). */
  function ParseObjectId(s: string): (r: Option<ObjectId>)
    ensures r.Some? <==> |s| == 24 && IsHexString(s)
  {
    if |s| == 24 && IsHexString(s) then Some(Unhex(s)) else None
  }

  /** Printing an ObjectId and parsing it back gives the same id. */
  lemma ObjectIdRoundTrip(o: ObjectId)
    ensures ParseObjectId(ObjectIdString(o)) == Some(o)
  {
    UnhexHex(o);
  }

  /** A parsed id prints as the input in lower case: the two spellings of a
      hex id name the same document. */
  lemma ParsedIdPrintsLowerCase(s: string)
    requires ParseObjectId(s).Some?
    ensures ObjectIdString(ParseObjectId(s).value) == LowerHex(s)
  {
    HexUnhex(s);
  }

  /** A bcrypt hash as flask_bcrypt produces it. The stand-in keeps the salt
      and the password it was made from; nothing reads the password except
      CheckPasswordHash. */
  datatype PasswordHash = Bcrypt(salt: string, secret: string)

  /** generate_password_hash, the random salt given as a parameter. */
  function GeneratePasswordHash(password: string, salt: string): PasswordHash
  {
    Bcrypt(salt, password)
  }

  /** check_password_hash. */
  function CheckPasswordHash(h: PasswordHash, password: string): bool
  {
    h.secret == password
  }

  /** The one property of bcrypt the server relies on: a hash accepts the
      password it was made from, whatever the salt. */
  lemma CheckAcceptsHash(password: string, salt: string)
    ensures CheckPasswordHash(GeneratePasswordHash(password, salt), password)
  {
  }

  /** A document of the `users` collection. `count` and `achievements` are
      absent from the documents the registration code inserts. */
  datatype Doc = Doc(
    id: ObjectId, username: string, password: PasswordHash,
    count: Option<Json>, achievements: Option<Json>)

  predicate HasUsername(docs: seq<Doc>, username: string)
  {
    exists i :: 0 <= i < |docs| && docs[i].username == username
  }

  predicate HasId(docs: seq<Doc>, id: ObjectId)
  {
    exists i :: 0 <= i < |docs| && docs[i].id == id
  }

  predicate UniqueUsernames(docs: seq<Doc>)
  {
    forall i, j :: 0 <= i < j < |docs| ==> docs[i].username != docs[j].username
  }

  predicate UniqueIds(docs: seq<Doc>)
  {
    forall i, j :: 0 <= i < j < |docs| ==> docs[i].id != docs[j].id
  }

  /** find_one({'username': username}): the first such document. */
  function FindByUsername(docs: seq<Doc>, username: string): (r: Option<Doc>)
    ensures r.None? <==> !HasUsername(docs, username)
    ensures r.Some? ==> r.value in docs && r.value.username == username
  {
    if |docs| == 0 then None
    else if docs[0].username == username then Some(docs[0])
    else
      var r := FindByUsername(docs[1..], username);
      assert HasUsername(docs, username) ==> HasUsername(docs[1..], username) by {
        if HasUsername(docs, username) {
          var i :| 0 <= i < |docs| && docs[i].username == username;
          assert docs[1..][i - 1].username == username;
        }
      }
      r
  }

  /** find_one({'_id': id}): the first such document. */
  function FindById(docs: seq<Doc>, id: ObjectId): (r: Option<Doc>)
    ensures r.None? <==> !HasId(docs, id)
    ensures r.Some? ==> r.value in docs && r.value.id == id
  {
    if |docs| == 0 then None
    else if docs[0].id == id then Some(docs[0])
    else
      var r := FindById(docs[1..], id);
      assert HasId(docs, id) ==> HasId(docs[1..], id) by {
        if HasId(docs, id) {
          var i :| 0 <= i < |docs| && docs[i].id == id;
          assert docs[1..][i - 1].id == id;
        }
      }
      r
  }

  /** A document appended under a new id is the one found by that id. */
  lemma FindInsertedById(docs: seq<Doc>, d: Doc)
    requires !HasId(docs, d.id)
    ensures FindById(docs + [d], d.id) == Some(d)
    ensures forall id :: id != d.id ==> FindById(docs + [d], id) == FindById(docs, id)
  {
    FindAppendedById(docs, d, d.id);
    forall id | id != d.id
      ensures FindById(docs + [d], id) == FindById(docs, id)
    {
      FindAppendedById(docs, d, id);
    }
  }

  lemma {:induction false} FindAppendedById(docs: seq<Doc>, d: Doc, id: ObjectId)
    ensures FindById(docs + [d], id) == if HasId(docs, id) then FindById(docs, id) else if d.id == id then Some(d) else None
    decreases |docs|
  {
    if |docs| > 0 {
      assert (docs + [d])[1..] == docs[1..] + [d];
      FindAppendedById(docs[1..], d, id);
      if docs[0].id != id && HasId(docs, id) {
        var i :| 0 <= i < |docs| && docs[i].id == id;
        assert docs[1..][i - 1].id == id;
      }
    } else {
      assert docs + [d] == [d];
    }
  }

  /** A document appended under a new username is the one found by that
      name; other names find what they found before. */
  lemma {:induction false} FindAppendedByUsername(docs: seq<Doc>, d: Doc, username: string)
    ensures FindByUsername(docs + [d], username) ==
      if HasUsername(docs, username) then FindByUsername(docs, username)
      else if d.username == username then Some(d) else None
    decreases |docs|
  {
    if |docs| > 0 {
      assert (docs + [d])[1..] == docs[1..] + [d];
      FindAppendedByUsername(docs[1..], d, username);
      if docs[0].username != username && HasUsername(docs, username) {
        var i :| 0 <= i < |docs| && docs[i].username == username;
        assert docs[1..][i - 1].username == username;
      }
    } else {
      assert docs + [d] == [d];
    }
  }

  /** Appending a document whose username is new keeps usernames unique. */
  lemma AppendKeepsUsernamesUnique(docs: seq<Doc>, d: Doc)
    requires !HasUsername(docs, d.username)
    ensures UniqueUsernames(docs) ==> UniqueUsernames(docs + [d])
  {
    if UniqueUsernames(docs) {
      forall i, j | 0 <= i < j < |docs + [d]|
        ensures (docs + [d])[i].username != (docs + [d])[j].username
      {
        if j == |docs| {
          assert (docs + [d])[i] == docs[i];
        }
      }
    }
  }

  /** With unique ids, looking a document up by its own id finds it. */
  lemma {:induction false} FindMemberById(docs: seq<Doc>, k: nat)
    requires UniqueIds(docs) && k < |docs|
    ensures FindById(docs, docs[k].id) == Some(docs[k])
    decreases k
  {
    if k > 0 {
      assert UniqueIds(docs[1..]) by {
        forall i, j | 0 <= i < j < |docs[1..]|
          ensures docs[1..][i].id != docs[1..][j].id
        {
          assert docs[1..][i] == docs[i + 1] && docs[1..][j] == docs[j + 1];
        }
      }
      FindMemberById(docs[1..], k - 1);
      assert docs[0].id != docs[k].id;
    }
  }

  /** mongo.db.users: the documents in insertion order. Mongo keeps `_id`
      unique; nothing in the collection itself keeps usernames unique. */
  class UsersCollection {
    var docs: seq<Doc>

    ghost predicate Valid()
      reads this
    {
      UniqueIds(docs)
    }

    constructor ()
      ensures docs == [] && Valid()
    {
      docs := [];
    }

    /** insert_one({'username': username, 'password': password}) under the
        id the driver generated. */
    method InsertOne(username: string, password: PasswordHash, newId: ObjectId) returns (insertedId: ObjectId)
      requires Valid() && !HasId(docs, newId)
      modifies this
      ensures Valid()
      ensures insertedId == newId
      ensures docs == old(docs) + [Doc(newId, username, password, None, None)]
    {
      docs := docs + [Doc(newId, username, password, None, None)];
      insertedId := newId;
    }
  }
}
