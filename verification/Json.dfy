/** JSON values as the client sees them, and the canonical text used as a key for requests
    (`stableStringify`, `omitUndefined`, `queryKey`).

    An object is the sequence of its properties in enumeration order.  A number is identified by
    the decimal text JavaScript prints for it, so equal texts are equal numbers. */
module Json {

  predicate IsNumberText(s: string) {
    && |s| > 0
    && (s[0] == '-' || '0' <= s[0] <= '9')
    && forall c | c in s :: '0' <= c <= '9' || c in "+-.e"
  }

  type NumberText = s: string | IsNumberText(s) witness "0"

  datatype Value =
    | Undefined
    | Null
    | Bool(b: bool)
    | Num(text: NumberText)
    | Str(s: string)
    | Arr(items: seq<Value>)
    | Obj(fields: seq<Field>)

  datatype Field = Field(key: string, val: Value)

  /** What counts as true. */
  predicate Truthy(v: Value) {
    match v
    case Undefined => false
    case Null => false
    case Bool(b) => b
    case Num(text) => text != "0"
    case Str(s) => s != ""
    case Arr(_) => true
    case Obj(_) => true
  }

  /** No object, at any depth, lists a key twice. */
  predicate WellFormed(v: Value) {
    match v
    case Arr(items) => forall x | x in items :: WellFormed(x)
    case Obj(fields) => DistinctKeys(fields) && forall f | f in fields :: WellFormed(f.val)
    case _ => true
  }

  predicate DistinctKeys(fields: seq<Field>) {
    forall i, j | 0 <= i < j < |fields| :: fields[i].key != fields[j].key
  }

  predicate HasKey(fields: seq<Field>, key: string) {
    exists i | 0 <= i < |fields| :: fields[i].key == key
  }

  /** Reading `object[key]`: `Undefined` when the key is absent. */
  function Get(fields: seq<Field>, key: string): (v: Value)
    ensures v != Undefined ==> HasKey(fields, key)
    ensures !HasKey(fields, key) ==> v == Undefined
  {
    if fields == [] then Undefined
    else if fields[0].key == key then
      assert HasKey(fields, key);
      fields[0].val
    else
      var v := Get(fields[1..], key);
      assert HasKey(fields[1..], key) ==> HasKey(fields, key) by {
        if HasKey(fields[1..], key) {
          var i :| 0 <= i < |fields[1..]| && fields[1..][i].key == key;
          assert fields[i + 1].key == key;
        }
      }
      assert HasKey(fields, key) ==> HasKey(fields[1..], key) by {
        if HasKey(fields, key) {
          var i :| 0 <= i < |fields| && fields[i].key == key;
          assert fields[1..][i - 1].key == key;
        }
      }
      v
  }

  /** Assigning `object[key] = val`: an existing property keeps its place, a new one goes last. */
  function Put(fields: seq<Field>, key: string, val: Value): (r: seq<Field>)
    ensures |r| >= |fields|
  {
    if fields == [] then [Field(key, val)]
    else if fields[0].key == key then [Field(key, val)] + fields[1..]
    else [fields[0]] + Put(fields[1..], key, val)
  }

  /** What an assignment does to later reads. */
  lemma {:induction false} GetPut(fields: seq<Field>, key: string, val: Value, k: string)
    ensures Get(Put(fields, key, val), k) == if k == key then val else Get(fields, k)
    ensures HasKey(Put(fields, key, val), k) <==> k == key || HasKey(fields, k)
  {
    var r := Put(fields, key, val);
    if fields == [] {
      assert HasKey(r, k) <==> r[0].key == k;
    } else if fields[0].key == key {
      assert r[0].key == key;
      assert r[1..] == fields[1..];
      HasKeySplit(r, k);
      HasKeySplit(fields, k);
    } else {
      GetPut(fields[1..], key, val, k);
      assert r[1..] == Put(fields[1..], key, val);
      HasKeySplit(r, k);
      HasKeySplit(fields, k);
    }
  }

  lemma HasKeySplit(fields: seq<Field>, key: string)
    requires fields != []
    ensures HasKey(fields, key) <==> fields[0].key == key || HasKey(fields[1..], key)
  {
    if HasKey(fields, key) {
      var i :| 0 <= i < |fields| && fields[i].key == key;
      if i > 0 { assert fields[1..][i - 1].key == key; }
    }
    if HasKey(fields[1..], key) {
      var i :| 0 <= i < |fields[1..]| && fields[1..][i].key == key;
      assert fields[i + 1].key == key;
    }
  }

  lemma {:induction false} PutNew(fields: seq<Field>, key: string, val: Value)
    requires !HasKey(fields, key)
    ensures Put(fields, key, val) == fields + [Field(key, val)]
  {
    if fields != [] {
      HasKeySplit(fields, key);
      PutNew(fields[1..], key, val);
      assert [fields[0]] + (fields[1..] + [Field(key, val)]) == fields + [Field(key, val)];
    }
  }

  lemma {:induction false} PutDistinct(fields: seq<Field>, key: string, val: Value)
    requires DistinctKeys(fields)
    ensures DistinctKeys(Put(fields, key, val))
  {
    if fields != [] && fields[0].key != key {
      PutDistinct(fields[1..], key, val);
      var r := Put(fields, key, val);
      forall j | 1 <= j < |r| ensures r[j].key != r[0].key {
        assert r[1..] == Put(fields[1..], key, val);
        assert r[1..][j - 1].key == r[j].key;
        assert HasKey(r[1..], r[j].key);
        GetPut(fields[1..], key, val, r[j].key);
        if r[j].key != key {
          var i :| 0 <= i < |fields[1..]| && fields[1..][i].key == r[j].key;
          assert fields[i + 1].key == r[j].key;
        }
      }
      forall i, j | 0 <= i < j < |r| ensures r[i].key != r[j].key {
        if i > 0 { assert r[1..][i - 1].key != r[1..][j - 1].key; }
      }
    }
  }

  lemma {:induction false} GetAt(fields: seq<Field>, i: nat)
    requires DistinctKeys(fields) && i < |fields|
    ensures Get(fields, fields[i].key) == fields[i].val
  {
    if i > 0 {
      GetAt(fields[1..], i - 1);
    }
  }
}
