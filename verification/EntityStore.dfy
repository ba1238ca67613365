/** The normalised store of the client cache: responses are split into shared entities and
    `__dbRef` references, merged, and rebuilt on read. */
module EntityStore {
  import opened Options
  import opened Json

  datatype ResourceKind = Collection | Document

  datatype Resource = Resource(name: string, kind: ResourceKind, idField: string)

  datatype Key = Key(resource: string, id: string)

  type Store = map<Key, Value>

  /** The manifest's resources by GraphQL type name. */
  type Types = map<string, Resource>

  const DOCUMENT_ID := "__document"

  // ---------------------------------------------------------------- JavaScript conversions

  /** `String(value)`. */
  function JsString(v: Value): string {
    match v
    case Undefined => "undefined"
    case Null => "null"
    case Bool(b) => if b then "true" else "false"
    case Num(text) => text
    case Str(s) => s
    case Arr(items) => JsJoin(items)
    case Obj(_) => "[object Object]"
  }

  function JsJoin(items: seq<Value>): string {
    if items == [] then ""
    else
      (if items[0].Undefined? || items[0].Null? then "" else JsString(items[0]))
      + (if |items| == 1 then "" else "," + JsJoin(items[1..]))
  }

  predicate HasId(id: Value) {
    id != Undefined && id != Null && id != Str("")
  }

  // ---------------------------------------------------------------- references

  function EntityRef(key: Key): Value {
    Obj([Field("__dbRef", Obj([Field("resource", Str(key.resource)), Field("id", Str(key.id))]))])
  }

  datatype Reference = Plain | Dangling | To(key: Key)

  /** How the reader sees an object: any truthy `__dbRef` makes it a reference. */
  function ReferenceOf(fields: seq<Field>): Reference {
    var ref := Get(fields, "__dbRef");
    if !Truthy(ref) then Plain
    else if ref.Obj? && Get(ref.fields, "resource").Str? then
      To(Key(Get(ref.fields, "resource").s, JsString(Get(ref.fields, "id"))))
    else Dangling
  }

  lemma EntityRefRefers(key: Key)
    ensures ReferenceOf(EntityRef(key).fields) == To(key)
  {
    var inner := [Field("resource", Str(key.resource)), Field("id", Str(key.id))];
    assert Get(inner, "id") == Get(inner[1..], "id");
  }

  // ---------------------------------------------------------------- writing entities

  /** `{ ...existing, ...value }`. */
  function Spread(existing: seq<Field>, fields: seq<Field>): seq<Field>
    decreases fields
  {
    if fields == [] then existing
    else Spread(Put(existing, fields[0].key, fields[0].val), fields[1..])
  }

  function MergeEntity(existing: Option<Value>, value: Value): Value {
    if existing.None? || !existing.value.Obj? || !value.Obj? then value
    else Obj(Spread(existing.value.fields, value.fields))
  }

  function Lookup(st: Store, key: Key): Option<Value> {
    if key in st then Some(st[key]) else None
  }

  function SetEntity(st: Store, key: Key, value: Value): Store {
    st[key := MergeEntity(Lookup(st, key), value)]
  }

  /** One call of `setEntity`. */
  datatype Write = Write(key: Key, value: Value)

  function ApplyWrites(st: Store, writes: seq<Write>): Store
    decreases writes
  {
    if writes == [] then st
    else ApplyWrites(SetEntity(st, writes[0].key, writes[0].value), writes[1..])
  }

  // ---------------------------------------------------------------- normalising

  /** The resource named by an object's `__typename`. */
  function TypedResource(types: Types, fields: seq<Field>): Option<Resource> {
    match Get(fields, "__typename")
    case Str(name) => if name != "" && name in types then Some(types[name]) else None
    case _ => None
  }

  /** The entity an object is stored as when it is met anywhere in a response. */
  function TypedKey(types: Types, fields: seq<Field>): Option<Key>
    decreases fields, 1
  {
    match TypedResource(types, fields)
    case None => None
    case Some(resource) =>
      if resource.kind.Document? then Some(Key(resource.name, DOCUMENT_ID))
      else RecordKey(resource, NormalizedFields(types, fields))
  }

  /** The entity a record of a collection is stored as, once its fields are normalised. */
  function RecordKey(resource: Resource, normalized: seq<Field>): Option<Key> {
    var id := Get(normalized, resource.idField);
    if HasId(id) then Some(Key(resource.name, JsString(id))) else None
  }

  /** What `normalizeAnyValue` returns. */
  function Normalized(types: Types, v: Value): Value
    decreases v, 0
  {
    match v
    case Arr(items) => Arr(NormalizedItems(types, items))
    case Obj(fields) =>
      (match TypedKey(types, fields)
       case Some(key) => EntityRef(key)
       case None => Obj(NormalizedFields(types, fields)))
    case _ => v
  }

  function NormalizedItems(types: Types, items: seq<Value>): (r: seq<Value>)
    ensures |r| == |items|
    decreases items, 0
  {
    if items == [] then [] else [Normalized(types, items[0])] + NormalizedItems(types, items[1..])
  }

  function NormalizedFields(types: Types, fields: seq<Field>): (r: seq<Field>)
    ensures |r| == |fields|
    ensures forall i | 0 <= i < |fields| :: r[i].key == fields[i].key
    decreases fields, 0
  {
    if fields == [] then []
    else [Field(fields[0].key, Normalized(types, fields[0].val))] + NormalizedFields(types, fields[1..])
  }

  /** The entities `normalizeAnyValue` writes, in order: an object after what it contains. */
  function Writes(types: Types, v: Value): seq<Write> {
    match v
    case Arr(items) => ItemWrites(types, items)
    case Obj(fields) =>
      (match TypedKey(types, fields)
       case Some(key) => FieldWrites(types, fields) + [Write(key, Obj(NormalizedFields(types, fields)))]
       case None => FieldWrites(types, fields))
    case _ => []
  }

  function ItemWrites(types: Types, items: seq<Value>): seq<Write> {
    if items == [] then [] else Writes(types, items[0]) + ItemWrites(types, items[1..])
  }

  function FieldWrites(types: Types, fields: seq<Field>): seq<Write> {
    if fields == [] then [] else Writes(types, fields[0].val) + FieldWrites(types, fields[1..])
  }

  /** `normalizeRecordValue`: a record of a known collection. */
  function NormalizedRecord(types: Types, resource: Resource, v: Value): Value {
    match v
    case Obj(fields) =>
      (match RecordKey(resource, NormalizedFields(types, fields))
       case Some(key) => EntityRef(key)
       case None => Obj(NormalizedFields(types, fields)))
    case _ => v
  }

  function RecordWrites(types: Types, resource: Resource, v: Value): seq<Write> {
    match v
    case Obj(fields) =>
      FieldWrites(types, fields)
      + (match RecordKey(resource, NormalizedFields(types, fields))
         case Some(key) => [Write(key, Obj(NormalizedFields(types, fields)))]
         case None => [])
    case _ => []
  }

  function NormalizedRecords(types: Types, resource: Resource, items: seq<Value>): (r: seq<Value>)
    ensures |r| == |items|
  {
    if items == [] then []
    else [NormalizedRecord(types, resource, items[0])] + NormalizedRecords(types, resource, items[1..])
  }

  function RecordsWrites(types: Types, resource: Resource, items: seq<Value>): seq<Write> {
    if items == [] then []
    else RecordWrites(types, resource, items[0]) + RecordsWrites(types, resource, items[1..])
  }

  /** `normalizeResourceValue`: the body of a response about a known resource. */
  function NormalizedResource(types: Types, resource: Resource, v: Value): Value {
    if resource.kind.Document? then EntityRef(Key(resource.name, DOCUMENT_ID))
    else if v.Arr? then Arr(NormalizedRecords(types, resource, v.items))
    else NormalizedRecord(types, resource, v)
  }

  function ResourceWrites(types: Types, resource: Resource, v: Value): seq<Write> {
    if resource.kind.Document? then
      Writes(types, v) + [Write(Key(resource.name, DOCUMENT_ID), Normalized(types, v))]
    else if v.Arr? then RecordsWrites(types, resource, v.items)
    else RecordWrites(types, resource, v)
  }

  // ---------------------------------------------------------------- reading back

  /** `denormalizeValue`, following at most `fuel` nested references; None when it needs more. */
  function Read(st: Store, v: Value, fuel: nat): Option<Value>
    decreases fuel, v
  {
    match v
    case Arr(items) =>
      (match ReadItems(st, items, fuel) case Some(r) => Some(Arr(r)) case None => None)
    case Obj(fields) =>
      (match ReferenceOf(fields)
       case Plain => (match ReadFields(st, fields, fuel) case Some(r) => Some(Obj(r)) case None => None)
       case Dangling => Some(Null)
       case To(key) =>
         if key !in st || !Truthy(st[key]) then Some(Null)
         else if fuel == 0 then None
         else Read(st, st[key], fuel - 1))
    case _ => Some(v)
  }

  function ReadItems(st: Store, items: seq<Value>, fuel: nat): Option<seq<Value>>
    decreases fuel, items
  {
    if items == [] then Some([])
    else
      match (Read(st, items[0], fuel), ReadItems(st, items[1..], fuel))
      case (Some(a), Some(r)) => Some([a] + r)
      case _ => None
  }

  function ReadFields(st: Store, fields: seq<Field>, fuel: nat): Option<seq<Field>>
    decreases fuel, fields
  {
    if fields == [] then Some([])
    else
      match (Read(st, fields[0].val, fuel), ReadFields(st, fields[1..], fuel))
      case (Some(a), Some(r)) => Some([Field(fields[0].key, a)] + r)
      case _ => None
  }

  // ---------------------------------------------------------------- normalise, then read

  /** No object of a response looks like a reference. */
  predicate NoRefs(v: Value) {
    match v
    case Arr(items) => forall x | x in items :: NoRefs(x)
    case Obj(fields) => !Truthy(Get(fields, "__dbRef")) && forall f | f in fields :: NoRefs(f.val)
    case _ => true
  }

  predicate NoEntityTwice(writes: seq<Write>) {
    forall i, j | 0 <= i < j < |writes| :: writes[i].key != writes[j].key
  }

  /** Every entity written is in the store as it was written. */
  ghost predicate Holds(st: Store, writes: seq<Write>) {
    forall w | w in writes :: w.key in st && st[w.key] == w.value
  }

  lemma {:induction false} NormalizedGet(types: Types, fields: seq<Field>, key: string)
    ensures Get(NormalizedFields(types, fields), key)
         == if HasKey(fields, key) then Normalized(types, Get(fields, key)) else Undefined
  {
    if fields != [] {
      HasKeySplit(fields, key);
      NormalizedGet(types, fields[1..], key);
      assert NormalizedFields(types, fields)[1..] == NormalizedFields(types, fields[1..]);
    }
  }

  /** Normalising does not turn a plain object into a reference. */
  lemma NormalizedIsPlain(types: Types, fields: seq<Field>)
    requires !Truthy(Get(fields, "__dbRef"))
    ensures ReferenceOf(NormalizedFields(types, fields)) == Plain
  {
    NormalizedGet(types, fields, "__dbRef");
  }

  /** An object stored in place, or as the entity `key`, reads back field by field. */
  lemma ReadObject(types: Types, st: Store, fields: seq<Field>, key: Option<Key>, fuel: nat)
    requires !Truthy(Get(fields, "__dbRef"))
    requires key.Some? ==> fuel > 0 && key.value in st && st[key.value] == Obj(NormalizedFields(types, fields))
    requires ReadFields(st, NormalizedFields(types, fields), if key.Some? then fuel - 1 else fuel) == Some(fields)
    ensures Read(st, if key.Some? then EntityRef(key.value) else Obj(NormalizedFields(types, fields)), fuel)
        == Some(Obj(fields))
  {
    NormalizedIsPlain(types, fields);
    if key.Some? { EntityRefRefers(key.value); }
  }

  /** The writes of an object: those of its fields, and its own when it is an entity. */
  function ObjectWrites(types: Types, fields: seq<Field>, key: Option<Key>): seq<Write> {
    FieldWrites(types, fields)
    + match key case Some(k) => [Write(k, Obj(NormalizedFields(types, fields)))] case None => []
  }

  lemma ObjectStored(types: Types, st: Store, fields: seq<Field>, key: Option<Key>, fuel: nat)
    requires Holds(st, ObjectWrites(types, fields, key)) && fuel >= |ObjectWrites(types, fields, key)|
    ensures Holds(st, FieldWrites(types, fields))
    ensures key.Some? ==>
              && fuel > |FieldWrites(types, fields)|
              && key.value in st && st[key.value] == Obj(NormalizedFields(types, fields))
  {
  }

  lemma {:induction false} RoundTripAny(types: Types, st: Store, v: Value, fuel: nat)
    requires NoRefs(v) && Holds(st, Writes(types, v)) && fuel >= |Writes(types, v)|
    ensures Read(st, Normalized(types, v), fuel) == Some(v)
  {
    match v
    case Arr(items) => RoundTripItems(types, st, items, fuel);
    case Obj(fields) =>
      var key := TypedKey(types, fields);
      ObjectStored(types, st, fields, key, fuel);
      RoundTripFields(types, st, fields, if key.Some? then fuel - 1 else fuel);
      ReadObject(types, st, fields, key, fuel);
    case _ =>
  }

  lemma {:induction false} RoundTripItems(types: Types, st: Store, items: seq<Value>, fuel: nat)
    requires forall x | x in items :: NoRefs(x)
    requires Holds(st, ItemWrites(types, items)) && fuel >= |ItemWrites(types, items)|
    ensures ReadItems(st, NormalizedItems(types, items), fuel) == Some(items)
  {
    if items != [] {
      assert items == [items[0]] + items[1..];
      RoundTripAny(types, st, items[0], fuel);
      RoundTripItems(types, st, items[1..], fuel);
      assert NormalizedItems(types, items)[1..] == NormalizedItems(types, items[1..]);
    }
  }

  lemma {:induction false} RoundTripFields(types: Types, st: Store, fields: seq<Field>, fuel: nat)
    requires forall f | f in fields :: NoRefs(f.val)
    requires Holds(st, FieldWrites(types, fields)) && fuel >= |FieldWrites(types, fields)|
    ensures ReadFields(st, NormalizedFields(types, fields), fuel) == Some(fields)
  {
    if fields != [] {
      assert fields == [fields[0]] + fields[1..];
      RoundTripAny(types, st, fields[0].val, fuel);
      RoundTripFields(types, st, fields[1..], fuel);
      assert NormalizedFields(types, fields)[1..] == NormalizedFields(types, fields[1..]);
    }
  }

  lemma {:induction false} RoundTripRecord(types: Types, st: Store, resource: Resource, v: Value, fuel: nat)
    requires NoRefs(v)
    requires Holds(st, RecordWrites(types, resource, v)) && fuel >= |RecordWrites(types, resource, v)|
    ensures Read(st, NormalizedRecord(types, resource, v), fuel) == Some(v)
  {
    match v
    case Obj(fields) =>
      var key := RecordKey(resource, NormalizedFields(types, fields));
      ObjectStored(types, st, fields, key, fuel);
      RoundTripFields(types, st, fields, if key.Some? then fuel - 1 else fuel);
      ReadObject(types, st, fields, key, fuel);
    case _ => ReadPlain(st, v, fuel);
  }

  lemma {:induction false} ReadPlain(st: Store, v: Value, fuel: nat)
    requires NoRefs(v)
    ensures Read(st, v, fuel) == Some(v)
  {
    match v
    case Arr(items) => ReadPlainItems(st, items, fuel);
    case Obj(fields) => ReadPlainFields(st, fields, fuel);
    case _ =>
  }

  lemma {:induction false} ReadPlainItems(st: Store, items: seq<Value>, fuel: nat)
    requires forall x | x in items :: NoRefs(x)
    ensures ReadItems(st, items, fuel) == Some(items)
  {
    if items != [] {
      assert items == [items[0]] + items[1..];
      ReadPlain(st, items[0], fuel);
      ReadPlainItems(st, items[1..], fuel);
    }
  }

  lemma {:induction false} ReadPlainFields(st: Store, fields: seq<Field>, fuel: nat)
    requires forall f | f in fields :: NoRefs(f.val)
    ensures ReadFields(st, fields, fuel) == Some(fields)
  {
    if fields != [] {
      assert fields == [fields[0]] + fields[1..];
      ReadPlain(st, fields[0].val, fuel);
      ReadPlainFields(st, fields[1..], fuel);
    }
  }

  lemma {:induction false} RoundTripRecords(types: Types, st: Store, resource: Resource, items: seq<Value>, fuel: nat)
    requires forall x | x in items :: NoRefs(x)
    requires Holds(st, RecordsWrites(types, resource, items)) && fuel >= |RecordsWrites(types, resource, items)|
    ensures ReadItems(st, NormalizedRecords(types, resource, items), fuel) == Some(items)
  {
    if items != [] {
      assert items == [items[0]] + items[1..];
      RoundTripRecord(types, st, resource, items[0], fuel);
      RoundTripRecords(types, st, resource, items[1..], fuel);
      assert NormalizedRecords(types, resource, items)[1..] == NormalizedRecords(types, resource, items[1..]);
    }
  }

  lemma {:induction false} ApplyUntouched(st: Store, writes: seq<Write>, key: Key)
    requires forall w | w in writes :: w.key != key
    ensures Lookup(ApplyWrites(st, writes), key) == Lookup(st, key)
    decreases writes
  {
    if writes != [] {
      ApplyUntouched(SetEntity(st, writes[0].key, writes[0].value), writes[1..], key);
    }
  }

  /** Entities written once are stored merged into what was there. */
  lemma {:induction false} ApplyOnce(st: Store, writes: seq<Write>, i: nat)
    requires NoEntityTwice(writes) && i < |writes|
    ensures Lookup(ApplyWrites(st, writes), writes[i].key)
         == Some(MergeEntity(Lookup(st, writes[i].key), writes[i].value))
    decreases writes
  {
    var st1 := SetEntity(st, writes[0].key, writes[0].value);
    if i == 0 {
      ApplyUntouched(st1, writes[1..], writes[0].key);
    } else {
      ApplyOnce(st1, writes[1..], i - 1);
      assert Lookup(st1, writes[i].key) == Lookup(st, writes[i].key);
    }
  }

  lemma {:induction false} WritesHold(st: Store, ws: seq<Write>)
    requires NoEntityTwice(ws) && forall w | w in ws :: w.key !in st
    ensures Holds(ApplyWrites(st, ws), ws)
  {
    var after := ApplyWrites(st, ws);
    forall w | w in ws ensures w.key in after && after[w.key] == w.value {
      var i :| 0 <= i < |ws| && ws[i] == w;
      ApplyOnce(st, ws, i);
    }
  }

  lemma RoundTripDocument(types: Types, st: Store, r: Resource, v: Value)
    requires r.kind.Document? && NoRefs(v) && Holds(st, ResourceWrites(types, r, v))
    ensures Read(st, NormalizedResource(types, r, v), |ResourceWrites(types, r, v)|) == Some(v)
        <==> Truthy(v) || v == Null
  {
    var ws := ResourceWrites(types, r, v);
    var last := Write(Key(r.name, DOCUMENT_ID), Normalized(types, v));
    EntityRefRefers(last.key);
    assert ws[|ws| - 1] == last && last in ws && ws[..|ws| - 1] == Writes(types, v);
    NormalizedTruthy(types, v);
    if Truthy(v) {
      assert Holds(st, Writes(types, v));
      RoundTripAny(types, st, v, |ws| - 1);
    }
  }

  lemma NormalizedTruthy(types: Types, v: Value)
    ensures Truthy(Normalized(types, v)) == Truthy(v)
    ensures !Truthy(v) ==> Normalized(types, v) == v
  {
  }

  /** Reading back the stored form of a response gives the response, for every body about a known
      resource (`resource` given) and every other body, when no entity occurs in it twice and none
      is stored yet.  The one exception: a document whose whole value is falsy but not null. */
  lemma {:induction false} NormalizeThenRead(types: Types, st: Store, resource: Option<Resource>, v: Value)
    requires NoRefs(v)
    requires NoEntityTwice(AllWrites(types, resource, v))
    requires forall w | w in AllWrites(types, resource, v) :: w.key !in st
    ensures var ws := AllWrites(types, resource, v);
            Read(ApplyWrites(st, ws), Stored(types, resource, v), |ws|) == Some(v)
            <==> !(resource.Some? && resource.value.kind.Document? && !Truthy(v) && v != Null)
  {
    var ws := AllWrites(types, resource, v);
    var after := ApplyWrites(st, ws);
    WritesHold(st, ws);
    match resource
    case None => RoundTripAny(types, after, v, |ws|);
    case Some(r) =>
      if r.kind.Document? {
        RoundTripDocument(types, after, r, v);
      } else if v.Arr? {
        RoundTripRecords(types, after, r, v.items, |ws|);
      } else {
        RoundTripRecord(types, after, r, v, |ws|);
      }
  }

  /** The same without that condition: an entity may occur in several places, if it is the same there. */
  ghost predicate Consistent(ws: seq<Write>) {
    forall v, w | v in ws && w in ws && v.key == w.key :: v.value == w.value
  }

  lemma {:induction false} PutSame(fields: seq<Field>, i: nat)
    requires DistinctKeys(fields) && i < |fields|
    ensures Put(fields, fields[i].key, fields[i].val) == fields
  {
    if i > 0 {
      assert fields[0].key != fields[i].key && fields[1..][i - 1] == fields[i];
      PutSame(fields[1..], i - 1);
      assert [fields[0]] + fields[1..] == fields;
    }
  }

  /** Laying a record over itself changes nothing. */
  lemma {:induction false} SpreadSame(fields: seq<Field>, n: nat)
    requires DistinctKeys(fields) && n <= |fields|
    ensures Spread(fields, fields[n..]) == fields
    decreases |fields| - n
  {
    if n < |fields| {
      PutSame(fields, n);
      assert fields[n..][0] == fields[n] && fields[n..][1..] == fields[n + 1..];
      SpreadSame(fields, n + 1);
    }
  }

  lemma {:induction false} RepeatedWritesHold(st: Store, ws: seq<Write>)
    requires Consistent(ws)
    requires forall w | w in ws :: w.key !in st && (w.value.Obj? ==> DistinctKeys(w.value.fields))
    ensures Holds(ApplyWrites(st, ws), ws)
    decreases |ws|
  {
    if ws != [] {
      var before, w := ws[..|ws| - 1], ws[|ws| - 1];
      assert ws == before + [w] && w in ws && forall u | u in before :: u in ws;
      ApplySnoc(st, before, w);
      RepeatedWritesHold(st, before);
      if exists u :: u in before && u.key == w.key {
        var u :| u in before && u.key == w.key;
        assert u.value == w.value;
        if w.value.Obj? {
          SpreadSame(w.value.fields, 0);
          assert w.value.fields[0..] == w.value.fields;
        }
      } else {
        ApplyUntouched(st, before, w.key);
      }
    }
  }

  /** Reading back gives the response also when entities occur in it several times, as one author of
      many records does, if they are the same everywhere. */
  lemma {:induction false} RepeatedThenRead(types: Types, st: Store, resource: Option<Resource>, v: Value)
    requires NoRefs(v) && WellFormed(v)
    requires Consistent(AllWrites(types, resource, v))
    requires forall w | w in AllWrites(types, resource, v) :: w.key !in st
    requires resource.Some? && resource.value.kind.Document? ==> Truthy(v) || v == Null
    ensures var ws := AllWrites(types, resource, v);
            Read(ApplyWrites(st, ws), Stored(types, resource, v), |ws|) == Some(v)
  {
    var ws := AllWrites(types, resource, v);
    var after := ApplyWrites(st, ws);
    AllDistinct(types, resource, v);
    RepeatedWritesHold(st, ws);
    HeldIsRead(types, after, resource, v, |ws|);
  }

  /** A response whose entities are stored as it has them is read back. */
  lemma {:induction false} HeldIsRead(types: Types, st: Store, resource: Option<Resource>, v: Value, fuel: nat)
    requires NoRefs(v) && Holds(st, AllWrites(types, resource, v)) && fuel >= |AllWrites(types, resource, v)|
    requires resource.Some? && resource.value.kind.Document? ==> Truthy(v) || v == Null
    ensures Read(st, Stored(types, resource, v), fuel) == Some(v)
  {
    match resource
    case None => RoundTripAny(types, st, v, fuel);
    case Some(r) =>
      if r.kind.Document? {
        RoundTripDocument(types, st, r, v);
        MoreFuel(st, NormalizedResource(types, r, v), |ResourceWrites(types, r, v)|, fuel);
      } else if v.Arr? {
        RoundTripRecords(types, st, r, v.items, fuel);
      } else {
        RoundTripRecord(types, st, r, v, fuel);
      }
  }

  function Stored(types: Types, resource: Option<Resource>, v: Value): Value {
    match resource
    case None => Normalized(types, v)
    case Some(r) => NormalizedResource(types, r, v)
  }

  function AllWrites(types: Types, resource: Option<Resource>, v: Value): seq<Write> {
    match resource
    case None => Writes(types, v)
    case Some(r) => ResourceWrites(types, r, v)
  }

  // ---------------------------------------------------------------- over a store that knows some entities

  /** `out` carries everything `v` says; an object of `out` may have more fields. */
  ghost predicate Covers(v: Value, out: Value) {
    match v
    case Arr(items) =>
      out.Arr? && |out.items| == |items| && forall i | 0 <= i < |items| :: Covers(items[i], out.items[i])
    case Obj(fields) =>
      out.Obj? && forall f | f in fields :: HasKey(out.fields, f.key) && Covers(f.val, Get(out.fields, f.key))
    case _ => out == v
  }

  /** `full` is `part` laid over an older record that was not itself a reference. */
  ghost predicate Extends(full: Value, part: Value) {
    if part.Obj? then
      && full.Obj?
      && ReferenceOf(full.fields) == ReferenceOf(part.fields)
      && forall key | HasKey(part.fields, key) :: HasKey(full.fields, key)
          && Get(full.fields, key) == Get(part.fields, key)
    else full == part
  }

  lemma {:induction false} SpreadGet(existing: seq<Field>, fields: seq<Field>, key: string)
    requires DistinctKeys(fields)
    ensures Get(Spread(existing, fields), key) == if HasKey(fields, key) then Get(fields, key) else Get(existing, key)
    ensures HasKey(Spread(existing, fields), key) <==> HasKey(existing, key) || HasKey(fields, key)
    decreases fields
  {
    if fields != [] {
      var next := Put(existing, fields[0].key, fields[0].val);
      SpreadGet(next, fields[1..], key);
      GetPut(existing, fields[0].key, fields[0].val, key);
      HasKeySplit(fields, key);
      if HasKey(fields[1..], key) {
        var i :| 0 <= i < |fields[1..]| && fields[1..][i].key == key;
        assert fields[i + 1].key == key;
      }
    }
  }

  /** The stored record is itself a reference, and stays one when the value is laid over it. */
  predicate Hidden(st: Store, w: Write) {
    && w.key in st && st[w.key].Obj? && w.value.Obj?
    && ReferenceOf(st[w.key].fields) != Plain && !HasKey(w.value.fields, "__dbRef")
  }

  lemma MergeExtends(st: Store, w: Write)
    requires w.value.Obj? ==> DistinctKeys(w.value.fields)
    requires !Hidden(st, w)
    ensures Extends(SetEntity(st, w.key, w.value)[w.key], w.value)
  {
    var existing, value := Lookup(st, w.key), w.value;
    if existing.Some? && existing.value.Obj? && value.Obj? {
      forall key ensures Get(Spread(existing.value.fields, value.fields), key)
                      == if HasKey(value.fields, key) then Get(value.fields, key) else Get(existing.value.fields, key)
                 ensures HasKey(value.fields, key) ==> HasKey(Spread(existing.value.fields, value.fields), key) {
        SpreadGet(existing.value.fields, value.fields, key);
      }
    }
  }

  ghost predicate Extended(st: Store, writes: seq<Write>) {
    forall w | w in writes :: w.key in st && Extends(st[w.key], w.value)
  }

  lemma {:induction false} ReadFieldsGet(st: Store, fields: seq<Field>, fuel: nat, key: string)
    requires ReadFields(st, fields, fuel).Some?
    requires HasKey(fields, key)
    ensures var r := ReadFields(st, fields, fuel).value;
            HasKey(r, key) && Read(st, Get(fields, key), fuel) == Some(Get(r, key))
  {
    var r := ReadFields(st, fields, fuel).value;
    HasKeySplit(fields, key);
    assert r[0].key == fields[0].key;
    HasKeySplit(r, key);
    if fields[0].key != key {
      ReadFieldsGet(st, fields[1..], fuel, key);
      assert r[1..] == ReadFields(st, fields[1..], fuel).value;
    }
  }

  lemma {:induction false} CoverAny(types: Types, st: Store, v: Value, fuel: nat)
    requires NoRefs(v) && WellFormed(v) && Extended(st, Writes(types, v))
    requires Read(st, Normalized(types, v), fuel).Some?
    ensures Covers(v, Read(st, Normalized(types, v), fuel).value)
    decreases v, 1
  {
    match v
    case Arr(items) => CoverItems(types, st, items, fuel);
    case Obj(fields) =>
      match TypedKey(types, fields) {
        case None => CoverInPlace(types, st, fields, fuel);
        case Some(key) =>
          assert Writes(types, v)[|FieldWrites(types, fields)|] in Writes(types, v);
          CoverEntity(types, st, fields, key, fuel);
      }
    case _ =>
  }

  lemma {:induction false} CoverInPlace(types: Types, st: Store, fields: seq<Field>, fuel: nat)
    requires NoRefs(Obj(fields)) && WellFormed(Obj(fields)) && Extended(st, FieldWrites(types, fields))
    requires Read(st, Obj(NormalizedFields(types, fields)), fuel).Some?
    ensures Covers(Obj(fields), Read(st, Obj(NormalizedFields(types, fields)), fuel).value)
    decreases fields, 1
  {
    NormalizedIsPlain(types, fields);
    CoverFields(types, st, fields, NormalizedFields(types, fields), fuel);
  }

  lemma {:induction false} CoverEntity(types: Types, st: Store, fields: seq<Field>, key: Key, fuel: nat)
    requires NoRefs(Obj(fields)) && WellFormed(Obj(fields)) && Extended(st, FieldWrites(types, fields))
    requires key in st && Extends(st[key], Obj(NormalizedFields(types, fields)))
    requires Read(st, EntityRef(key), fuel).Some?
    ensures Covers(Obj(fields), Read(st, EntityRef(key), fuel).value)
    decreases fields, 1
  {
    var full := st[key].fields;
    EntityRefRefers(key);
    NormalizedIsPlain(types, fields);
    assert Extends(Obj(full), Obj(NormalizedFields(types, fields)));
    EntityReadsFields(st, key, fuel);
    CoverFields(types, st, fields, full, fuel - 1);
  }

  lemma EntityReadsFields(st: Store, key: Key, fuel: nat)
    requires key in st && st[key].Obj? && ReferenceOf(st[key].fields) == Plain
    requires Read(st, EntityRef(key), fuel).Some?
    ensures fuel > 0 && ReadFields(st, st[key].fields, fuel - 1).Some?
    ensures Read(st, EntityRef(key), fuel).value == Obj(ReadFields(st, st[key].fields, fuel - 1).value)
  {
    EntityRefRefers(key);
  }

  lemma {:induction false} CoverFields(types: Types, st: Store, fields: seq<Field>, full: seq<Field>, fuel: nat)
    requires NoRefs(Obj(fields)) && WellFormed(Obj(fields)) && Extended(st, FieldWrites(types, fields))
    requires Extends(Obj(full), Obj(NormalizedFields(types, fields)))
    requires ReadFields(st, full, fuel).Some?
    ensures Covers(Obj(fields), Obj(ReadFields(st, full, fuel).value))
    decreases fields, 0
  {
    var r := ReadFields(st, full, fuel).value;
    forall i | 0 <= i < |fields| ensures HasKey(r, fields[i].key) && Covers(fields[i].val, Get(r, fields[i].key)) {
      var f := fields[i];
      assert f in fields && HasKey(fields, f.key);
      GetAt(fields, i);
      NormalizedGet(types, fields, f.key);
      assert HasKey(NormalizedFields(types, fields), f.key) by {
        assert NormalizedFields(types, fields)[i].key == f.key;
      }
      ReadFieldsGet(st, full, fuel, f.key);
      FieldWritesInclude(types, fields, i);
      CoverAny(types, st, f.val, fuel);
    }
  }

  lemma {:induction false} FieldWritesInclude(types: Types, fields: seq<Field>, i: nat)
    requires i < |fields|
    ensures forall w | w in Writes(types, fields[i].val) :: w in FieldWrites(types, fields)
  {
    if i > 0 { FieldWritesInclude(types, fields[1..], i - 1); }
  }

  lemma {:induction false} CoverItems(types: Types, st: Store, items: seq<Value>, fuel: nat)
    requires forall x | x in items :: NoRefs(x) && WellFormed(x)
    requires Extended(st, ItemWrites(types, items))
    requires ReadItems(st, NormalizedItems(types, items), fuel).Some?
    ensures Covers(Arr(items), Arr(ReadItems(st, NormalizedItems(types, items), fuel).value))
    decreases items, 0
  {
    if items != [] {
      var ns := NormalizedItems(types, items);
      assert ns[0] == Normalized(types, items[0]) && ns[1..] == NormalizedItems(types, items[1..]);
      CoverAny(types, st, items[0], fuel);
      CoverItems(types, st, items[1..], fuel);
      CoverCons(items, ReadItems(st, ns, fuel).value);
    }
  }

  lemma CoverCons(items: seq<Value>, out: seq<Value>)
    requires items != [] && out != []
    requires Covers(items[0], out[0]) && Covers(Arr(items[1..]), Arr(out[1..]))
    ensures Covers(Arr(items), Arr(out))
  {
  }

  lemma {:induction false} CoverRecord(types: Types, st: Store, resource: Resource, v: Value, fuel: nat)
    requires NoRefs(v) && WellFormed(v) && Extended(st, RecordWrites(types, resource, v))
    requires Read(st, NormalizedRecord(types, resource, v), fuel).Some?
    ensures Covers(v, Read(st, NormalizedRecord(types, resource, v), fuel).value)
  {
    match v
    case Obj(fields) =>
      match RecordKey(resource, NormalizedFields(types, fields)) {
        case None => CoverInPlace(types, st, fields, fuel);
        case Some(key) =>
          assert RecordWrites(types, resource, v)[|FieldWrites(types, fields)|] in RecordWrites(types, resource, v);
          CoverEntity(types, st, fields, key, fuel);
      }
    case _ =>
      ReadPlain(st, v, fuel);
      CoversItself(v);
  }

  lemma {:induction false} CoversItself(v: Value)
    requires WellFormed(v)
    ensures Covers(v, v)
  {
    match v
    case Arr(items) =>
      forall i | 0 <= i < |items| ensures Covers(items[i], items[i]) { CoversItself(items[i]); }
    case Obj(fields) =>
      forall i | 0 <= i < |fields|
        ensures HasKey(fields, fields[i].key) && Covers(fields[i].val, Get(fields, fields[i].key)) {
        GetAt(fields, i);
        CoversItself(fields[i].val);
      }
    case _ =>
  }

  lemma {:induction false} CoverRecords(types: Types, st: Store, resource: Resource, items: seq<Value>, fuel: nat)
    requires forall x | x in items :: NoRefs(x) && WellFormed(x)
    requires Extended(st, RecordsWrites(types, resource, items))
    requires ReadItems(st, NormalizedRecords(types, resource, items), fuel).Some?
    ensures Covers(Arr(items), Arr(ReadItems(st, NormalizedRecords(types, resource, items), fuel).value))
  {
    if items != [] {
      var ns := NormalizedRecords(types, resource, items);
      assert ns[0] == NormalizedRecord(types, resource, items[0]);
      assert ns[1..] == NormalizedRecords(types, resource, items[1..]);
      CoverRecord(types, st, resource, items[0], fuel);
      CoverRecords(types, st, resource, items[1..], fuel);
      CoverCons(items, ReadItems(st, ns, fuel).value);
    }
  }

  lemma {:induction false} NormalizedDistinct(types: Types, v: Value)
    requires WellFormed(v)
    ensures Normalized(types, v).Obj? ==> DistinctKeys(Normalized(types, v).fields)
    ensures forall w | w in Writes(types, v) :: w.value.Obj? && DistinctKeys(w.value.fields)
  {
    match v
    case Arr(items) => NormalizedItemsDistinct(types, items);
    case Obj(fields) => NormalizedFieldsDistinct(types, fields);
    case _ =>
  }

  lemma {:induction false} NormalizedItemsDistinct(types: Types, items: seq<Value>)
    requires forall x | x in items :: WellFormed(x)
    ensures forall w | w in ItemWrites(types, items) :: w.value.Obj? && DistinctKeys(w.value.fields)
  {
    if items != [] {
      NormalizedDistinct(types, items[0]);
      NormalizedItemsDistinct(types, items[1..]);
    }
  }

  lemma {:induction false} NormalizedFieldsDistinct(types: Types, fields: seq<Field>)
    requires forall f | f in fields :: WellFormed(f.val)
    ensures forall w | w in FieldWrites(types, fields) :: w.value.Obj? && DistinctKeys(w.value.fields)
  {
    if fields != [] {
      NormalizedDistinct(types, fields[0].val);
      NormalizedFieldsDistinct(types, fields[1..]);
    }
  }

  lemma RecordDistinct(types: Types, resource: Resource, v: Value)
    requires WellFormed(v)
    ensures forall w | w in RecordWrites(types, resource, v) :: w.value.Obj? && DistinctKeys(w.value.fields)
  {
    if v.Obj? { NormalizedFieldsDistinct(types, v.fields); }
  }

  lemma {:induction false} RecordsDistinct(types: Types, resource: Resource, items: seq<Value>)
    requires forall x | x in items :: WellFormed(x)
    ensures forall w | w in RecordsWrites(types, resource, items) :: w.value.Obj? && DistinctKeys(w.value.fields)
  {
    if items != [] {
      RecordDistinct(types, resource, items[0]);
      RecordsDistinct(types, resource, items[1..]);
    }
  }

  lemma AllDistinct(types: Types, resource: Option<Resource>, v: Value)
    requires WellFormed(v)
    ensures forall w | w in AllWrites(types, resource, v) :: w.value.Obj? ==> DistinctKeys(w.value.fields)
  {
    NormalizedDistinct(types, v);
    match v
    case Arr(items) => if resource.Some? { RecordsDistinct(types, resource.value, items); }
    case Obj(fields) => NormalizedFieldsDistinct(types, fields);
    case _ =>
  }

  /** Two values of one entity say the same about what both mention. */
  ghost predicate Agree(a: Value, b: Value) {
    if a.Obj? && b.Obj? then
      && ReferenceOf(a.fields) == ReferenceOf(b.fields)
      && forall key | HasKey(a.fields, key) && HasKey(b.fields, key) :: Get(a.fields, key) == Get(b.fields, key)
    else a == b
  }

  ghost predicate Agreeing(ws: seq<Write>) {
    forall v, w | v in ws && w in ws && v.key == w.key :: Agree(v.value, w.value)
  }

  /** What was written earlier is kept by a later write that agrees with it. */
  lemma ExtendsStays(st: Store, u: Value, w: Write)
    requires w.value.Obj? ==> DistinctKeys(w.value.fields)
    requires w.key in st && Extends(st[w.key], u) && Agree(u, w.value)
    ensures Extends(SetEntity(st, w.key, w.value)[w.key], u)
  {
    if u.Obj? && w.value.Obj? {
      var full := st[w.key].fields;
      forall key ensures Get(Spread(full, w.value.fields), key)
                      == if HasKey(w.value.fields, key) then Get(w.value.fields, key) else Get(full, key)
                 ensures HasKey(Spread(full, w.value.fields), key)
                     <==> HasKey(full, key) || HasKey(w.value.fields, key) {
        SpreadGet(full, w.value.fields, key);
      }
      assert ReferenceOf(w.value.fields) == ReferenceOf(u.fields);
      ReferenceKept(full, w.value.fields);
    }
  }

  /** Over a record that refers as they do, fields keep that. */
  lemma ReferenceKept(full: seq<Field>, fields: seq<Field>)
    requires DistinctKeys(fields) && ReferenceOf(full) == ReferenceOf(fields)
    ensures ReferenceOf(Spread(full, fields)) == ReferenceOf(fields)
  {
    SpreadGet(full, fields, "__dbRef");
  }

  /** The same, but for some entities. */
  ghost predicate ExtendedOutside(st: Store, writes: seq<Write>, but: set<Key>) {
    forall w | w in writes && w.key !in but :: w.key in st && Extends(st[w.key], w.value)
  }

  lemma {:induction false} WritesExtend(st: Store, ws: seq<Write>, but: set<Key>)
    requires Agreeing(ws)
    requires forall w | w in ws :: w.value.Obj? ==> DistinctKeys(w.value.fields)
    requires forall w | w in ws && w.key !in but :: !Hidden(st, w)
    ensures ExtendedOutside(ApplyWrites(st, ws), ws, but)
    decreases |ws|
  {
    if ws != [] {
      var before, w := ws[..|ws| - 1], ws[|ws| - 1];
      var mid := ApplyWrites(st, before);
      assert ws == before + [w] && w in ws && forall u | u in before :: u in ws;
      ApplySnoc(st, before, w);
      WritesExtend(st, before, but);
      if w.key !in but {
        NotHiddenLater(st, before, w);
        MergeExtends(mid, w);
      }
      forall u | u in before && u.key !in but
        ensures u.key in ApplyWrites(st, ws) && Extends(ApplyWrites(st, ws)[u.key], u.value) {
        assert u.key in mid && Extends(mid[u.key], u.value);
        if u.key == w.key { ExtendsStays(mid, u.value, w); }
      }
    }
  }

  /** Writes that agree with `w` do not hide it. */
  lemma {:induction false} NotHiddenLater(st: Store, ws: seq<Write>, w: Write)
    requires !Hidden(st, w)
    requires forall u | u in ws && u.key == w.key ::
      Agree(u.value, w.value) && w.key in ApplyWrites(st, ws) && Extends(ApplyWrites(st, ws)[w.key], u.value)
    ensures !Hidden(ApplyWrites(st, ws), w)
  {
    if exists u :: u in ws && u.key == w.key {
      var u :| u in ws && u.key == w.key;
      assert Extends(ApplyWrites(st, ws)[w.key], u.value);
    } else {
      ApplyUntouched(st, ws, w.key);
    }
  }

  lemma CoverDocumentResponse(types: Types, st: Store, r: Resource, v: Value, fuel: nat)
    requires r.kind.Document? && NoRefs(v) && WellFormed(v) && (Truthy(v) || v == Null)
    requires Extended(st, ResourceWrites(types, r, v)) && Read(st, NormalizedResource(types, r, v), fuel).Some?
    ensures Covers(v, Read(st, NormalizedResource(types, r, v), fuel).value)
  {
    var key, ws := Key(r.name, DOCUMENT_ID), ResourceWrites(types, r, v);
    EntityRefRefers(key);
    assert ws[|ws| - 1] == Write(key, Normalized(types, v)) && ws[|ws| - 1] in ws;
    if Truthy(v) { CoverDocument(types, st, v, st[key], fuel - 1); }
  }

  /** Over a store that already holds some of the entities, a read that ends returns everything the
      response carried, when no entity is hidden by a stored reference, and what the response says of
      one entity in several places agrees. */
  lemma {:induction false} ReadCoversResponse(types: Types, st: Store, resource: Option<Resource>, v: Value, fuel: nat)
    requires NoRefs(v) && WellFormed(v)
    requires Agreeing(AllWrites(types, resource, v))
    requires forall w | w in AllWrites(types, resource, v) :: !Hidden(st, w)
    requires resource.Some? && resource.value.kind.Document? ==> Truthy(v) || v == Null
    requires Read(ApplyWrites(st, AllWrites(types, resource, v)), Stored(types, resource, v), fuel).Some?
    ensures Covers(v, Read(ApplyWrites(st, AllWrites(types, resource, v)), Stored(types, resource, v), fuel).value)
  {
    AllDistinct(types, resource, v);
    WritesExtend(st, AllWrites(types, resource, v), {});
    CoverStored(types, ApplyWrites(st, AllWrites(types, resource, v)), resource, v, fuel);
  }

  lemma {:induction false} CoverStored(types: Types, st: Store, resource: Option<Resource>, v: Value, fuel: nat)
    requires NoRefs(v) && WellFormed(v) && Extended(st, AllWrites(types, resource, v))
    requires resource.Some? && resource.value.kind.Document? ==> Truthy(v) || v == Null
    requires Read(st, Stored(types, resource, v), fuel).Some?
    ensures Covers(v, Read(st, Stored(types, resource, v), fuel).value)
  {
    match resource
    case None => CoverAny(types, st, v, fuel);
    case Some(r) =>
      if r.kind.Document? {
        CoverDocumentResponse(types, st, r, v, fuel);
      } else if v.Arr? {
        CoverRecords(types, st, r, v.items, fuel);
      } else {
        CoverRecord(types, st, r, v, fuel);
      }
  }

  lemma CoverDocument(types: Types, st: Store, v: Value, full: Value, fuel: nat)
    requires NoRefs(v) && WellFormed(v) && Extended(st, Writes(types, v))
    requires Extends(full, Normalized(types, v))
    requires Read(st, full, fuel).Some?
    ensures Covers(v, Read(st, full, fuel).value)
  {
    if v.Obj? && TypedKey(types, v.fields).None? {
      NormalizedIsPlain(types, v.fields);
      CoverFields(types, st, v.fields, full.fields, fuel);
    } else {
      if v.Obj? { EntityRefRefers(TypedKey(types, v.fields).value); }
      CoverAny(types, st, v, fuel);
    }
  }

  // ---------------------------------------------------------------- reads that end

  /** Every reference in `v` is to a resource ranked below `n`. */
  ghost predicate RefsBelow(v: Value, rank: string -> nat, n: nat) {
    match v
    case Arr(items) => forall x | x in items :: RefsBelow(x, rank, n)
    case Obj(fields) =>
      && (ReferenceOf(fields).To? ==> rank(ReferenceOf(fields).key.resource) < n)
      && forall f | f in fields :: RefsBelow(f.val, rank, n)
    case _ => true
  }

  /** References between resource types are well founded: each goes to a lower rank. */
  ghost predicate Ranked(st: Store, rank: string -> nat) {
    forall key | key in st :: RefsBelow(st[key], rank, rank(key.resource))
  }

  lemma {:induction false} ReadEnds(st: Store, rank: string -> nat, v: Value, n: nat, fuel: nat)
    requires Ranked(st, rank) && RefsBelow(v, rank, n) && n <= fuel
    ensures Read(st, v, fuel).Some?
    decreases fuel, v, 1
  {
    match v
    case Arr(items) => ReadItemsEnds(st, rank, items, n, fuel);
    case Obj(fields) =>
      match ReferenceOf(fields) {
        case Plain => ReadFieldsEnds(st, rank, fields, n, fuel);
        case Dangling =>
        case To(key) =>
          if key in st && Truthy(st[key]) {
            ReadEnds(st, rank, st[key], rank(key.resource), fuel - 1);
          }
      }
    case _ =>
  }

  lemma {:induction false} ReadItemsEnds(st: Store, rank: string -> nat, items: seq<Value>, n: nat, fuel: nat)
    requires Ranked(st, rank) && n <= fuel && forall x | x in items :: RefsBelow(x, rank, n)
    ensures ReadItems(st, items, fuel).Some?
    decreases fuel, items, 0
  {
    if items != [] {
      ReadEnds(st, rank, items[0], n, fuel);
      ReadItemsEnds(st, rank, items[1..], n, fuel);
    }
  }

  lemma {:induction false} ReadFieldsEnds(st: Store, rank: string -> nat, fields: seq<Field>, n: nat, fuel: nat)
    requires Ranked(st, rank) && n <= fuel && forall f | f in fields :: RefsBelow(f.val, rank, n)
    ensures ReadFields(st, fields, fuel).Some?
    decreases fuel, fields, 0
  {
    if fields != [] {
      ReadEnds(st, rank, fields[0].val, n, fuel);
      ReadFieldsEnds(st, rank, fields[1..], n, fuel);
    }
  }

  lemma {:induction false} PutBelow(fields: seq<Field>, key: string, val: Value, rank: string -> nat, n: nat)
    requires RefsBelow(val, rank, n) && forall f | f in fields :: RefsBelow(f.val, rank, n)
    ensures forall f | f in Put(fields, key, val) :: RefsBelow(f.val, rank, n)
  {
    if fields != [] && fields[0].key != key {
      PutBelow(fields[1..], key, val, rank, n);
    }
  }

  lemma {:induction false} SpreadBelow(existing: seq<Field>, fields: seq<Field>, rank: string -> nat, n: nat)
    requires forall f | f in existing :: RefsBelow(f.val, rank, n)
    requires forall f | f in fields :: RefsBelow(f.val, rank, n)
    ensures forall f | f in Spread(existing, fields) :: RefsBelow(f.val, rank, n)
    decreases fields
  {
    if fields != [] {
      PutBelow(existing, fields[0].key, fields[0].val, rank, n);
      SpreadBelow(Put(existing, fields[0].key, fields[0].val), fields[1..], rank, n);
    }
  }

  lemma SetEntityRanked(st: Store, rank: string -> nat, w: Write)
    requires Ranked(st, rank)
    requires RefsBelow(w.value, rank, rank(w.key.resource))
    requires w.value.Obj? ==> DistinctKeys(w.value.fields)
    ensures Ranked(SetEntity(st, w.key, w.value), rank)
  {
    var n := rank(w.key.resource);
    if w.key in st && st[w.key].Obj? && w.value.Obj? {
      assert RefsBelow(st[w.key], rank, n);
      SpreadBelow(st[w.key].fields, w.value.fields, rank, n);
      SpreadGet(st[w.key].fields, w.value.fields, "__dbRef");
    }
  }

  /** Responses whose entities nest along the ranks keep the store ranked, so that every read in
      every state reached by merging such responses ends. */
  lemma {:induction false} ApplyWritesRanked(st: Store, rank: string -> nat, writes: seq<Write>)
    requires Ranked(st, rank)
    requires forall w | w in writes :: RefsBelow(w.value, rank, rank(w.key.resource))
    requires forall w | w in writes :: w.value.Obj? ==> DistinctKeys(w.value.fields)
    ensures Ranked(ApplyWrites(st, writes), rank)
    decreases writes
  {
    if writes != [] {
      SetEntityRanked(st, rank, writes[0]);
      ApplyWritesRanked(SetEntity(st, writes[0].key, writes[0].value), rank, writes[1..]);
    }
  }

  /** More fuel does not change a read that ended. */
  lemma {:induction false} MoreFuel(st: Store, v: Value, fuel: nat, more: nat)
    requires Read(st, v, fuel).Some? && fuel <= more
    ensures Read(st, v, more) == Read(st, v, fuel)
    decreases fuel, v, 1
  {
    match v
    case Arr(items) => MoreFuelItems(st, items, fuel, more);
    case Obj(fields) =>
      match ReferenceOf(fields) {
        case Plain => MoreFuelFields(st, fields, fuel, more);
        case Dangling =>
        case To(key) => if key in st && Truthy(st[key]) { MoreFuel(st, st[key], fuel - 1, more - 1); }
      }
    case _ =>
  }

  lemma {:induction false} MoreFuelItems(st: Store, items: seq<Value>, fuel: nat, more: nat)
    requires ReadItems(st, items, fuel).Some? && fuel <= more
    ensures ReadItems(st, items, more) == ReadItems(st, items, fuel)
    decreases fuel, items, 0
  {
    if items != [] {
      MoreFuel(st, items[0], fuel, more);
      MoreFuelItems(st, items[1..], fuel, more);
    }
  }

  lemma {:induction false} MoreFuelFields(st: Store, fields: seq<Field>, fuel: nat, more: nat)
    requires ReadFields(st, fields, fuel).Some? && fuel <= more
    ensures ReadFields(st, fields, more) == ReadFields(st, fields, fuel)
    decreases fuel, fields, 0
  {
    if fields != [] {
      MoreFuel(st, fields[0].val, fuel, more);
      MoreFuelFields(st, fields[1..], fuel, more);
    }
  }

  /** A document whose body carries its own type name becomes a reference to itself, and no read
      of it ever ends. */
  lemma SelfTypedDocumentNeverReads(types: Types, st: Store, resource: Resource, fields: seq<Field>, fuel: nat)
    requires resource.kind.Document? && WellFormed(Obj(fields))
    requires TypedKey(types, fields) == Some(Key(resource.name, DOCUMENT_ID))
    ensures Read(ApplyWrites(st, ResourceWrites(types, resource, Obj(fields))),
        EntityRef(Key(resource.name, DOCUMENT_ID)), fuel) == None
  {
    var key := Key(resource.name, DOCUMENT_ID);
    var ws := FieldWrites(types, fields) + [Write(key, Obj(NormalizedFields(types, fields)))];
    assert ResourceWrites(types, resource, Obj(fields)) == ws + [Write(key, EntityRef(key))];
    ApplySnoc(st, ws, Write(key, EntityRef(key)));
    ApplySnoc(st, FieldWrites(types, fields), Write(key, Obj(NormalizedFields(types, fields))));
    var before := ApplyWrites(st, ws);
    var after := ApplyWrites(st, ResourceWrites(types, resource, Obj(fields)));
    assert before[key].Obj?;
    EntityRefRefers(key);
    SpreadGet(before[key].fields, EntityRef(key).fields, "__dbRef");
    assert HasKey(EntityRef(key).fields, "__dbRef") by { assert EntityRef(key).fields[0].key == "__dbRef"; }
    assert ReferenceOf(after[key].fields) == To(key);
    SelfReferenceNeverReads(after, key, fuel);
  }

  lemma {:induction false} ApplySnoc(st: Store, writes: seq<Write>, w: Write)
    ensures ApplyWrites(st, writes + [w]) == SetEntity(ApplyWrites(st, writes), w.key, w.value)
    decreases writes
  {
    if writes == [] {
      assert ApplyWrites(st, [w]) == ApplyWrites(SetEntity(st, w.key, w.value), []);
    } else {
      assert (writes + [w])[1..] == writes[1..] + [w];
      ApplySnoc(SetEntity(st, writes[0].key, writes[0].value), writes[1..], w);
    }
  }

  lemma {:induction false} SelfReferenceNeverReads(st: Store, key: Key, fuel: nat)
    requires key in st && st[key].Obj? && ReferenceOf(st[key].fields) == To(key)
    ensures Read(st, EntityRef(key), fuel) == None && Read(st, st[key], fuel) == None
  {
    EntityRefRefers(key);
    if fuel > 0 { SelfReferenceNeverReads(st, key, fuel - 1); }
  }

  // ---------------------------------------------------------------- updates reach the queries that use them

  /** The entities a read of `v` looks at. */
  function Reach(st: Store, v: Value, fuel: nat): set<Key>
    decreases fuel, v
  {
    match v
    case Arr(items) => ReachItems(st, items, fuel)
    case Obj(fields) =>
      (match ReferenceOf(fields)
       case Plain => ReachFields(st, fields, fuel)
       case Dangling => {}
       case To(key) => {key} + if key in st && fuel > 0 then Reach(st, st[key], fuel - 1) else {})
    case _ => {}
  }

  function ReachItems(st: Store, items: seq<Value>, fuel: nat): set<Key>
    decreases fuel, items
  {
    if items == [] then {} else Reach(st, items[0], fuel) + ReachItems(st, items[1..], fuel)
  }

  function ReachFields(st: Store, fields: seq<Field>, fuel: nat): set<Key>
    decreases fuel, fields
  {
    if fields == [] then {} else Reach(st, fields[0].val, fuel) + ReachFields(st, fields[1..], fuel)
  }

  /** What a read does not look at cannot change it. */
  lemma {:induction false} UnreachedUnchanged(st: Store, key: Key, value: Value, v: Value, fuel: nat)
    requires key !in Reach(st, v, fuel)
    ensures Read(SetEntity(st, key, value), v, fuel) == Read(st, v, fuel)
    ensures Read(map k | k in st && k != key :: st[k], v, fuel) == Read(st, v, fuel)
    decreases fuel, v, 1
  {
    match v
    case Arr(items) => UnreachedItems(st, key, value, items, fuel);
    case Obj(fields) =>
      match ReferenceOf(fields) {
        case Plain => UnreachedFields(st, key, value, fields, fuel);
        case Dangling =>
        case To(k) => if k in st && fuel > 0 { UnreachedUnchanged(st, key, value, st[k], fuel - 1); }
      }
    case _ =>
  }

  lemma {:induction false} UnreachedItems(st: Store, key: Key, value: Value, items: seq<Value>, fuel: nat)
    requires key !in ReachItems(st, items, fuel)
    ensures ReadItems(SetEntity(st, key, value), items, fuel) == ReadItems(st, items, fuel)
    ensures ReadItems(map k | k in st && k != key :: st[k], items, fuel) == ReadItems(st, items, fuel)
    decreases fuel, items, 0
  {
    if items != [] {
      UnreachedUnchanged(st, key, value, items[0], fuel);
      UnreachedItems(st, key, value, items[1..], fuel);
    }
  }

  lemma {:induction false} UnreachedFields(st: Store, key: Key, value: Value, fields: seq<Field>, fuel: nat)
    requires key !in ReachFields(st, fields, fuel)
    ensures ReadFields(SetEntity(st, key, value), fields, fuel) == ReadFields(st, fields, fuel)
    ensures ReadFields(map k | k in st && k != key :: st[k], fields, fuel) == ReadFields(st, fields, fuel)
    decreases fuel, fields, 0
  {
    if fields != [] {
      UnreachedUnchanged(st, key, value, fields[0].val, fuel);
      UnreachedFields(st, key, value, fields[1..], fuel);
    }
  }

  /** After `setEntity(key, fields)` every reference to `key` reads the new fields, and under them
      the old ones, which read as before unless they lead back to `key`. */
  lemma UpdateIsRead(st: Store, key: Key, fields: seq<Field>, fuel: nat, name: string)
    requires DistinctKeys(fields)
    requires var existing := if key in st && st[key].Obj? then st[key].fields else [];
             ReferenceOf(existing) == Plain && ReferenceOf(fields) == Plain
    requires Read(SetEntity(st, key, Obj(fields)), EntityRef(key), fuel).Some?
    ensures var existing := if key in st && st[key].Obj? then st[key].fields else [];
            var after := SetEntity(st, key, Obj(fields));
            var out := Read(after, EntityRef(key), fuel).value;
            && fuel > 0 && out.Obj?
            && (HasKey(fields, name) ==> Read(after, Get(fields, name), fuel - 1) == Some(Get(out.fields, name)))
            && (!HasKey(fields, name) && HasKey(existing, name) ==>
                  && Read(after, Get(existing, name), fuel - 1) == Some(Get(out.fields, name))
                  && (key !in Reach(st, Get(existing, name), fuel - 1) ==>
                        Read(st, Get(existing, name), fuel - 1) == Some(Get(out.fields, name))))
            && (!HasKey(fields, name) && !HasKey(existing, name) ==> !HasKey(out.fields, name))
  {
    var existing := if key in st && st[key].Obj? then st[key].fields else [];
    var after := SetEntity(st, key, Obj(fields));
    EntityRefRefers(key);
    SpreadGet(existing, fields, name);
    SpreadGet(existing, fields, "__dbRef");
    var merged := after[key].fields;
    if key !in st || !st[key].Obj? {
      assert merged == fields;
    }
    assert ReferenceOf(merged) == Plain;
    EntityReadsFields(after, key, fuel);
    FieldReads(after, merged, fuel - 1, name);
    if !HasKey(fields, name) && HasKey(existing, name) && key !in Reach(st, Get(existing, name), fuel - 1) {
      UnreachedUnchanged(st, key, Obj(fields), Get(existing, name), fuel - 1);
    }
  }

  lemma FieldReads(st: Store, fields: seq<Field>, fuel: nat, name: string)
    requires ReadFields(st, fields, fuel).Some?
    ensures var out := ReadFields(st, fields, fuel).value;
            && (HasKey(out, name) <==> HasKey(fields, name))
            && (HasKey(fields, name) ==> Read(st, Get(fields, name), fuel) == Some(Get(out, name)))
  {
    ReadFieldsKeys(st, fields, fuel, name);
    if HasKey(fields, name) { ReadFieldsGet(st, fields, fuel, name); }
  }

  lemma {:induction false} ReadFieldsKeys(st: Store, fields: seq<Field>, fuel: nat, key: string)
    requires ReadFields(st, fields, fuel).Some?
    ensures HasKey(ReadFields(st, fields, fuel).value, key) <==> HasKey(fields, key)
  {
    if fields != [] {
      var r := ReadFields(st, fields, fuel).value;
      ReadFieldsKeys(st, fields[1..], fuel, key);
      assert r[1..] == ReadFields(st, fields[1..], fuel).value;
      HasKeySplit(fields, key);
      HasKeySplit(r, key);
    }
  }
}
