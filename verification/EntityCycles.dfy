/** Which reads end: those that meet no entity that contains itself. */
module EntityCycles {
  import opened Options
  import opened Json
  import opened EntityStore
  import opened EntityHiding

  // ---------------------------------------------------------------- what a read follows

  /** The entities a value refers to, as the reader sees it. */
  function Refs(v: Value): set<Key> {
    match v
    case Arr(items) => ItemRefs(items)
    case Obj(fields) =>
      (match ReferenceOf(fields)
       case Plain => FieldRefs(fields)
       case Dangling => {}
       case To(key) => {key})
    case _ => {}
  }

  function ItemRefs(items: seq<Value>): set<Key> {
    if items == [] then {} else Refs(items[0]) + ItemRefs(items[1..])
  }

  function FieldRefs(fields: seq<Field>): set<Key> {
    if fields == [] then {} else Refs(fields[0].val) + FieldRefs(fields[1..])
  }

  /** A read of `v` goes on to the record of `key`. */
  predicate Follows(st: Store, v: Value, key: Key) {
    key in Refs(v) && key in st && Truthy(st[key])
  }

  /** The entities a read meets, one leading to the next. */
  ghost predicate IsPath(st: Store, v: Value, path: seq<Key>)
    decreases |path|
  {
    path != [] && Follows(st, v, path[0]) && (|path| > 1 ==> IsPath(st, st[path[0]], path[1..]))
  }

  ghost predicate Meets(st: Store, v: Value, key: Key) {
    exists path: seq<Key> :: IsPath(st, v, path) && path[|path| - 1] == key
  }

  /** A read of `v` meets an entity that contains itself. */
  ghost predicate MeetsCycle(st: Store, v: Value) {
    exists key | key in st :: Meets(st, v, key) && Meets(st, st[key], key)
  }

  ghost function Met(st: Store, v: Value): set<Key> {
    set key | key in st && Meets(st, v, key)
  }

  lemma {:induction false} PathConcat(st: Store, v: Value, p: seq<Key>, q: seq<Key>)
    requires IsPath(st, v, p) && p[|p| - 1] in st && IsPath(st, st[p[|p| - 1]], q)
    ensures IsPath(st, v, p + q)
    decreases |p|
  {
    assert (p + q)[1..] == p[1..] + q;
    if |p| > 1 {
      assert p[1..][|p| - 2] == p[|p| - 1];
      PathConcat(st, st[p[0]], p[1..], q);
    } else {
      assert p[1..] + q == q;
    }
  }

  lemma {:induction false} PathStored(st: Store, v: Value, path: seq<Key>)
    requires IsPath(st, v, path)
    ensures path[|path| - 1] in st && Truthy(st[path[|path| - 1]])
    decreases |path|
  {
    if |path| > 1 { PathStored(st, st[path[0]], path[1..]); }
  }

  lemma FollowsMeets(st: Store, v: Value, key: Key)
    requires Follows(st, v, key)
    ensures Meets(st, v, key)
  {
    assert IsPath(st, v, [key]);
  }

  lemma {:induction false} MeetsTrans(st: Store, v: Value, key: Key, next: Key)
    requires Meets(st, v, key) && key in st && Meets(st, st[key], next)
    ensures Meets(st, v, next)
  {
    var p :| IsPath(st, v, p) && p[|p| - 1] == key;
    var q :| IsPath(st, st[key], q) && q[|q| - 1] == next;
    PathConcat(st, v, p, q);
    assert (p + q)[|p + q| - 1] == next;
  }

  // ---------------------------------------------------------------- a read ends when those it needs do

  lemma {:induction false} OneRead(st: Store, v: Value, fuel: nat)
    ensures Read(st, v, fuel).Some?
       <==> forall key | Follows(st, v, key) :: fuel > 0 && Read(st, st[key], fuel - 1).Some?
    decreases v
  {
    match v
    case Arr(items) => ItemsRead(st, items, fuel);
    case Obj(fields) => if ReferenceOf(fields) == Plain { FieldsRead(st, fields, fuel); }
    case _ =>
  }

  lemma {:induction false} ItemsRead(st: Store, items: seq<Value>, fuel: nat)
    ensures ReadItems(st, items, fuel).Some?
       <==> forall key | key in ItemRefs(items) && key in st && Truthy(st[key]) ::
              fuel > 0 && Read(st, st[key], fuel - 1).Some?
    decreases items
  {
    if items != [] {
      OneRead(st, items[0], fuel);
      ItemsRead(st, items[1..], fuel);
    }
  }

  lemma {:induction false} FieldsRead(st: Store, fields: seq<Field>, fuel: nat)
    ensures ReadFields(st, fields, fuel).Some?
       <==> forall key | key in FieldRefs(fields) && key in st && Truthy(st[key]) ::
              fuel > 0 && Read(st, st[key], fuel - 1).Some?
    decreases fields
  {
    if fields != [] {
      OneRead(st, fields[0].val, fuel);
      FieldsRead(st, fields[1..], fuel);
    }
  }

  lemma {:induction false} PathReads(st: Store, v: Value, path: seq<Key>, fuel: nat)
    requires IsPath(st, v, path) && Read(st, v, fuel).Some?
    ensures path[|path| - 1] in st && |path| <= fuel && Read(st, st[path[|path| - 1]], fuel - |path|).Some?
    decreases |path|
  {
    OneRead(st, v, fuel);
    if |path| > 1 { PathReads(st, st[path[0]], path[1..], fuel - 1); }
  }

  lemma {:induction false} MetIsRead(st: Store, v: Value, key: Key, fuel: nat) returns (rest: nat)
    requires Meets(st, v, key) && Read(st, v, fuel).Some?
    ensures key in st && rest < fuel && Read(st, st[key], rest).Some?
  {
    var path :| IsPath(st, v, path) && path[|path| - 1] == key;
    PathReads(st, v, path, fuel);
    rest := fuel - |path|;
  }

  /** An entity that contains itself cannot be read. */
  lemma {:induction false} CycleNeverReads(st: Store, key: Key, fuel: nat)
    requires key in st && Meets(st, st[key], key)
    ensures Read(st, st[key], fuel).None?
  {
    if Read(st, st[key], fuel).Some? {
      var rest := MetIsRead(st, st[key], key, fuel);
      CycleNeverReads(st, key, rest);
    }
  }

  lemma {:induction false} MeetsCycleNeverReads(st: Store, v: Value, fuel: nat)
    requires MeetsCycle(st, v)
    ensures Read(st, v, fuel).None?
  {
    var key :| key in st && Meets(st, v, key) && Meets(st, st[key], key);
    if Read(st, v, fuel).Some? {
      var rest := MetIsRead(st, v, key, fuel);
      CycleNeverReads(st, key, rest);
    }
  }

  /** What a read goes on to meets less, when nothing contains itself. */
  lemma MetShrinks(st: Store, v: Value, key: Key)
    requires Follows(st, v, key) && !MeetsCycle(st, v)
    ensures !MeetsCycle(st, st[key]) && Met(st, st[key]) < Met(st, v)
  {
    FollowsMeets(st, v, key);
    forall k | k in st && Meets(st, st[key], k) ensures Meets(st, v, k) { MeetsTrans(st, v, key, k); }
    assert key in Met(st, v) && key !in Met(st, st[key]);
  }

  lemma {:induction false} NoCycleReads(st: Store, v: Value)
    requires !MeetsCycle(st, v)
    ensures Read(st, v, |Met(st, v)|).Some?
    decreases |Met(st, v)|
  {
    var fuel := |Met(st, v)|;
    forall key | Follows(st, v, key) ensures fuel > 0 && Read(st, st[key], fuel - 1).Some? {
      MetShrinks(st, v, key);
      SmallerSet(Met(st, st[key]), Met(st, v));
      NoCycleReads(st, st[key]);
      MoreFuel(st, st[key], |Met(st, st[key])|, fuel - 1);
    }
    OneRead(st, v, fuel);
  }

  lemma SmallerSet<T>(a: set<T>, b: set<T>)
    requires a < b
    ensures |a| < |b|
  {
    var rest := b - a;
    assert b == a + rest && rest != {};
  }

  lemma MetIsStored(st: Store, v: Value)
    ensures |Met(st, v)| <= |st|
  {
    if Met(st, v) < st.Keys {
      SmallerSet(Met(st, v), st.Keys);
    } else {
      assert Met(st, v) == st.Keys;
    }
    assert |st.Keys| == |st|;
  }

  /** Some bound on nested references is enough to read the value. */
  ghost predicate Readable(st: Store, v: Value) {
    exists fuel: nat :: Read(st, v, fuel).Some?
  }

  /** Over any store: a read ends, under some bound, if and only if it meets no entity that contains
      itself; and then it ends when it may follow as many nested references as there are entities. */
  lemma {:induction false} ReadEndsExactly(st: Store, v: Value)
    ensures Readable(st, v) <==> !MeetsCycle(st, v)
    ensures !MeetsCycle(st, v) ==> Read(st, v, |st|).Some?
  {
    if MeetsCycle(st, v) {
      forall fuel: nat ensures Read(st, v, fuel).None? { MeetsCycleNeverReads(st, v, fuel); }
    } else {
      NoCycleReads(st, v);
      MetIsStored(st, v);
      MoreFuel(st, v, |Met(st, v)|, |st|);
    }
  }

  // ---------------------------------------------------------------- what is nested is met

  lemma {:induction false} ItemRefsInclude(items: seq<Value>, i: nat)
    requires i < |items|
    ensures Refs(items[i]) <= ItemRefs(items)
  {
    if i > 0 { ItemRefsInclude(items[1..], i - 1); }
  }

  lemma {:induction false} FieldRefsInclude(fields: seq<Field>, key: string)
    requires HasKey(fields, key)
    ensures Refs(Get(fields, key)) <= FieldRefs(fields)
  {
    HasKeySplit(fields, key);
    if fields[0].key != key { FieldRefsInclude(fields[1..], key); }
  }

  lemma {:induction false} FieldRefsWithin(part: seq<Field>, full: seq<Field>)
    requires forall f | f in part :: HasKey(full, f.key) && Get(full, f.key) == f.val
    ensures FieldRefs(part) <= FieldRefs(full)
  {
    if part != [] {
      FieldRefsInclude(full, part[0].key);
      FieldRefsWithin(part[1..], full);
    }
  }

  /** A value laid over an older record refers to all it refers to. */
  lemma ExtendsRefs(full: Value, part: Value)
    requires Extends(full, part) && (part.Obj? ==> DistinctKeys(part.fields))
    ensures Refs(part) <= Refs(full)
  {
    if part.Obj? && ReferenceOf(part.fields) == Plain {
      forall i | 0 <= i < |part.fields|
        ensures HasKey(full.fields, part.fields[i].key)
             && Get(full.fields, part.fields[i].key) == part.fields[i].val
      {
        GetAt(part.fields, i);
        assert HasKey(part.fields, part.fields[i].key);
      }
      FieldRefsWithin(part.fields, full.fields);
    }
  }

  lemma {:induction false} MeetsWider(st: Store, v: Value, wider: Value, key: Key)
    requires Meets(st, v, key) && Refs(v) <= Refs(wider)
    ensures Meets(st, wider, key)
  {
    var path :| IsPath(st, v, path) && path[|path| - 1] == key;
    assert IsPath(st, wider, path);
  }

  lemma {:induction false} NestedIsMet(types: Types, st: Store, v: Value, key: Key)
    requires NoRefs(v) && WellFormed(v) && key in st && Truthy(st[key])
    requires ExtendedOutside(st, Writes(types, v), {key}) && WritesKey(Writes(types, v), key)
    ensures Meets(st, Normalized(types, v), key)
    decreases v, 1
  {
    match v
    case Arr(items) =>
      var i := WritingItem(types, items, key);
      NormalizedItemAt(types, items, i);
      ItemRefsInclude(NormalizedItems(types, items), i);
      NestedIsMet(types, st, items[i], key);
      MeetsWider(st, Normalized(types, items[i]), Normalized(types, v), key);
    case Obj(fields) =>
      match TypedKey(types, fields)
      case None => NestedInFields(types, st, fields, key);
      case Some(own) =>
        EntityRefRefers(own);
        if own != key { NestedInEntity(types, st, fields, own, key); }
        FollowsMeets(st, EntityRef(own), own);
        if own != key { MeetsTrans(st, EntityRef(own), own, key); }
  }

  lemma {:induction false} NestedInEntity(types: Types, st: Store, fields: seq<Field>, own: Key, key: Key)
    requires NoRefs(Obj(fields)) && WellFormed(Obj(fields)) && key in st && Truthy(st[key]) && own != key
    requires var ws := ObjectWrites(types, fields, Some(own)); ExtendedOutside(st, ws, {key}) && WritesKey(ws, key)
    ensures own in st && Truthy(st[own]) && Meets(st, st[own], key)
    decreases fields, 1
  {
    var ws := ObjectWrites(types, fields, Some(own));
    assert ws[|ws| - 1] == Write(own, Obj(NormalizedFields(types, fields))) && ws[|ws| - 1] in ws;
    assert forall w | w in FieldWrites(types, fields) :: w in ws;
    NestedInFields(types, st, fields, key);
    NormalizedDistinctFields(types, fields);
    ExtendsRefs(st[own], Obj(NormalizedFields(types, fields)));
    MeetsWider(st, Obj(NormalizedFields(types, fields)), st[own], key);
  }

  lemma NormalizedDistinctFields(types: Types, fields: seq<Field>)
    requires DistinctKeys(fields)
    ensures DistinctKeys(NormalizedFields(types, fields))
  {
  }

  lemma {:induction false} NestedInFields(types: Types, st: Store, fields: seq<Field>, key: Key)
    requires NoRefs(Obj(fields)) && WellFormed(Obj(fields)) && key in st && Truthy(st[key])
    requires ExtendedOutside(st, FieldWrites(types, fields), {key}) && WritesKey(FieldWrites(types, fields), key)
    ensures Meets(st, Obj(NormalizedFields(types, fields)), key)
    decreases fields, 0
  {
    var ns := NormalizedFields(types, fields);
    var i := WritingField(types, fields, key);
    assert fields[i] in fields;
    NestedIsMet(types, st, fields[i].val, key);
    GetAt(fields, i);
    NormalizedGet(types, fields, fields[i].key);
    assert HasKey(ns, fields[i].key) by { assert ns[i].key == fields[i].key; }
    assert HasKey(fields, fields[i].key);
    FieldRefsInclude(ns, fields[i].key);
    NormalizedIsPlain(types, fields);
    MeetsWider(st, Normalized(types, fields[i].val), Obj(ns), key);
  }

  // ---------------------------------------------------------------- responses that contain themselves

  /** Nothing written is a reference. */
  predicate PlainWrites(ws: seq<Write>) {
    forall w | w in ws :: w.value.Obj? && ReferenceOf(w.value.fields) == Plain
  }

  lemma {:induction false} WritesArePlain(types: Types, v: Value)
    requires NoRefs(v)
    ensures PlainWrites(Writes(types, v))
  {
    match v
    case Arr(items) => ItemWritesArePlain(types, items);
    case Obj(fields) =>
      FieldWritesArePlain(types, fields);
      NormalizedIsPlain(types, fields);
    case _ =>
  }

  lemma {:induction false} ItemWritesArePlain(types: Types, items: seq<Value>)
    requires forall x | x in items :: NoRefs(x)
    ensures PlainWrites(ItemWrites(types, items))
  {
    if items != [] {
      WritesArePlain(types, items[0]);
      ItemWritesArePlain(types, items[1..]);
    }
  }

  lemma {:induction false} FieldWritesArePlain(types: Types, fields: seq<Field>)
    requires forall f | f in fields :: NoRefs(f.val)
    ensures PlainWrites(FieldWrites(types, fields))
  {
    if fields != [] {
      WritesArePlain(types, fields[0].val);
      FieldWritesArePlain(types, fields[1..]);
    }
  }

  /** After the nested writes, what is written of `key` last is laid over what was written of it before. */
  lemma {:induction false} LastWriteExtends(st: Store, ws: seq<Write>, key: Key, value: Value)
    requires Consistent(ws) && PlainWrites(ws) && WritesKey(ws, key)
    requires forall w | w in ws :: w.key !in st && DistinctKeys(w.value.fields)
    requires value.Obj? ==> DistinctKeys(value.fields)
    ensures var after := ApplyWrites(st, ws + [Write(key, value)]);
            && ExtendedOutside(after, ws, {key})
            && key in after && Extends(after[key], value)
  {
    var mid := ApplyWrites(st, ws);
    RepeatedWritesHold(st, ws);
    ApplySnoc(st, ws, Write(key, value));
    var u :| u in ws && u.key == key;
    assert mid[key] == u.value;
    MergeExtends(mid, Write(key, value));
  }

  /** A record that is laid over its own key, or a document, that contains itself leads back to itself. */
  lemma {:induction false} LeadsBack(st: Store, key: Key, value: Value)
    requires key in st && Extends(st[key], value) && (value.Obj? ==> DistinctKeys(value.fields))
    requires Truthy(st[key]) && Meets(st, value, key)
    ensures MeetsCycle(st, EntityRef(key))
  {
    ExtendsRefs(st[key], value);
    MeetsWider(st, value, st[key], key);
    EntityRefRefers(key);
    FollowsMeets(st, EntityRef(key), key);
  }

  lemma OtherWriteConsistent(ws: seq<Write>, w: Write)
    requires Consistent(ws) && !WritesKey(ws, w.key)
    ensures Consistent(ws + [w])
  {
  }

  lemma {:induction false} RecordHolds(types: Types, st: Store, fields: seq<Field>, key: Key)
    requires WellFormed(Obj(fields))
    requires Consistent(FieldWrites(types, fields)) && !WritesKey(FieldWrites(types, fields), key)
    requires forall w | w in ObjectWrites(types, fields, Some(key)) :: w.key !in st
    ensures Holds(ApplyWrites(st, ObjectWrites(types, fields, Some(key))), ObjectWrites(types, fields, Some(key)))
  {
    NormalizedFieldsDistinct(types, fields);
    NormalizedDistinctFields(types, fields);
    OtherWriteConsistent(FieldWrites(types, fields), Write(key, Obj(NormalizedFields(types, fields))));
    RepeatedWritesHold(st, ObjectWrites(types, fields, Some(key)));
  }

  /** A record that is not inside itself. */
  lemma {:induction false} HeldRecordReads(types: Types, st: Store, fields: seq<Field>, key: Key)
    requires NoRefs(Obj(fields)) && Holds(st, ObjectWrites(types, fields, Some(key)))
    ensures Read(st, EntityRef(key), |ObjectWrites(types, fields, Some(key))|) == Some(Obj(fields))
  {
    var all := ObjectWrites(types, fields, Some(key));
    ObjectStored(types, st, fields, Some(key), |all|);
    RoundTripFields(types, st, fields, |all| - 1);
    ReadObject(types, st, fields, Some(key), |all|);
  }

  lemma {:induction false} ObjectReadsExactly(types: Types, st: Store, fields: seq<Field>, key: Key)
    requires NoRefs(Obj(fields)) && WellFormed(Obj(fields))
    requires Consistent(FieldWrites(types, fields))
    requires forall w | w in ObjectWrites(types, fields, Some(key)) :: w.key !in st
    ensures Readable(ApplyWrites(st, ObjectWrites(types, fields, Some(key))), EntityRef(key))
       <==> !WritesKey(FieldWrites(types, fields), key)
  {
    var ws, value := FieldWrites(types, fields), Obj(NormalizedFields(types, fields));
    var after := ApplyWrites(st, ObjectWrites(types, fields, Some(key)));
    if WritesKey(ws, key) {
      NormalizedFieldsDistinct(types, fields);
      NormalizedDistinctFields(types, fields);
      FieldWritesArePlain(types, fields);
      LastWriteExtends(st, ws, key, value);
      NestedInFields(types, after, fields, key);
      LeadsBack(after, key, value);
      ReadEndsExactly(after, EntityRef(key));
    } else {
      RecordHolds(types, st, fields, key);
      HeldRecordReads(types, after, fields, key);
    }
  }

  /** A record with an id, as the body of a known resource or met anywhere else, of which, wherever the
      answer names an entity twice inside it, it says the same, and none of whose entities is stored yet:
      it can be read if and only if it does not contain itself. */
  lemma RecordReadsExactly(types: Types, st: Store, resource: Option<Resource>, fields: seq<Field>, key: Key)
    requires NoRefs(Obj(fields)) && WellFormed(Obj(fields))
    requires match resource
             case None => TypedKey(types, fields) == Some(key)
             case Some(r) => r.kind.Collection? && RecordKey(r, NormalizedFields(types, fields)) == Some(key)
    requires Consistent(FieldWrites(types, fields))
    requires forall w | w in AllWrites(types, resource, Obj(fields)) :: w.key !in st
    ensures Readable(ApplyWrites(st, AllWrites(types, resource, Obj(fields))), Stored(types, resource, Obj(fields)))
       <==> !WritesKey(FieldWrites(types, fields), key)
  {
    assert AllWrites(types, resource, Obj(fields)) == ObjectWrites(types, fields, Some(key));
    assert Stored(types, resource, Obj(fields)) == EntityRef(key);
    ObjectReadsExactly(types, st, fields, key);
  }

  lemma FalsyDocumentReads(types: Types, st: Store, r: Resource, v: Value)
    requires r.kind.Document? && !Truthy(v) && Key(r.name, DOCUMENT_ID) !in st
    ensures Read(ApplyWrites(st, ResourceWrites(types, r, v)), NormalizedResource(types, r, v), 0).Some?
  {
    EntityRefRefers(Key(r.name, DOCUMENT_ID));
    ApplySnoc(st, Writes(types, v), Write(Key(r.name, DOCUMENT_ID), v));
  }

  /** The same for the body of a document. */
  lemma {:induction false} DocumentReadsExactly(types: Types, st: Store, r: Resource, v: Value)
    requires r.kind.Document? && NoRefs(v) && WellFormed(v)
    requires Consistent(Writes(types, v))
    requires forall w | w in ResourceWrites(types, r, v) :: w.key !in st
    ensures Readable(ApplyWrites(st, ResourceWrites(types, r, v)), NormalizedResource(types, r, v))
       <==> !WritesKey(Writes(types, v), Key(r.name, DOCUMENT_ID))
  {
    var key, ws, value := Key(r.name, DOCUMENT_ID), Writes(types, v), Normalized(types, v);
    var after := ApplyWrites(st, ResourceWrites(types, r, v));
    var last := Write(key, value);
    NormalizedDistinct(types, v);
    assert ResourceWrites(types, r, v)[|ws|] == last;
    if WritesKey(ws, key) {
      WritesArePlain(types, v);
      LastWriteExtends(st, ws, key, value);
      NestedIsMet(types, after, v, key);
      LeadsBack(after, key, value);
      ReadEndsExactly(after, EntityRef(key));
    } else if Truthy(v) {
      OtherWriteConsistent(ws, last);
      RepeatedThenRead(types, st, Some(r), v);
    } else {
      FalsyDocumentReads(types, st, r, v);
    }
  }
}
