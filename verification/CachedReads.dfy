/** What is read of a result that was just stored: the result, or over a store that knows some of its
    entities, at least that. */
module CachedReads {
  import opened Options
  import opened JsText
  import opened Json
  import opened EntityStore
  import opened ClientCache

  predicate DocumentOk(resource: Option<Resource>, v: Value) {
    resource.Some? && resource.value.kind.Document? ==> Truthy(v) || v == Null
  }

  // ---------------------------------------------------------------- GraphQL data

  predicate DataOk(m: Manifest, fields: seq<Field>) {
    forall f | f in fields ::
      NoRefs(f.val) && WellFormed(f.val) && f.key != "__dbRef" && DocumentOk(RootResource(m, f.key, f.val), f.val)
  }

  lemma {:induction false} DataWritesInclude(m: Manifest, fields: seq<Field>, i: nat)
    requires i < |fields|
    ensures |DataStored(m, fields)| == |fields|
    ensures var f := fields[i];
            forall w | w in AllWrites(m.types, RootResource(m, f.key, f.val), f.val) :: w in DataWrites(m, fields)
    ensures DataStored(m, fields)[i]
         == Field(fields[i].key, Stored(m.types, RootResource(m, fields[i].key, fields[i].val), fields[i].val))
  {
    if i > 0 {
      DataWritesInclude(m, fields[1..], i - 1);
    } else if |fields| > 1 {
      DataWritesInclude(m, fields[1..], 0);
    }
  }

  lemma {:induction false} DataDistinct(m: Manifest, fields: seq<Field>)
    requires forall f | f in fields :: WellFormed(f.val)
    ensures forall w | w in DataWrites(m, fields) :: w.value.Obj? ==> DistinctKeys(w.value.fields)
  {
    if fields != [] {
      AllDistinct(m.types, RootResource(m, fields[0].key, fields[0].val), fields[0].val);
      DataDistinct(m, fields[1..]);
    }
  }

  lemma {:induction false} DataIsRead(m: Manifest, st: Store, fields: seq<Field>, fuel: nat)
    requires DataOk(m, fields) && Holds(st, DataWrites(m, fields)) && fuel >= |DataWrites(m, fields)|
    ensures ReadFields(st, DataStored(m, fields), fuel) == Some(fields)
  {
    if fields != [] {
      var f := fields[0];
      assert fields == [f] + fields[1..];
      HeldIsRead(m.types, st, RootResource(m, f.key, f.val), f.val, fuel);
      DataIsRead(m, st, fields[1..], fuel);
      assert DataStored(m, fields)[1..] == DataStored(m, fields[1..]);
    }
  }

  lemma DataIsPlain(m: Manifest, fields: seq<Field>)
    requires DataOk(m, fields)
    ensures ReferenceOf(DataStored(m, fields)) == Plain && ReferenceOf(fields) == Plain
  {
    DataStoredGet(m, fields, "__dbRef");
    forall i | 0 <= i < |fields| ensures fields[i].key != "__dbRef" { assert fields[i] in fields; }
  }

  lemma {:induction false} DataStoredGet(m: Manifest, fields: seq<Field>, key: string)
    ensures HasKey(DataStored(m, fields), key) <==> HasKey(fields, key)
    ensures var v := Get(fields, key);
            Get(DataStored(m, fields), key)
            == if HasKey(fields, key) then Stored(m.types, RootResource(m, key, v), v) else Undefined
  {
    if fields != [] {
      HasKeySplit(fields, key);
      HasKeySplit(DataStored(m, fields), key);
      assert DataStored(m, fields)[1..] == DataStored(m, fields[1..]);
      DataStoredGet(m, fields[1..], key);
    }
  }

  // ---------------------------------------------------------------- a result with one part stored

  lemma {:induction false} ResultFields(st: Store, result: seq<Field>, name: string, stored: Value, v: Value, fuel: nat)
    requires DistinctKeys(result) && forall f | f in result && f.key != name :: NoRefs(f.val)
    requires Read(st, stored, fuel) == Some(v)
    ensures ReadFields(st, Put(result, name, stored), fuel) == Some(Put(result, name, v))
  {
    if result == [] {
      var full := Put(result, name, stored);
      assert full == [Field(name, stored)] && full[1..] == [] && ReadFields(st, full[1..], fuel) == Some([]);
      assert [Field(name, v)] + [] == [Field(name, v)] == Put(result, name, v);
    } else if result[0].key == name {
      forall f | f in result[1..] ensures NoRefs(f.val) && f.key != name {
        var i :| 0 <= i < |result[1..]| && result[1..][i] == f;
        assert result[i + 1] == f && result[0].key != result[i + 1].key;
      }
      ReadPlainFields(st, result[1..], fuel);
      assert Put(result, name, stored)[1..] == result[1..];
    } else {
      assert result == [result[0]] + result[1..];
      ReadPlain(st, result[0].val, fuel);
      ResultFields(st, result[1..], name, stored, v, fuel);
      assert Put(result, name, stored)[1..] == Put(result[1..], name, stored);
    }
  }

  /** An object of which one property was stored elsewhere. */
  lemma ResultIsRead(st: Store, result: seq<Field>, name: string, stored: Value, v: Value, fuel: nat)
    requires NoRefs(Obj(result)) && DistinctKeys(result) && name != "__dbRef" && Read(st, stored, fuel) == Some(v)
    ensures Read(st, Obj(Put(result, name, stored)), fuel) == Some(Obj(Put(result, name, v)))
  {
    GetPut(result, name, stored, "__dbRef");
    ResultFields(st, result, name, stored, v, fuel);
  }

  /** Putting a property back where it was. */
  lemma {:induction false} PutBack(result: seq<Field>, name: string)
    requires HasKey(result, name)
    ensures Put(result, name, Get(result, name)) == result
  {
    HasKeySplit(result, name);
    if result[0].key == name {
      assert [result[0]] + result[1..] == result;
    } else {
      PutBack(result[1..], name);
      assert [result[0]] + result[1..] == result;
    }
  }

  // ---------------------------------------------------------------- GraphQL results

  /** What can be stored of a result and read again. */
  predicate ResultOk(result: seq<Field>) {
    NoRefs(Obj(result)) && WellFormed(Obj(result))
  }

  /** Nothing of it is stored yet, and what it says of one entity in several places is the same. */
  ghost predicate Fresh(st: Store, ws: seq<Write>) {
    Consistent(ws) && forall w | w in ws :: w.key !in st
  }

  lemma {:induction false} GetOk(fields: seq<Field>, name: string)
    requires ResultOk(fields)
    ensures NoRefs(Get(fields, name)) && WellFormed(Get(fields, name))
  {
    if HasKey(fields, name) {
      var i :| 0 <= i < |fields| && fields[i].key == name;
      GetAt(fields, i);
      assert fields[i] in fields;
    }
  }

  lemma StoredDataIsRead(m: Manifest, st: Store, data: Value, fuel: nat)
    requires NoRefs(data) && DataOk(m, RootFields(data))
    requires Holds(st, DataWrites(m, RootFields(data))) && fuel >= |DataWrites(m, RootFields(data))|
    ensures Read(st, StoredData(m, data), fuel) == Some(data)
  {
    if data.Obj? {
      DataIsRead(m, st, data.fields, fuel);
      DataIsPlain(m, data.fields);
    } else {
      ReadPlain(st, data, fuel);
    }
  }

  /** A GraphQL result without errors, none of whose entities is stored yet, is read back from the cache as
      it was. */
  lemma GraphqlIsReadBack(policy: WritePolicy, c: Cache, key: string, result: seq<Field>)
    requires !(Get(result, "errors").Arr? && Get(result, "errors").items != [])
    requires ResultOk(result) && HasKey(result, "data")
    requires DataOk(c.manifest, RootFields(Get(result, "data")))
    requires Fresh(c.entities, DataWrites(c.manifest, RootFields(Get(result, "data"))))
    ensures exists fuel: nat :: ReadQuery(Step(policy, c, StoreGraphql(key, result)), key, fuel) == Some(Obj(result))
  {
    var m, data := c.manifest, Get(result, "data");
    var ws := DataWrites(m, RootFields(data));
    var after := ApplyWrites(c.entities, ws);
    GetOk(result, "data");
    DataDistinct(m, RootFields(data));
    RepeatedWritesHold(c.entities, ws);
    StoredDataIsRead(m, after, data, |ws|);
    ResultIsRead(after, result, "data", StoredData(m, data), data, |ws|);
    PutBack(result, "data");
    assert ReadQuery(Step(policy, c, StoreGraphql(key, result)), key, |ws|) == Some(Obj(result));
  }

  /** The same for the answer of a REST read, with its status and headers, whatever it was read from. */
  lemma RestIsReadBack(policy: WritePolicy, c: Cache, key: string, target: Option<Resource>, status: int,
                       result: seq<Field>)
    requires 200 <= status < 300 && ResultOk(result) && HasKey(result, "body")
    requires DocumentOk(target, Get(result, "body"))
    requires Fresh(c.entities, AllWrites(c.manifest.types, target, Get(result, "body")))
    ensures exists fuel: nat ::
              ReadQuery(Step(policy, c, StoreRest(key, target, status, result)), key, fuel) == Some(Obj(result))
  {
    var types, body := c.manifest.types, Get(result, "body");
    var ws := AllWrites(types, target, body);
    var after := ApplyWrites(c.entities, ws);
    GetOk(result, "body");
    AllDistinct(types, target, body);
    RepeatedWritesHold(c.entities, ws);
    HeldIsRead(types, after, target, body, |ws|);
    ResultIsRead(after, result, "body", Stored(types, target, body), body, |ws|);
    PutBack(result, "body");
    assert ReadQuery(Step(policy, c, StoreRest(key, target, status, result)), key, |ws|) == Some(Obj(result));
  }

  // ---------------------------------------------------------------- over a store that knows some entities

  /** No entity is hidden by a stored reference, and what is said of one in several places agrees. */
  ghost predicate Mergeable(st: Store, ws: seq<Write>) {
    Agreeing(ws) && forall w | w in ws :: !Hidden(st, w)
  }

  lemma {:induction false} DataIsCovered(m: Manifest, st: Store, fields: seq<Field>, fuel: nat)
    requires DataOk(m, fields) && DistinctKeys(fields) && Extended(st, DataWrites(m, fields))
    requires ReadFields(st, DataStored(m, fields), fuel).Some?
    ensures Covers(Obj(fields), Obj(ReadFields(st, DataStored(m, fields), fuel).value))
  {
    var out := ReadFields(st, DataStored(m, fields), fuel).value;
    forall i | 0 <= i < |fields| ensures HasKey(out, fields[i].key) && Covers(fields[i].val, Get(out, fields[i].key)) {
      var f := fields[i];
      assert f in fields && HasKey(fields, f.key);
      GetAt(fields, i);
      DataStoredGet(m, fields, f.key);
      ReadFieldsGet(st, DataStored(m, fields), fuel, f.key);
      DataWritesInclude(m, fields, i);
      CoverStored(m.types, st, RootResource(m, f.key, f.val), f.val, fuel);
    }
  }

  lemma StoredDataIsCovered(m: Manifest, st: Store, data: Value, fuel: nat)
    requires NoRefs(data) && WellFormed(data) && DataOk(m, RootFields(data))
    requires Extended(st, DataWrites(m, RootFields(data))) && Read(st, StoredData(m, data), fuel).Some?
    ensures Covers(data, Read(st, StoredData(m, data), fuel).value)
  {
    if data.Obj? {
      DataIsPlain(m, data.fields);
      DataIsCovered(m, st, data.fields, fuel);
    } else {
      ReadPlain(st, data, fuel);
      CoversItself(data);
    }
  }

  /** An object of which one property was stored elsewhere is covered when that property is. */
  lemma ResultIsCovered(st: Store, result: seq<Field>, name: string, stored: Value, fuel: nat)
    requires ResultOk(result) && name != "__dbRef" && Read(st, Obj(Put(result, name, stored)), fuel).Some?
    requires Read(st, stored, fuel).Some? ==> Covers(Get(result, name), Read(st, stored, fuel).value)
    ensures Covers(Obj(result), Read(st, Obj(Put(result, name, stored)), fuel).value)
  {
    var full := Put(result, name, stored);
    GetPut(result, name, stored, "__dbRef");
    var out := ReadFields(st, full, fuel).value;
    forall i | 0 <= i < |result| ensures HasKey(out, result[i].key) && Covers(result[i].val, Get(out, result[i].key)) {
      var f := result[i];
      assert f in result && HasKey(result, f.key);
      GetAt(result, i);
      GetPut(result, name, stored, f.key);
      ReadFieldsGet(st, full, fuel, f.key);
      if f.key != name {
        ReadPlain(st, f.val, fuel);
        CoversItself(f.val);
      }
    }
  }

  /** Over a store that holds some of the entities, every read of the stored result that ends says at least
      what the result said. */
  lemma GraphqlIsCovered(policy: WritePolicy, c: Cache, key: string, result: seq<Field>, fuel: nat)
    requires NoErrors(result) && ResultOk(result)
    requires DataOk(c.manifest, RootFields(Get(result, "data")))
    requires Mergeable(c.entities, DataWrites(c.manifest, RootFields(Get(result, "data"))))
    requires ReadQuery(Step(policy, c, StoreGraphql(key, result)), key, fuel).Some?
    ensures Covers(Obj(result), ReadQuery(Step(policy, c, StoreGraphql(key, result)), key, fuel).value)
  {
    var m, data := c.manifest, Get(result, "data");
    var ws := DataWrites(m, RootFields(data));
    var after := ApplyWrites(c.entities, ws);
    GetOk(result, "data");
    DataDistinct(m, RootFields(data));
    WritesExtend(c.entities, ws, {});
    if Read(after, StoredData(m, data), fuel).Some? { StoredDataIsCovered(m, after, data, fuel); }
    ResultIsCovered(after, result, "data", StoredData(m, data), fuel);
  }

  lemma RestIsCovered(policy: WritePolicy, c: Cache, key: string, target: Option<Resource>, status: int,
                      result: seq<Field>, fuel: nat)
    requires Succeeded(status) && ResultOk(result) && DocumentOk(target, Get(result, "body"))
    requires Mergeable(c.entities, AllWrites(c.manifest.types, target, Get(result, "body")))
    requires ReadQuery(Step(policy, c, StoreRest(key, target, status, result)), key, fuel).Some?
    ensures Covers(Obj(result), ReadQuery(Step(policy, c, StoreRest(key, target, status, result)), key, fuel).value)
  {
    var types, body := c.manifest.types, Get(result, "body");
    var ws := AllWrites(types, target, body);
    var after := ApplyWrites(c.entities, ws);
    GetOk(result, "body");
    AllDistinct(types, target, body);
    WritesExtend(c.entities, ws, {});
    if Read(after, Stored(types, target, body), fuel).Some? { CoverStored(types, after, target, body, fuel); }
    ResultIsCovered(after, result, "body", Stored(types, target, body), fuel);
  }

  /** A recorded write, of whatever shape its answer is, merges what the answer says: what is read of it
      covers it.  Under the policy that only invalidates the entities stay as they are. */
  lemma RestWriteIsCovered(policy: WritePolicy, c: Cache, verb: string, t: Target, status: int, body: Value, fuel: nat)
    requires UpperCase(verb) != "GET" && verb != "DELETE" && 200 <= status < 300
    requires NoRefs(body) && WellFormed(body) && DocumentOk(Some(t.resource), body)
    requires Mergeable(c.entities, AllWrites(c.manifest.types, Some(t.resource), body))
    ensures var after := Step(policy, c, RestWrite(verb, Some(t), status, body)).entities;
            var stored := Stored(c.manifest.types, Some(t.resource), body);
            if policy.InvalidateOnly? then after == c.entities
            else Read(after, stored, fuel).Some? ==> Covers(body, Read(after, stored, fuel).value)
  {
    var types := c.manifest.types;
    var after := Step(policy, c, RestWrite(verb, Some(t), status, body)).entities;
    AllDistinct(types, Some(t.resource), body);
    WritesExtend(c.entities, AllWrites(types, Some(t.resource), body), {});
    if !policy.InvalidateOnly? && Read(after, Stored(types, Some(t.resource), body), fuel).Some? {
      CoverStored(types, after, Some(t.resource), body, fuel);
    }
  }

  lemma GraphqlWriteIsCovered(policy: WritePolicy, c: Cache, result: seq<Field>, fuel: nat)
    requires NoErrors(result) && ResultOk(result)
    requires DataOk(c.manifest, RootFields(Get(result, "data")))
    requires Mergeable(c.entities, DataWrites(c.manifest, RootFields(Get(result, "data"))))
    ensures var after := Step(policy, c, GraphqlWrite(result)).entities;
            var data := Get(result, "data");
            var stored := StoredData(c.manifest, data);
            if policy.InvalidateOnly? then after == c.entities
            else Read(after, stored, fuel).Some? ==> Covers(data, Read(after, stored, fuel).value)
  {
    var m, data := c.manifest, Get(result, "data");
    var after := Step(policy, c, GraphqlWrite(result)).entities;
    GetOk(result, "data");
    DataDistinct(m, RootFields(data));
    WritesExtend(c.entities, DataWrites(m, RootFields(data)), {});
    if !policy.InvalidateOnly? && Read(after, StoredData(m, data), fuel).Some? {
      StoredDataIsCovered(m, after, data, fuel);
    }
  }

  /** A result with errors, or of a request that failed, is not stored. */
  lemma FailuresAreNotStored(policy: WritePolicy, c: Cache, key: string, target: Option<Resource>, status: int,
                             result: seq<Field>)
    ensures Get(result, "errors").Arr? && Get(result, "errors").items != [] ==>
              Step(policy, c, StoreGraphql(key, result)) == c
    ensures status < 200 || status >= 300 ==> Step(policy, c, StoreRest(key, target, status, result)) == c
  {
  }

  // ---------------------------------------------------------------- which entity an object is

  /** A record of a collection is the entity of its id, which is a text or a number; without an id it is
      stored in place. */
  lemma KeyedById(types: Types, r: Resource, fields: seq<Field>)
    ensures var id, key := Get(fields, r.idField), RecordKey(r, NormalizedFields(types, fields));
            && (id.Str? && id.s != "" ==> key == Some(Key(r.name, id.s)))
            && (id.Num? ==> key == Some(Key(r.name, id.text)))
            && (id.Bool? ==> key == Some(Key(r.name, if id.b then "true" else "false")))
            && (id == Undefined || id == Null || id == Str("") ==> key == None)
  {
    NormalizedGet(types, fields, r.idField);
  }

  /** An object met anywhere is of the resource that its type name names: a document is one entity, a record
      that of its id; and without a type name, or one that is not known, it is no entity. */
  lemma KeyedByType(types: Types, fields: seq<Field>)
    ensures var name, key := Get(fields, "__typename"), TypedKey(types, fields);
            if !name.Str? || name.s == "" || name.s !in types then key == None
            else if types[name.s].kind.Document? then key == Some(Key(types[name.s].name, "__document"))
            else key == RecordKey(types[name.s], NormalizedFields(types, fields))
  {
  }

  /** A root field of GraphQL data is about the resource of its own name, or the collection it is the singular
      of, or else of the type its object, or the first object of its list, names. */
  lemma RootsByName(m: Manifest, key: string, v: Value)
    ensures key in m.names ==> RootResource(m, key, v) == Some(m.names[key])
    ensures key !in m.names && key in m.singular ==> RootResource(m, key, v) == Some(m.singular[key])
    ensures key !in m.names && key !in m.singular && v.Obj? ==>
              RootResource(m, key, v) == TypedResource(m.types, v.fields)
    ensures key !in m.names && key !in m.singular && !v.Obj? && !v.Arr? ==> RootResource(m, key, v) == None
  {
  }

  lemma ListRootsByName(m: Manifest, key: string, items: seq<Value>, i: nat)
    requires key !in m.names && key !in m.singular
    requires i <= |items| && forall j | 0 <= j < i :: !items[j].Obj?
    ensures i == |items| ==> RootResource(m, key, Arr(items)) == None
    ensures i < |items| && items[i].Obj? ==>
              RootResource(m, key, Arr(items)) == TypedResource(m.types, items[i].fields)
  {
    FirstObjectIs(items, i);
  }

  lemma {:induction false} FirstObjectIs(items: seq<Value>, i: nat)
    requires i <= |items| && forall j | 0 <= j < i :: !items[j].Obj?
    ensures i == |items| ==> FirstObject(items) == Undefined
    ensures i < |items| && items[i].Obj? ==> FirstObject(items) == items[i]
  {
    if i > 0 { FirstObjectIs(items[1..], i - 1); }
  }

  /** A reference to an entity that is not stored, or whose record is falsy, reads as null, and so does an
      object that only looks like a reference. */
  lemma LostReferencesAreNull(st: Store, key: Key, fields: seq<Field>, fuel: nat)
    ensures key !in st || !Truthy(st[key]) ==> Read(st, EntityRef(key), fuel) == Some(Null)
    ensures Truthy(Get(fields, "__dbRef"))
            && !(Get(fields, "__dbRef").Obj? && Get(Get(fields, "__dbRef").fields, "resource").Str?) ==>
              Read(st, Obj(fields), fuel) == Some(Null)
  {
    EntityRefRefers(key);
  }
}
