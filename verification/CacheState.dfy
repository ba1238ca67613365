/** The cache object itself: the methods that normalise responses and change the maps in place,
    each tied to the step of module `ClientCache` it performs. */
module CacheState {
  import opened JsText
  import opened Options
  import opened Sequences
  import opened Json
  import opened EntityStore
  import opened ClientCache

  /** The sets a response is collected into while it is normalised. */
  class QueryMeta {
    var resources: set<string>
    var lists: set<string>

    constructor ()
      ensures resources == {} && lists == {}
    {
      resources, lists := {}, {};
    }
  }

  class State {
    const policy: WritePolicy
    var manifest: Manifest
    var queries: map<string, Entry>
    var entities: Store

    constructor (policy: WritePolicy)
      ensures this.policy == policy && Contents() == EMPTY
    {
      this.policy := policy;
      manifest, queries, entities := NO_MANIFEST, map[], map[];
    }

    function Contents(): Cache
      reads this
    {
      Cache(manifest, queries, entities)
    }

    // -------------------------------------------------------------- entities

    method SetEntityValue(key: Key, value: Value)
      modifies this`entities
      ensures entities == SetEntity(old(entities), key, value)
    {
      var existing := if key in entities then Some(entities[key]) else None;
      entities := entities[key := MergeEntity(existing, value)];
    }

    method NormalizeAnyValue(v: Value, meta: QueryMeta) returns (n: Value)
      modifies this`entities, meta
      ensures n == Normalized(manifest.types, v)
      ensures entities == ApplyWrites(old(entities), Writes(manifest.types, v))
      ensures meta.resources == old(meta.resources) + Mentioned(manifest.types, v) && meta.lists == old(meta.lists)
      decreases v, 3
    {
      match v {
        case Arr(items) =>
          var out := NormalizeItems(items, meta);
          n := Arr(out);
        case Obj(fields) =>
          var resource := TypedResource(manifest.types, fields);
          if resource.Some? && resource.value.kind.Collection? && Get(fields, resource.value.idField) != Undefined {
            meta.resources := meta.resources + {resource.value.name};
            n := NormalizeRecordValue(resource.value, v, meta);
            assert RecordWrites(manifest.types, resource.value, v) == Writes(manifest.types, v);
          } else if resource.Some? && resource.value.kind.Document? {
            meta.resources := meta.resources + {resource.value.name};
            n := NormalizeDocumentValue(resource.value, fields, meta);
          } else {
            var normalized := NormalizeObjectFields(fields, meta);
            if resource.Some? { NormalizedGet(manifest.types, fields, resource.value.idField); }
            assert TypedKey(manifest.types, fields) == None;
            n := Obj(normalized);
          }
        case _ => n := v;
      }
    }

    /** The branch for an object typed as a document. */
    method NormalizeDocumentValue(resource: Resource, fields: seq<Field>, meta: QueryMeta) returns (n: Value)
      modifies this`entities, meta
      ensures n == EntityRef(Key(resource.name, DOCUMENT_ID))
      ensures entities == ApplyWrites(old(entities), FieldWrites(manifest.types, fields)
                + [Write(Key(resource.name, DOCUMENT_ID), Obj(NormalizedFields(manifest.types, fields)))])
      ensures meta.resources == old(meta.resources) + MentionedFields(manifest.types, fields)
          && meta.lists == old(meta.lists)
      decreases fields, 2
    {
      var key := Key(resource.name, DOCUMENT_ID);
      var normalized := NormalizeObjectFields(fields, meta);
      ApplySnoc(old(entities), FieldWrites(manifest.types, fields), Write(key, Obj(normalized)));
      SetEntityValue(key, Obj(normalized));
      n := EntityRef(key);
    }

    /** `value.map(…)` over an array. */
    method NormalizeItems(items: seq<Value>, meta: QueryMeta) returns (out: seq<Value>)
      modifies this`entities, meta
      ensures out == NormalizedItems(manifest.types, items)
      ensures entities == ApplyWrites(old(entities), ItemWrites(manifest.types, items))
      ensures meta.resources == old(meta.resources) + MentionedItems(manifest.types, items)
          && meta.lists == old(meta.lists)
      decreases items, 1
    {
      out := [];
      for i := 0 to |items|
        invariant out == NormalizedItems(manifest.types, items[..i])
        invariant entities == ApplyWrites(old(entities), ItemWrites(manifest.types, items[..i]))
        invariant meta.resources == old(meta.resources) + MentionedItems(manifest.types, items[..i])
        invariant meta.lists == old(meta.lists)
      {
        assert items[..i + 1] == items[..i] + [items[i]];
        ItemsSnoc(manifest.types, items[..i], items[i]);
        ApplyConcat(old(entities), ItemWrites(manifest.types, items[..i]), Writes(manifest.types, items[i]));
        var x := NormalizeAnyValue(items[i], meta);
        out := out + [x];
      }
      assert items[..|items|] == items;
    }

    method NormalizeObjectFields(fields: seq<Field>, meta: QueryMeta) returns (normalized: seq<Field>)
      modifies this`entities, meta
      ensures normalized == NormalizedFields(manifest.types, fields)
      ensures entities == ApplyWrites(old(entities), FieldWrites(manifest.types, fields))
      ensures meta.resources == old(meta.resources) + MentionedFields(manifest.types, fields)
          && meta.lists == old(meta.lists)
      decreases fields, 1
    {
      normalized := [];
      for i := 0 to |fields|
        invariant normalized == NormalizedFields(manifest.types, fields[..i])
        invariant entities == ApplyWrites(old(entities), FieldWrites(manifest.types, fields[..i]))
        invariant meta.resources == old(meta.resources) + MentionedFields(manifest.types, fields[..i])
        invariant meta.lists == old(meta.lists)
      {
        assert fields[..i + 1] == fields[..i] + [fields[i]];
        FieldsSnoc(manifest.types, fields[..i], fields[i]);
        ApplyConcat(old(entities), FieldWrites(manifest.types, fields[..i]), Writes(manifest.types, fields[i].val));
        var x := NormalizeAnyValue(fields[i].val, meta);
        normalized := normalized + [Field(fields[i].key, x)];
      }
      assert fields[..|fields|] == fields;
    }

    method NormalizeRecordValue(resource: Resource, v: Value, meta: QueryMeta) returns (n: Value)
      modifies this`entities, meta
      ensures n == NormalizedRecord(manifest.types, resource, v)
      ensures entities == ApplyWrites(old(entities), RecordWrites(manifest.types, resource, v))
      ensures meta.resources == old(meta.resources) + MentionedRecord(manifest.types, v)
          && meta.lists == old(meta.lists)
      decreases v, 2
    {
      if !v.Obj? {
        return v;
      }
      var normalized := NormalizeObjectFields(v.fields, meta);
      var id := Get(normalized, resource.idField);
      if id == Undefined || id == Null || id == Str("") {
        assert RecordWrites(manifest.types, resource, v) == FieldWrites(manifest.types, v.fields);
        return Obj(normalized);
      }
      var key := Key(resource.name, JsString(id));
      ApplySnoc(old(entities), FieldWrites(manifest.types, v.fields), Write(key, Obj(normalized)));
      SetEntityValue(key, Obj(normalized));
      n := EntityRef(key);
    }

    /** `value.map(…)` over an array of records. */
    method NormalizeRecords(resource: Resource, items: seq<Value>, meta: QueryMeta) returns (out: seq<Value>)
      modifies this`entities, meta
      ensures out == NormalizedRecords(manifest.types, resource, items)
      ensures entities == ApplyWrites(old(entities), RecordsWrites(manifest.types, resource, items))
      ensures meta.resources == old(meta.resources) + MentionedRecords(manifest.types, items)
          && meta.lists == old(meta.lists)
    {
      out := [];
      for i := 0 to |items|
        invariant out == NormalizedRecords(manifest.types, resource, items[..i])
        invariant entities == ApplyWrites(old(entities), RecordsWrites(manifest.types, resource, items[..i]))
        invariant meta.resources == old(meta.resources) + MentionedRecords(manifest.types, items[..i])
        invariant meta.lists == old(meta.lists)
      {
        assert items[..i + 1] == items[..i] + [items[i]];
        RecordsSnoc(manifest.types, resource, items[..i], items[i]);
        RecordsWritesSnoc(manifest.types, resource, items[..i], items[i]);
        ApplyConcat(old(entities), RecordsWrites(manifest.types, resource, items[..i]),
                    RecordWrites(manifest.types, resource, items[i]));
        var x := NormalizeRecordValue(resource, items[i], meta);
        out := out + [x];
      }
      assert items[..|items|] == items;
    }

    method NormalizeResourceValue(resource: Resource, v: Value, meta: QueryMeta) returns (n: Value)
      modifies this`entities, meta
      ensures n == NormalizedResource(manifest.types, resource, v)
      ensures entities == ApplyWrites(old(entities), ResourceWrites(manifest.types, resource, v))
      ensures meta.resources == old(meta.resources) + ResourceMeta(manifest.types, resource, v).resources
      ensures meta.lists == old(meta.lists) + ResourceMeta(manifest.types, resource, v).lists
    {
      meta.resources := meta.resources + {resource.name};
      if resource.kind.Document? {
        var normalized := NormalizeAnyValue(v, meta);
        var key := Key(resource.name, DOCUMENT_ID);
        ApplySnoc(old(entities), Writes(manifest.types, v), Write(key, normalized));
        SetEntityValue(key, normalized);
        return EntityRef(key);
      }
      if v.Arr? {
        meta.lists := meta.lists + {resource.name};
        var out := NormalizeRecords(resource, v.items, meta);
        return Arr(out);
      }
      n := NormalizeRecordValue(resource, v, meta);
    }

    /** `target ? normalizeResourceValue(…) : normalizeAnyValue(…)`. */
    method NormalizeBody(resource: Option<Resource>, v: Value, meta: QueryMeta) returns (n: Value)
      modifies this`entities, meta
      ensures n == Stored(manifest.types, resource, v)
      ensures entities == ApplyWrites(old(entities), AllWrites(manifest.types, resource, v))
      ensures meta.resources == old(meta.resources) + BodyMeta(manifest.types, resource, v).resources
      ensures meta.lists == old(meta.lists) + BodyMeta(manifest.types, resource, v).lists
    {
      match resource
      case Some(r) => n := NormalizeResourceValue(r, v, meta);
      case None => n := NormalizeAnyValue(v, meta);
    }

    method NormalizeGraphqlData(data: Value, meta: QueryMeta) returns (n: Value)
      modifies this`entities, meta
      ensures n == StoredData(manifest, data)
      ensures entities == ApplyWrites(old(entities), DataWrites(manifest, RootFields(data)))
      ensures meta.resources == old(meta.resources) + DataMeta(manifest, RootFields(data)).resources
      ensures meta.lists == old(meta.lists) + DataMeta(manifest, RootFields(data)).lists
    {
      if !data.Obj? {
        return data;
      }
      var fields := data.fields;
      var normalized := [];
      for i := 0 to |fields|
        invariant normalized == DataStored(manifest, fields[..i])
        invariant entities == ApplyWrites(old(entities), DataWrites(manifest, fields[..i]))
        invariant meta.resources == old(meta.resources) + DataMeta(manifest, fields[..i]).resources
        invariant meta.lists == old(meta.lists) + DataMeta(manifest, fields[..i]).lists
      {
        assert fields[..i + 1] == fields[..i] + [fields[i]];
        var resource := RootResource(manifest, fields[i].key, fields[i].val);
        DataSnoc(manifest, fields[..i], fields[i]);
        ApplyConcat(old(entities), DataWrites(manifest, fields[..i]),
            AllWrites(manifest.types, resource, fields[i].val));
        var x := NormalizeBody(resource, fields[i].val, meta);
        normalized := normalized + [Field(fields[i].key, x)];
      }
      assert fields[..|fields|] == fields;
      n := Obj(normalized);
    }

    // -------------------------------------------------------------- entries

    method InvalidateQueries(name: Option<string>, what: Staleness)
      modifies this`queries
      ensures queries == Invalidate(old(queries), name, what)
    {
      var keys := queries.Keys;
      while keys != {}
        invariant keys <= queries.Keys == old(queries).Keys
        invariant forall key | key in keys :: queries[key] == old(queries)[key]
        invariant forall key | key in queries.Keys - keys :: queries[key] == Invalidate(old(queries), name, what)[key]
        decreases |keys|
      {
        var key :| key in keys;
        keys := keys - {key};
        var entry := queries[key];
        var everything := name.None? || name.value == "";
        if everything || name.value in entry.resources {
          if everything || what.Records? || name.value in entry.lists {
            queries := queries[key := entry.(stale := true)];
          }
        }
      }
    }

    method InvalidateMetaResources(names: set<string>, what: Staleness)
      modifies this`queries
      ensures queries == InvalidateAll(old(queries), names, what)
    {
      if names == {} {
        InvalidateQueries(None, what);
        return;
      }
      var left := names;
      while left != {}
        invariant left <= names && queries.Keys == old(queries).Keys
        invariant forall key | key in queries :: queries[key] ==
                    var e := old(queries)[key];
                    if exists name | name in names - left :: MadeStale(e, Some(name), what) then e.(stale := true)
                        else e
        decreases |left|
      {
        var name :| name in left;
        left := left - {name};
        InvalidateQueries(Some(name), what);
      }
    }

    method WriteQueryEntry(key: string, value: Value, meta: QueryMeta)
      modifies this`queries
      ensures queries == old(queries)[key := Entry(value, false, meta.resources, meta.lists)]
    {
      queries := queries[key := Entry(value, false, meta.resources, meta.lists)];
    }

    // -------------------------------------------------------------- the operations

    /** `writeNetworkResult` of a REST read. */
    method StoreRestResult(key: string, target: Option<Resource>, status: int, result: seq<Field>)
      modifies this
      ensures Contents() == Step(policy, old(Contents()), StoreRest(key, target, status, result))
    {
      if !(200 <= status < 300) {
        return;
      }
      var meta := new QueryMeta();
      var body := NormalizeBody(target, Get(result, "body"), meta);
      assert meta.resources == BodyMeta(manifest.types, target, Get(result, "body")).resources;
      assert meta.lists == BodyMeta(manifest.types, target, Get(result, "body")).lists;
      WriteQueryEntry(key, Obj(Put(result, "body", body)), meta);
    }

    method StoreGraphqlResult(key: string, result: seq<Field>)
      modifies this
      ensures Contents() == Step(policy, old(Contents()), StoreGraphql(key, result))
    {
      if !NoErrors(result) {
        return;
      }
      var meta := new QueryMeta();
      var data := NormalizeGraphqlData(Get(result, "data"), meta);
      assert meta.resources == DataMeta(manifest, RootFields(Get(result, "data"))).resources;
      assert meta.lists == DataMeta(manifest, RootFields(Get(result, "data"))).lists;
      WriteQueryEntry(key, Obj(Put(result, "data", data)), meta);
    }

    method RecordRestWrite(verb: string, route: Option<Target>, status: int, body: Value)
      modifies this
      ensures Contents() == Step(policy, old(Contents()), RestWrite(verb, route, status, body))
    {
      if UpperCase(verb) == "GET" || !(200 <= status < 300) {
        return;
      }
      if route.None? {
        InvalidateQueries(None, Records);
        return;
      }
      var resource := route.value.resource;
      if policy.InvalidateOnly? {
        InvalidateQueries(Some(resource.name), Records);
        return;
      }
      if verb == "DELETE" {
        if route.value.id.Some? {
          entities := entities - {Key(resource.name, route.value.id.value)};
        }
        InvalidateQueries(Some(resource.name), Records);
        return;
      }
      var meta := new QueryMeta();
      var _ := NormalizeResourceValue(resource, body, meta);
      InvalidateQueries(Some(resource.name), if policy.Refetch? then Records else Lists);
    }

    method RecordGraphqlWrite(result: seq<Field>)
      modifies this
      ensures Contents() == Step(policy, old(Contents()), GraphqlWrite(result))
    {
      if !NoErrors(result) {
        return;
      }
      if policy.InvalidateOnly? {
        InvalidateMetaResources(Collected(manifest.types, Get(result, "data")), Records);
        return;
      }
      ghost var before := Contents();
      var meta := new QueryMeta();
      var _ := NormalizeGraphqlData(Get(result, "data"), meta);
      assert Contents() == before.(entities := ApplyWrites(before.entities,
                                                           DataWrites(manifest, RootFields(Get(result, "data")))));
      assert meta.resources == DataMeta(manifest, RootFields(Get(result, "data"))).resources;
      InvalidateMetaResources(meta.resources, if policy.Refetch? then Records else Lists);
    }

    method OnResourceEvent(name: string)
      modifies this
      ensures Contents() == Step(policy, old(Contents()), ResourceEvent(name))
    {
      if name != "" {
        InvalidateQueries(Some(name), Records);
      }
    }

    method OnSourceChanged()
      modifies this
      ensures Contents() == Step(policy, old(Contents()), SourceChanged)
    {
      manifest := NO_MANIFEST;
      InvalidateQueries(None, Records);
    }
  }

  // ---------------------------------------------------------------- one more element

  lemma {:induction false} ApplyConcat(st: Store, a: seq<Write>, b: seq<Write>)
    ensures ApplyWrites(st, a + b) == ApplyWrites(ApplyWrites(st, a), b)
    decreases a
  {
    if a == [] {
      assert a + b == b;
    } else {
      assert (a + b)[1..] == a[1..] + b;
      ApplyConcat(SetEntity(st, a[0].key, a[0].value), a[1..], b);
    }
  }

  lemma {:induction false} ItemsSnoc(types: Types, items: seq<Value>, x: Value)
    ensures NormalizedItems(types, items + [x]) == NormalizedItems(types, items) + [Normalized(types, x)]
    ensures ItemWrites(types, items + [x]) == ItemWrites(types, items) + Writes(types, x)
    ensures MentionedItems(types, items + [x]) == MentionedItems(types, items) + Mentioned(types, x)
  {
    if items == [] {
      assert [x][1..] == [] && items + [x] == [x];
    } else {
      assert (items + [x])[1..] == items[1..] + [x];
      ItemsSnoc(types, items[1..], x);
      Regroup([Normalized(types, items[0])], NormalizedItems(types, items[1..]), [Normalized(types, x)]);
      Regroup(Writes(types, items[0]), ItemWrites(types, items[1..]), Writes(types, x));
    }
  }

  lemma {:induction false} FieldsSnoc(types: Types, fields: seq<Field>, f: Field)
    ensures NormalizedFields(types, fields + [f])
        == NormalizedFields(types, fields) + [Field(f.key, Normalized(types, f.val))]
    ensures FieldWrites(types, fields + [f]) == FieldWrites(types, fields) + Writes(types, f.val)
    ensures MentionedFields(types, fields + [f]) == MentionedFields(types, fields) + Mentioned(types, f.val)
  {
    if fields == [] {
      assert [f][1..] == [] && fields + [f] == [f];
    } else {
      assert (fields + [f])[1..] == fields[1..] + [f];
      FieldsSnoc(types, fields[1..], f);
    }
  }

  lemma {:induction false} RecordsSnoc(types: Types, resource: Resource, items: seq<Value>, x: Value)
    ensures NormalizedRecords(types, resource, items + [x])
         == NormalizedRecords(types, resource, items) + [NormalizedRecord(types, resource, x)]
    ensures MentionedRecords(types, items + [x]) == MentionedRecords(types, items) + MentionedRecord(types, x)
  {
    if items == [] {
      assert [x][1..] == [] && items + [x] == [x];
    } else {
      assert (items + [x])[1..] == items[1..] + [x];
      RecordsSnoc(types, resource, items[1..], x);
    }
  }

  lemma {:induction false} RecordsWritesSnoc(types: Types, resource: Resource, items: seq<Value>, x: Value)
    ensures RecordsWrites(types, resource, items + [x])
        == RecordsWrites(types, resource, items) + RecordWrites(types, resource, x)
  {
    if items == [] {
      assert [x][1..] == [] && items + [x] == [x];
    } else {
      assert (items + [x])[1..] == items[1..] + [x];
      RecordsWritesSnoc(types, resource, items[1..], x);
      Regroup(RecordWrites(types, resource, items[0]), RecordsWrites(types, resource, items[1..]),
          RecordWrites(types, resource, x));
    }
  }

  lemma DataSnoc(m: Manifest, fields: seq<Field>, f: Field)
    ensures var r := RootResource(m, f.key, f.val);
            && DataStored(m, fields + [f]) == DataStored(m, fields) + [Field(f.key, Stored(m.types, r, f.val))]
            && DataWrites(m, fields + [f]) == DataWrites(m, fields) + AllWrites(m.types, r, f.val)
            && DataMeta(m, fields + [f]) == ClientCache.Join(DataMeta(m, fields), BodyMeta(m.types, r, f.val))
  {
    DataStoredSnoc(m, fields, f);
    DataWritesSnoc(m, fields, f);
    DataMetaSnoc(m, fields, f);
  }

  lemma {:induction false} DataStoredSnoc(m: Manifest, fields: seq<Field>, f: Field)
    ensures DataStored(m, fields + [f])
         == DataStored(m, fields) + [Field(f.key, Stored(m.types, RootResource(m, f.key, f.val), f.val))]
  {
    if fields == [] {
      assert [f][1..] == [] && fields + [f] == [f];
    } else {
      assert (fields + [f])[1..] == fields[1..] + [f];
      DataStoredSnoc(m, fields[1..], f);
    }
  }

  lemma {:induction false} DataWritesSnoc(m: Manifest, fields: seq<Field>, f: Field)
    ensures DataWrites(m, fields + [f])
         == DataWrites(m, fields) + AllWrites(m.types, RootResource(m, f.key, f.val), f.val)
  {
    if fields == [] {
      assert [f][1..] == [] && fields + [f] == [f];
    } else {
      assert (fields + [f])[1..] == fields[1..] + [f];
      DataWritesSnoc(m, fields[1..], f);
      Regroup(AllWrites(m.types, RootResource(m, fields[0].key, fields[0].val), fields[0].val),
          DataWrites(m, fields[1..]),
              AllWrites(m.types, RootResource(m, f.key, f.val), f.val));
    }
  }

  lemma {:induction false} DataMetaSnoc(m: Manifest, fields: seq<Field>, f: Field)
    ensures DataMeta(m, fields + [f])
         == ClientCache.Join(DataMeta(m, fields), BodyMeta(m.types, RootResource(m, f.key, f.val), f.val))
  {
    if fields == [] {
      assert [f][1..] == [] && fields + [f] == [f];
    } else {
      assert (fields + [f])[1..] == fields[1..] + [f];
      DataMetaSnoc(m, fields[1..], f);
    }
  }
}
