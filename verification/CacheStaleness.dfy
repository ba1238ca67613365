/** Which entries a write or an event makes stale, and which it leaves fresh. */
module CacheStaleness {
  import opened JsText
  import opened Options
  import opened Json
  import opened EntityStore
  import opened ClientCache

  /** The operation strikes every entry, also one that is about no resource. */
  predicate StrikesAll(policy: WritePolicy, c: Cache, op: Op) {
    match op
    case RestWrite(verb, route, status, _) =>
      UpperCase(verb) != "GET" && 200 <= status < 300 && (route.None? || route.value.resource.name == "")
    case GraphqlWrite(result) =>
      NoErrors(result)
      && (var names := if policy.InvalidateOnly? then Collected(c.manifest.types, Get(result, "data"))
                       else DataMeta(c.manifest, RootFields(Get(result, "data"))).resources;
          names == {} || "" in names)
    case SourceChanged => true
    case InvalidateCall(which) => which in {None, Some("")}
    case _ => false
  }

  /** An operation that does not store an entry and does not clear the cache leaves it in place, with its
      value and what it is about; and a fresh entry becomes stale if and only if the operation strikes all
      entries, or strikes a resource the entry is about, or writes on one that it lists. */
  lemma StaleExactly(policy: WritePolicy, c: Cache, op: Op, key: string)
    requires key in c.queries && !Stores(op, key) && !op.Clear?
    ensures var e := c.queries[key];
            var after := Step(policy, c, op).queries;
            && key in after && after[key] == e.(stale := after[key].stale)
            && (after[key].stale <==>
                  || e.stale
                  || StrikesAll(policy, c, op)
                  || (exists r :: r in e.resources && StrikesOn(policy, c, op, r))
                  || (exists r :: r in e.resources && r in e.lists && WritesOn(policy, c, op, r)))
  {
    var e := c.queries[key];
    match op
    case RestWrite(verb, route, status, body) =>
      if route.Some? {
        var name := route.value.resource.name;
        assert StrikesOn(policy, c, op, name)
          <==> WritesOn(policy, c, op, name) && (verb == "DELETE" || !policy.MergeAndInvalidate?);
      }
    case GraphqlWrite(result) => if NoErrors(result) { GraphqlStale(policy, c, result, key); }
    case ResourceEvent(name) => assert StrikesOn(policy, c, op, name) <==> name != "";
    case InvalidateCall(which) =>
      if which.Some? { assert StrikesOn(policy, c, op, which.value); }
    case _ =>
  }

  lemma GraphqlStale(policy: WritePolicy, c: Cache, result: seq<Field>, key: string)
    requires key in c.queries && NoErrors(result)
    ensures var e := c.queries[key];
            var op := GraphqlWrite(result);
            var after := Step(policy, c, op).queries;
            && key in after && after[key] == e.(stale := after[key].stale)
            && (after[key].stale <==>
                  || e.stale
                  || StrikesAll(policy, c, op)
                  || (exists r :: r in e.resources && StrikesOn(policy, c, op, r))
                  || (exists r :: r in e.resources && r in e.lists && WritesOn(policy, c, op, r)))
  {
    var e := c.queries[key];
    var op := GraphqlWrite(result);
    var names := if policy.InvalidateOnly? then Collected(c.manifest.types, Get(result, "data"))
                 else DataMeta(c.manifest, RootFields(Get(result, "data"))).resources;
    var what := if policy.MergeAndInvalidate? then Lists else Records;
    if MadeStaleByAny(e, names, what) && names != {} {
      var name :| name in names && MadeStale(e, Some(name), what);
      assert name == "" || (name in e.resources && WritesOn(policy, c, op, name));
    }
    if "" in names { assert MadeStale(e, Some(""), what); }
    forall r | r in e.resources && r in names ensures MadeStaleByAny(e, names, Records) {
      assert MadeStale(e, Some(r), Records);
    }
    forall r | r in e.resources && r in e.lists && r in names ensures MadeStaleByAny(e, names, what) {
      assert MadeStale(e, Some(r), what);
    }
  }

  // ---------------------------------------------------------------- what an entry is about

  predicate Mentions(ws: seq<Write>, names: set<string>) {
    forall w | w in ws :: w.key.resource in names
  }

  /** An object that is stored as an entity mentions the entity's resource. */
  lemma OwnIsMentioned(types: Types, fields: seq<Field>)
    ensures TypedKey(types, fields).Some? ==> TypedKey(types, fields).value.resource in OwnMention(types, fields)
  {
    var r := TypedResource(types, fields);
    if r.Some? { NormalizedGet(types, fields, r.value.idField); }
  }

  lemma {:induction false} WritesAreMentioned(types: Types, v: Value)
    ensures Mentions(Writes(types, v), Mentioned(types, v))
  {
    match v
    case Arr(items) => ItemsAreMentioned(types, items);
    case Obj(fields) =>
      FieldsAreMentioned(types, fields);
      OwnIsMentioned(types, fields);
    case _ =>
  }

  lemma {:induction false} ItemsAreMentioned(types: Types, items: seq<Value>)
    ensures Mentions(ItemWrites(types, items), MentionedItems(types, items))
  {
    if items != [] {
      WritesAreMentioned(types, items[0]);
      ItemsAreMentioned(types, items[1..]);
    }
  }

  lemma {:induction false} FieldsAreMentioned(types: Types, fields: seq<Field>)
    ensures Mentions(FieldWrites(types, fields), MentionedFields(types, fields))
  {
    if fields != [] {
      WritesAreMentioned(types, fields[0].val);
      FieldsAreMentioned(types, fields[1..]);
    }
  }

  lemma RecordIsMentioned(types: Types, r: Resource, v: Value)
    ensures Mentions(RecordWrites(types, r, v), {r.name} + MentionedRecord(types, v))
  {
    if v.Obj? { FieldsAreMentioned(types, v.fields); }
  }

  lemma {:induction false} RecordsAreMentioned(types: Types, r: Resource, items: seq<Value>)
    ensures Mentions(RecordsWrites(types, r, items), {r.name} + MentionedRecords(types, items))
  {
    if items != [] {
      RecordIsMentioned(types, r, items[0]);
      RecordsAreMentioned(types, r, items[1..]);
    }
  }

  /** An entry is about every resource of which its answer holds an entity; it lists a collection exactly
      when its answer is an array of it. */
  lemma EntitiesAreMentioned(types: Types, resource: Option<Resource>, v: Value)
    ensures Mentions(AllWrites(types, resource, v), BodyMeta(types, resource, v).resources)
    ensures BodyMeta(types, resource, v).lists
         == if resource.Some? && resource.value.kind.Collection? && v.Arr? then {resource.value.name} else {}
    ensures resource.Some? ==> resource.value.name in BodyMeta(types, resource, v).resources
  {
    WritesAreMentioned(types, v);
    if resource.Some? {
      RecordIsMentioned(types, resource.value, v);
      if v.Arr? { RecordsAreMentioned(types, resource.value, v.items); }
    }
  }

  lemma {:induction false} DataIsMentioned(m: Manifest, fields: seq<Field>)
    ensures Mentions(DataWrites(m, fields), DataMeta(m, fields).resources)
  {
    if fields != [] {
      EntitiesAreMentioned(m.types, RootResource(m, fields[0].key, fields[0].val), fields[0].val);
      DataIsMentioned(m, fields[1..]);
    }
  }

  /** And about nothing else than its own resource and those named by a type in the answer. */
  lemma {:induction false} MentionedIsNamed(types: Types, v: Value)
    ensures Mentioned(types, v) <= Collected(types, v)
  {
    match v
    case Arr(items) => MentionedItemsAreNamed(types, items);
    case Obj(fields) => MentionedFieldsAreNamed(types, fields);
    case _ =>
  }

  lemma {:induction false} MentionedItemsAreNamed(types: Types, items: seq<Value>)
    ensures MentionedItems(types, items) <= CollectedItems(types, items)
    ensures MentionedRecords(types, items) <= CollectedItems(types, items)
  {
    if items != [] {
      MentionedIsNamed(types, items[0]);
      MentionedItemsAreNamed(types, items[1..]);
      if items[0].Obj? { MentionedFieldsAreNamed(types, items[0].fields); }
    }
  }

  lemma {:induction false} MentionedFieldsAreNamed(types: Types, fields: seq<Field>)
    ensures MentionedFields(types, fields) <= CollectedFields(types, fields)
  {
    if fields != [] {
      MentionedIsNamed(types, fields[0].val);
      MentionedFieldsAreNamed(types, fields[1..]);
    }
  }

  lemma OnlyNamedIsMentioned(types: Types, resource: Option<Resource>, v: Value)
    ensures BodyMeta(types, resource, v).resources
         <= Collected(types, v) + if resource.Some? then {resource.value.name} else {}
  {
    MentionedIsNamed(types, v);
    if v.Obj? { MentionedFieldsAreNamed(types, v.fields); }
    if v.Arr? { MentionedItemsAreNamed(types, v.items); }
  }

  /** A stored answer is a fresh entry about all its entities, and a list of its resource exactly when it is
      an array of a collection; the other entries stay. */
  lemma StoredEntryIsAbout(policy: WritePolicy, c: Cache, key: string, target: Option<Resource>, status: int,
                           result: seq<Field>, other: string)
    requires Succeeded(status)
    ensures var after := Step(policy, c, StoreRest(key, target, status, result));
            var body := Get(result, "body");
            && key in after.queries && !after.queries[key].stale
            && Mentions(AllWrites(c.manifest.types, target, body), after.queries[key].resources)
            && after.queries[key].lists
               == (if target.Some? && target.value.kind.Collection? && body.Arr? then {target.value.name} else {})
            && (target.Some? ==> target.value.name in after.queries[key].resources)
            && (other != key ==> (other in after.queries <==> other in c.queries)
                                 && (other in c.queries ==> after.queries[other] == c.queries[other]))
  {
    EntitiesAreMentioned(c.manifest.types, target, Get(result, "body"));
  }

  lemma StoredDataIsAbout(policy: WritePolicy, c: Cache, key: string, result: seq<Field>, other: string)
    requires NoErrors(result)
    ensures var after := Step(policy, c, StoreGraphql(key, result));
            && key in after.queries && !after.queries[key].stale
            && Mentions(DataWrites(c.manifest, RootFields(Get(result, "data"))), after.queries[key].resources)
            && (other != key ==> (other in after.queries <==> other in c.queries)
                                 && (other in c.queries ==> after.queries[other] == c.queries[other]))
  {
    DataIsMentioned(c.manifest, RootFields(Get(result, "data")));
  }

  // ---------------------------------------------------------------- what an operation leaves alone

  /** A manifest stays until the source changes, entities change only with answers and writes, and clearing
      leaves nothing. */
  lemma OthersStay(policy: WritePolicy, c: Cache, op: Op)
    ensures var after := Step(policy, c, op);
            && after.manifest == (if op.SourceChanged? then NO_MANIFEST else if op.ManifestLoaded? then op.manifest
                                  else c.manifest)
            && (op.ResourceEvent? || op.SourceChanged? || op.ManifestLoaded? || op.InvalidateCall? ==>
                  after.entities == c.entities)
            && (op.Clear? ==> after.entities == map[] && after.queries == map[])
            && (!Stores(op, "") && !op.StoreRest? && !op.StoreGraphql? && !op.Clear? ==>
                  after.queries.Keys == c.queries.Keys)
  {
  }
}
