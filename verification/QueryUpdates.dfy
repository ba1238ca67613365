/** An update of an entity is seen by every cached query that reaches it, at every place where it does. */
module QueryUpdates {
  import opened Options
  import opened JsText
  import opened Json
  import opened EntityStore
  import opened ClientCache
  import opened EntityHiding

  /** A step from a value to a part of it. */
  datatype Part = Item(index: nat) | Property(name: string)

  /** What stands at `path` of the value `v` as stored, going through references on the way, and how
      many more references may be followed from there. */
  function StoredAt(st: Store, v: Value, path: seq<Part>, fuel: nat): Option<(Value, nat)>
    decreases |path|, fuel
  {
    if path == [] then Some((v, fuel))
    else if v.Arr? && path[0].Item? && path[0].index < |v.items| then
      StoredAt(st, v.items[path[0].index], path[1..], fuel)
    else if v.Obj? && ReferenceOf(v.fields).To? then
      var key := ReferenceOf(v.fields).key;
      if key in st && Truthy(st[key]) && fuel > 0 then StoredAt(st, st[key], path, fuel - 1) else None
    else if v.Obj? && ReferenceOf(v.fields).Plain? && path[0].Property? && HasKey(v.fields, path[0].name) then
      StoredAt(st, Get(v.fields, path[0].name), path[1..], fuel)
    else None
  }

  /** The part of a result at `path`. */
  function PartAt(v: Value, path: seq<Part>): Option<Value>
    decreases |path|
  {
    if path == [] then Some(v)
    else match path[0]
      case Item(i) => if v.Arr? && i < |v.items| then PartAt(v.items[i], path[1..]) else None
      case Property(name) => if v.Obj? && HasKey(v.fields, name) then PartAt(Get(v.fields, name), path[1..]) else None
  }

  /** Reading a value reads each of its parts in its place. */
  lemma {:induction false} PartIsRead(st: Store, v: Value, path: seq<Part>, fuel: nat)
    requires Read(st, v, fuel).Some? && StoredAt(st, v, path, fuel).Some?
    ensures var (u, f) := StoredAt(st, v, path, fuel).value;
            Read(st, u, f).Some? && PartAt(Read(st, v, fuel).value, path) == Some(Read(st, u, f).value)
    decreases |path|, fuel
  {
    if path != [] {
      match v
      case Arr(items) =>
        ReadItemAt(st, items, fuel, path[0].index);
        PartIsRead(st, items[path[0].index], path[1..], fuel);
      case Obj(fields) =>
        match ReferenceOf(fields)
        case To(key) => PartIsRead(st, st[key], path, fuel - 1);
        case Plain =>
          ReadFieldsGet(st, fields, fuel, path[0].name);
          PartIsRead(st, Get(fields, path[0].name), path[1..], fuel);
    }
  }

  /** At `path` the query reaches, through the store, a reference to the entity. */
  predicate Reaches(c: Cache, query: string, path: seq<Part>, fuel: nat, key: Key) {
    && query in c.queries
    && var at := StoredAt(c.entities, c.queries[query].value, path, fuel);
       at.Some? && at.value.0.Obj? && ReferenceOf(at.value.0.fields) == To(key)
  }

  /** What the result of the query says at `path` is what a read of the entity gives. */
  lemma ReferenceIsRead(c: Cache, query: string, path: seq<Part>, fuel: nat, key: Key)
    requires Reaches(c, query, path, fuel, key) && ReadQuery(c, query, fuel).Some?
    ensures var f := StoredAt(c.entities, c.queries[query].value, path, fuel).value.1;
            && Read(c.entities, EntityRef(key), f).Some?
            && PartAt(ReadQuery(c, query, fuel).value, path) == Some(Read(c.entities, EntityRef(key), f).value)
  {
    var (u, f) := StoredAt(c.entities, c.queries[query].value, path, fuel).value;
    PartIsRead(c.entities, c.queries[query].value, path, fuel);
    EntityRefRefers(key);
    assert Read(c.entities, u, f) == Read(c.entities, EntityRef(key), f);
  }

  /** What a query result says of an entity after `fields` are laid over its record, in terms of the
      store `st` before and `after`: the new fields, under them the old ones, which read as before
      unless they lead back to the entity, and nothing else. */
  ghost predicate ShowsUpdate(st: Store, after: Store, key: Key, fields: seq<Field>, out: Value, f: nat) {
    var existing := if key in st && st[key].Obj? then st[key].fields else [];
    f > 0 && out.Obj? && ShowsNames(st, after, key, existing, fields, out.fields, f - 1)
  }

  ghost predicate ShowsNames(st: Store, after: Store, key: Key, existing: seq<Field>, fields: seq<Field>,
                             out: seq<Field>, f: nat) {
    forall name :: ShowsName(st, after, key, existing, fields, out, f, name)
  }

  predicate ShowsName(st: Store, after: Store, key: Key, existing: seq<Field>, fields: seq<Field>, out: seq<Field>,
                      f: nat, name: string) {
    && (HasKey(fields, name) ==> Read(after, Get(fields, name), f) == Some(Get(out, name)))
    && (!HasKey(fields, name) && HasKey(existing, name) ==>
          && Read(after, Get(existing, name), f) == Some(Get(out, name))
          && (key !in Reach(st, Get(existing, name), f) ==> Read(st, Get(existing, name), f) == Some(Get(out, name))))
    && (!HasKey(fields, name) && !HasKey(existing, name) ==> !HasKey(out, name))
  }

  /** After `setEntity`, for every query and every path at which it reaches the entity. */
  lemma QueriesShowUpdate(c: Cache, key: Key, fields: seq<Field>, query: string, path: seq<Part>, fuel: nat)
    requires DistinctKeys(fields)
    requires var existing := if key in c.entities && c.entities[key].Obj? then c.entities[key].fields else [];
             ReferenceOf(existing) == Plain && ReferenceOf(fields) == Plain
    requires var d := c.(entities := SetEntity(c.entities, key, Obj(fields)));
             Reaches(d, query, path, fuel, key) && ReadQuery(d, query, fuel).Some?
    ensures var d := c.(entities := SetEntity(c.entities, key, Obj(fields)));
            var out := PartAt(ReadQuery(d, query, fuel).value, path);
            var f := StoredAt(d.entities, d.queries[query].value, path, fuel).value.1;
            out.Some? && ShowsUpdate(c.entities, d.entities, key, fields, out.value, f)
  {
    var d := c.(entities := SetEntity(c.entities, key, Obj(fields)));
    ReferenceIsRead(d, query, path, fuel, key);
    EntityShowsUpdate(c.entities, key, fields, StoredAt(d.entities, d.queries[query].value, path, fuel).value.1);
  }

  lemma EntityShowsUpdate(st: Store, key: Key, fields: seq<Field>, f: nat)
    requires DistinctKeys(fields)
    requires var existing := if key in st && st[key].Obj? then st[key].fields else [];
             ReferenceOf(existing) == Plain && ReferenceOf(fields) == Plain
    requires Read(SetEntity(st, key, Obj(fields)), EntityRef(key), f).Some?
    ensures var after := SetEntity(st, key, Obj(fields));
            ShowsUpdate(st, after, key, fields, Read(after, EntityRef(key), f).value, f)
  {
    var after := SetEntity(st, key, Obj(fields));
    var out := Read(after, EntityRef(key), f).value;
    UpdateIsRead(st, key, fields, f, "");
    var existing := if key in st && st[key].Obj? then st[key].fields else [];
    var g, shown := f - 1, out.fields;
    forall name ensures ShowsName(st, after, key, existing, fields, shown, g, name) {
      UpdateIsRead(st, key, fields, f, name);
    }
  }

  /** After a recorded REST write of a record, under the policies that merge: for every query and every
      path at which it reaches the entity written, the result there covers the body of the answer, at
      any depth. */
  lemma {:induction false} QueriesCoverWrite(policy: WritePolicy, c: Cache, verb: string, resource: Resource,
                                             id: Option<string>,
                                             status: int, body: seq<Field>, key: Key,
                                             query: string, path: seq<Part>, fuel: nat)
    requires !policy.InvalidateOnly? && UpperCase(verb) != "GET" && verb != "DELETE" && Succeeded(status)
    requires resource.kind.Collection? && NoRefs(Obj(body)) && WellFormed(Obj(body))
    requires RecordKey(resource, NormalizedFields(c.manifest.types, body)) == Some(key)
    requires var ws := RecordWrites(c.manifest.types, resource, Obj(body));
             Agreeing(ws) && forall w | w in ws :: !Hidden(c.entities, w)
    requires var d := Step(policy, c, RestWrite(verb, Some(Target(resource, id)), status, Obj(body)));
             Reaches(d, query, path, fuel, key) && ReadQuery(d, query, fuel).Some?
    ensures var d := Step(policy, c, RestWrite(verb, Some(Target(resource, id)), status, Obj(body)));
            var out := PartAt(ReadQuery(d, query, fuel).value, path);
            out.Some? && Covers(Obj(body), out.value)
  {
    var types := c.manifest.types;
    var d := Step(policy, c, RestWrite(verb, Some(Target(resource, id)), status, Obj(body)));
    assert d.entities == ApplyWrites(c.entities, AllWrites(types, Some(resource), Obj(body)));
    assert Stored(types, Some(resource), Obj(body)) == EntityRef(key);
    var f := StoredAt(d.entities, d.queries[query].value, path, fuel).value.1;
    ReferenceIsRead(d, query, path, fuel, key);
    ReadCoversResponse(types, c.entities, Some(resource), Obj(body), f);
  }
}
