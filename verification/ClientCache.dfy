/** The query side of the client cache: entries, what they were made from, and how writes and
    events make them stale. */
module ClientCache {
  import opened JsText
  import opened Options
  import opened Json
  import opened EntityStore

  /** Resources by name, by GraphQL type name, and collections by singular root field. */
  datatype Manifest = Manifest(names: map<string, Resource>, types: Types, singular: map<string, Resource>)

  datatype Entry = Entry(value: Value, stale: bool, resources: set<string>, lists: set<string>)

  datatype Meta = Meta(resources: set<string>, lists: set<string>)

  datatype WritePolicy = MergeAndInvalidate | InvalidateOnly | Refetch

  datatype Cache = Cache(manifest: Manifest, queries: map<string, Entry>, entities: Store)

  datatype Target = Target(resource: Resource, id: Option<string>)

  const NO_META := Meta({}, {})

  const NO_MANIFEST := Manifest(map[], map[], map[])

  const EMPTY := Cache(NO_MANIFEST, map[], map[])

  // ---------------------------------------------------------------- what a response is about

  function Join(a: Meta, b: Meta): Meta {
    Meta(a.resources + b.resources, a.lists + b.lists)
  }

  /** The resources `normalizeAnyValue` and `normalizeObjectFields` record. */
  function Mentioned(types: Types, v: Value): set<string> {
    match v
    case Arr(items) => MentionedItems(types, items)
    case Obj(fields) => OwnMention(types, fields) + MentionedFields(types, fields)
    case _ => {}
  }

  function OwnMention(types: Types, fields: seq<Field>): set<string> {
    match TypedResource(types, fields)
    case None => {}
    case Some(resource) =>
      if resource.kind.Document? || Get(fields, resource.idField) != Undefined then {resource.name} else {}
  }

  function MentionedItems(types: Types, items: seq<Value>): set<string> {
    if items == [] then {} else Mentioned(types, items[0]) + MentionedItems(types, items[1..])
  }

  function MentionedFields(types: Types, fields: seq<Field>): set<string> {
    if fields == [] then {} else Mentioned(types, fields[0].val) + MentionedFields(types, fields[1..])
  }

  /** A record of a known collection: its own type name is not looked at. */
  function MentionedRecord(types: Types, v: Value): set<string> {
    match v case Obj(fields) => MentionedFields(types, fields) case _ => {}
  }

  function MentionedRecords(types: Types, items: seq<Value>): set<string> {
    if items == [] then {} else MentionedRecord(types, items[0]) + MentionedRecords(types, items[1..])
  }

  function ResourceMeta(types: Types, resource: Resource, v: Value): Meta {
    if resource.kind.Document? then Meta({resource.name} + Mentioned(types, v), {})
    else if v.Arr? then Meta({resource.name} + MentionedRecords(types, v.items), {resource.name})
    else Meta({resource.name} + MentionedRecord(types, v), {})
  }

  function BodyMeta(types: Types, resource: Option<Resource>, v: Value): Meta {
    match resource
    case Some(r) => ResourceMeta(types, r, v)
    case None => Meta(Mentioned(types, v), {})
  }

  // ---------------------------------------------------------------- GraphQL data

  function FirstObject(items: seq<Value>): Value {
    if items == [] then Undefined
    else if items[0].Obj? then items[0]
    else FirstObject(items[1..])
  }

  /** `graphqlResourceForRoot`. */
  function RootResource(m: Manifest, key: string, v: Value): Option<Resource> {
    if key in m.names then Some(m.names[key])
    else if key in m.singular then Some(m.singular[key])
    else
      match (if v.Arr? then FirstObject(v.items) else v)
      case Obj(fields) => TypedResource(m.types, fields)
      case _ => None
  }

  function DataStored(m: Manifest, fields: seq<Field>): seq<Field> {
    if fields == [] then []
    else
      var f := fields[0];
      [Field(f.key, Stored(m.types, RootResource(m, f.key, f.val), f.val))] + DataStored(m, fields[1..])
  }

  function DataWrites(m: Manifest, fields: seq<Field>): seq<Write> {
    if fields == [] then []
    else
      var f := fields[0];
      AllWrites(m.types, RootResource(m, f.key, f.val), f.val) + DataWrites(m, fields[1..])
  }

  function DataMeta(m: Manifest, fields: seq<Field>): Meta {
    if fields == [] then NO_META
    else
      var f := fields[0];
      Join(BodyMeta(m.types, RootResource(m, f.key, f.val), f.val), DataMeta(m, fields[1..]))
  }

  /** `normalizeGraphqlData`: only an object has root fields. */
  function RootFields(data: Value): seq<Field> {
    if data.Obj? then data.fields else []
  }

  function StoredData(m: Manifest, data: Value): Value {
    if data.Obj? then Obj(DataStored(m, data.fields)) else data
  }

  /** `collectGraphqlResources`: every named type anywhere in the data. */
  function Collected(types: Types, v: Value): set<string> {
    match v
    case Arr(items) => CollectedItems(types, items)
    case Obj(fields) =>
      (match TypedResource(types, fields) case Some(r) => {r.name} case None => {})
      + CollectedFields(types, fields)
    case _ => {}
  }

  function CollectedItems(types: Types, items: seq<Value>): set<string> {
    if items == [] then {} else Collected(types, items[0]) + CollectedItems(types, items[1..])
  }

  function CollectedFields(types: Types, fields: seq<Field>): set<string> {
    if fields == [] then {} else Collected(types, fields[0].val) + CollectedFields(types, fields[1..])
  }

  // ---------------------------------------------------------------- entries

  datatype Staleness = Records | Lists

  /** `invalidateQueries` on one entry; no name, or an empty one, means every resource. */
  predicate MadeStale(entry: Entry, name: Option<string>, what: Staleness) {
    name.None? || name.value == "" || (name.value in entry.resources && (what.Records? || name.value in entry.lists))
  }

  function Invalidate(queries: map<string, Entry>, name: Option<string>, what: Staleness): map<string, Entry> {
    map key | key in queries :: var e := queries[key]; if MadeStale(e, name, what) then e.(stale := true) else e
  }

  /** `invalidateMetaResources`: one call per resource; the calls commute. */
  predicate MadeStaleByAny(entry: Entry, names: set<string>, what: Staleness) {
    if names == {} then MadeStale(entry, None, what)
        else exists name | name in names :: MadeStale(entry, Some(name), what)
  }

  function InvalidateAll(queries: map<string, Entry>, names: set<string>, what: Staleness): map<string, Entry> {
    map key | key in queries :: var e := queries[key]; if MadeStaleByAny(e, names, what) then e.(stale := true) else e
  }

  function WriteQuery(c: Cache, key: string, value: Value, meta: Meta, writes: seq<Write>): Cache {
    c.(queries := c.queries[key := Entry(value, false, meta.resources, meta.lists)],
       entities := ApplyWrites(c.entities, writes))
  }

  function ReadQuery(c: Cache, key: string, fuel: nat): Option<Value> {
    if key in c.queries then Read(c.entities, c.queries[key].value, fuel) else None
  }

  // ---------------------------------------------------------------- operations

  /** Everything that changes the cache, each a synchronous piece of the code.  `Store…` is the
      continuation of a fetch, whenever it happens to run. */
  datatype Op =
    | StoreRest(key: string, target: Option<Resource>, status: int, result: seq<Field>)
    | StoreGraphql(key: string, result: seq<Field>)
    | RestWrite(verb: string, route: Option<Target>, status: int, body: Value)
    | GraphqlWrite(result: seq<Field>)
    | ResourceEvent(name: string)
    | SourceChanged
    | ManifestLoaded(manifest: Manifest)
    | InvalidateCall(which: Option<string>)
    | Clear

  predicate Succeeded(status: int) {
    200 <= status < 300
  }

  /** `shouldCacheGraphqlResult`. */
  predicate NoErrors(result: seq<Field>) {
    var errors := Get(result, "errors");
    !errors.Arr? || errors.items == []
  }

  function Step(policy: WritePolicy, c: Cache, op: Op): Cache {
    var types := c.manifest.types;
    match op
    case StoreRest(key, target, status, result) =>
      if !Succeeded(status) then c
      else
        var body := Get(result, "body");
        WriteQuery(c, key, Obj(Put(result, "body", Stored(types, target, body))),
                   BodyMeta(types, target, body), AllWrites(types, target, body))
    case StoreGraphql(key, result) =>
      if !NoErrors(result) then c
      else
        var data := Get(result, "data");
        WriteQuery(c, key, Obj(Put(result, "data", StoredData(c.manifest, data))),
                   DataMeta(c.manifest, RootFields(data)), DataWrites(c.manifest, RootFields(data)))
    case RestWrite(verb, route, status, body) =>
      if UpperCase(verb) == "GET" || !Succeeded(status) then c
      else if route.None? then c.(queries := Invalidate(c.queries, None, Records))
      else
        var resource := route.value.resource;
        if policy.InvalidateOnly? then c.(queries := Invalidate(c.queries, Some(resource.name), Records))
        else if verb == "DELETE" then
          var id := route.value.id;
          c.(queries := Invalidate(c.queries, Some(resource.name), Records),
             entities := if id.Some? then c.entities - {Key(resource.name, id.value)} else c.entities)
        else
          c.(queries := Invalidate(c.queries, Some(resource.name), if policy.Refetch? then Records else Lists),
             entities := ApplyWrites(c.entities, ResourceWrites(types, resource, body)))
    case GraphqlWrite(result) =>
      if !NoErrors(result) then c
      else
        var data := Get(result, "data");
        if policy.InvalidateOnly? then
          c.(queries := InvalidateAll(c.queries, Collected(types, data), Records))
        else
          c.(queries := InvalidateAll(c.queries, DataMeta(c.manifest, RootFields(data)).resources,
                                      if policy.Refetch? then Records else Lists),
             entities := ApplyWrites(c.entities, DataWrites(c.manifest, RootFields(data))))
    case ResourceEvent(name) =>
      if name == "" then c else c.(queries := Invalidate(c.queries, Some(name), Records))
    case SourceChanged => c.(manifest := NO_MANIFEST, queries := Invalidate(c.queries, None, Records))
    case ManifestLoaded(manifest) => c.(manifest := manifest)
    case InvalidateCall(which) => c.(queries := Invalidate(c.queries, which, Records))
    case Clear => c.(queries := map[], entities := map[])
  }

  function Run(policy: WritePolicy, ops: seq<Op>): Cache {
    if ops == [] then EMPTY
    else Step(policy, Run(policy, ops[..|ops| - 1]), ops[|ops| - 1])
  }

  /** The verb is read in two ways: the test for a read ignores case, the test for a delete does not.
      A successful delete whose answer has no body removes the entity exactly when its verb is
      written in capitals. */
  lemma DeleteNeedsCapitals(policy: WritePolicy, c: Cache, verb: string, resource: Resource, id: string, status: int)
    requires UpperCase(verb) == "DELETE" && Succeeded(status) && !policy.InvalidateOnly? && resource.kind.Collection?
    ensures Step(policy, c, RestWrite(verb, Some(Target(resource, Some(id))), status, Null)).entities
         == if verb == "DELETE" then c.entities - {Key(resource.name, id)} else c.entities
  {
  }

  // ---------------------------------------------------------------- freshness over whole runs

  predicate Stores(op: Op, key: string) {
    match op
    case StoreRest(k, _, status, _) => k == key && Succeeded(status)
    case StoreGraphql(k, result) => k == key && NoErrors(result)
    case _ => false
  }

  predicate Names(name: Option<string>, r: string) {
    name.None? || name.value == "" || name.value == r
  }

  /** The operation tells the cache that resource `r` has changed. */
  predicate WritesOn(policy: WritePolicy, c: Cache, op: Op, r: string) {
    match op
    case RestWrite(verb, route, status, _) =>
      UpperCase(verb) != "GET" && Succeeded(status) && (route.None? || Names(Some(route.value.resource.name), r))
    case GraphqlWrite(result) =>
      NoErrors(result)
      && (var names := if policy.InvalidateOnly? then Collected(c.manifest.types, Get(result, "data"))
                       else DataMeta(c.manifest, RootFields(Get(result, "data"))).resources;
          names == {} || "" in names || r in names)
    case ResourceEvent(name) => name != "" && name == r
    case SourceChanged => true
    case InvalidateCall(which) => Names(which, r)
    case _ => false
  }

  /** ... and not merely that lists of `r` have: a delete, an event, or any write under the
      policies that do not merge. */
  predicate StrikesOn(policy: WritePolicy, c: Cache, op: Op, r: string) {
    WritesOn(policy, c, op, r)
    && match op
       case RestWrite(verb, route, _, _) => route.None? || verb == "DELETE" || !policy.MergeAndInvalidate?
       case GraphqlWrite(result) =>
         !policy.MergeAndInvalidate? || DataMeta(c.manifest, RootFields(Get(result, "data"))).resources == {}
       case _ => true
  }

  predicate Changes(policy: WritePolicy, c: Cache, op: Op, r: string, strikes: bool) {
    if strikes then StrikesOn(policy, c, op, r) else WritesOn(policy, c, op, r)
  }

  /** `key` was stored at step `i` of the run, and no later step wrote on (or struck) `r`. */
  ghost predicate StoredSince(policy: WritePolicy, ops: seq<Op>, key: string, r: string, strikes: bool, i: nat) {
    i < |ops| && Stores(ops[i], key)
    && forall j | i < j < |ops| :: !Changes(policy, Run(policy, ops[..j]), ops[j], r, strikes)
  }

  ghost predicate StoredAfterLast(policy: WritePolicy, ops: seq<Op>, key: string, r: string, strikes: bool) {
    exists i: nat :: StoredSince(policy, ops, key, r, strikes, i)
  }

  lemma {:induction false} BodyListsAreResources(types: Types, resource: Option<Resource>, v: Value)
    ensures BodyMeta(types, resource, v).lists <= BodyMeta(types, resource, v).resources
  {
  }

  lemma {:induction false} DataListsAreResources(m: Manifest, fields: seq<Field>)
    ensures DataMeta(m, fields).lists <= DataMeta(m, fields).resources
  {
    if fields != [] {
      BodyListsAreResources(m.types, RootResource(m, fields[0].key, fields[0].val), fields[0].val);
      DataListsAreResources(m, fields[1..]);
    }
  }

  /** In every run, an entry's lists are among its resources. */
  lemma {:induction false} ListsAreResources(policy: WritePolicy, ops: seq<Op>, key: string)
    requires key in Run(policy, ops).queries
    ensures Run(policy, ops).queries[key].lists <= Run(policy, ops).queries[key].resources
  {
    var n := |ops| - 1;
    var c := Run(policy, ops[..n]);
    if key in c.queries { ListsAreResources(policy, ops[..n], key); }
    match ops[n]
    case StoreRest(_, target, _, result) => BodyListsAreResources(c.manifest.types, target, Get(result, "body"));
    case StoreGraphql(_, result) => DataListsAreResources(c.manifest, RootFields(Get(result, "data")));
    case _ =>
  }

  /** One step: what is fresh afterwards was stored by the step, or was fresh before with the same
      sets and was not written on. */
  lemma FreshStep(policy: WritePolicy, c: Cache, op: Op, key: string)
    requires key in Step(policy, c, op).queries && !Step(policy, c, op).queries[key].stale
    requires key in c.queries ==> c.queries[key].lists <= c.queries[key].resources
    ensures Stores(op, key)
         || (&& key in c.queries && !c.queries[key].stale
             && Step(policy, c, op).queries[key] == c.queries[key]
             && (forall r | r in c.queries[key].lists :: !WritesOn(policy, c, op, r))
             && (forall r | r in c.queries[key].resources :: !StrikesOn(policy, c, op, r)))
  {
  }

  /** With in-memory storage, in every run of fetches, writes, deletes and events, an entry that is
      fresh and lists resource `r` was stored after the last recorded write on `r`; and if it only
      involves `r`, after the last delete of, or event about, `r`. */
  lemma {:induction false} FreshEntriesFollowWrites(policy: WritePolicy, ops: seq<Op>, key: string, r: string)
    requires key in Run(policy, ops).queries && !Run(policy, ops).queries[key].stale
    ensures r in Run(policy, ops).queries[key].lists ==> StoredAfterLast(policy, ops, key, r, false)
    ensures r in Run(policy, ops).queries[key].resources ==> StoredAfterLast(policy, ops, key, r, true)
    decreases |ops|
  {
    var n := |ops| - 1;
    var before := ops[..n];
    var c := Run(policy, before);
    assert ops == before + [ops[n]];
    if key in c.queries { ListsAreResources(policy, before, key); }
    FreshStep(policy, c, ops[n], key);
    if Stores(ops[n], key) {
      assert StoredSince(policy, ops, key, r, false, n);
      assert StoredSince(policy, ops, key, r, true, n);
    } else {
      FreshEntriesFollowWrites(policy, before, key, r);
      if r in c.queries[key].lists { LongerRun(policy, before, ops[n], key, r, false); }
      if r in c.queries[key].resources { LongerRun(policy, before, ops[n], key, r, true); }
    }
  }

  lemma LongerRun(policy: WritePolicy, before: seq<Op>, op: Op, key: string, r: string, strikes: bool)
    requires StoredAfterLast(policy, before, key, r, strikes)
    requires !Changes(policy, Run(policy, before), op, r, strikes)
    ensures StoredAfterLast(policy, before + [op], key, r, strikes)
  {
    var i: nat :| StoredSince(policy, before, key, r, strikes, i);
    var ops := before + [op];
    forall j | i < j < |ops| ensures !Changes(policy, Run(policy, ops[..j]), ops[j], r, strikes) {
      if j < |before| { assert ops[..j] == before[..j]; } else { assert ops[..j] == before; }
    }
    assert StoredSince(policy, ops, key, r, strikes, i);
  }

  // ---------------------------------------------------------------- reads in reachable states

  /** The entities an operation writes, in order. */
  function OpWrites(policy: WritePolicy, c: Cache, op: Op): seq<Write> {
    match op
    case StoreRest(_, target, status, result) =>
      if Succeeded(status) then AllWrites(c.manifest.types, target, Get(result, "body")) else []
    case StoreGraphql(_, result) =>
      if NoErrors(result) then DataWrites(c.manifest, RootFields(Get(result, "data"))) else []
    case RestWrite(verb, route, status, body) =>
      if UpperCase(verb) != "GET" && verb != "DELETE" && Succeeded(status) && route.Some? && !policy.InvalidateOnly?
      then ResourceWrites(c.manifest.types, route.value.resource, body) else []
    case GraphqlWrite(result) =>
      if NoErrors(result) && !policy.InvalidateOnly? then DataWrites(c.manifest, RootFields(Get(result, "data")))
          else []
    case _ => []
  }

  /** Entities nest along the ranks: one inside an entity of resource `r` has a lower rank. */
  ghost predicate Nests(writes: seq<Write>, rank: string -> nat) {
    forall w | w in writes ::
      RefsBelow(w.value, rank, rank(w.key.resource)) && (w.value.Obj? ==> DistinctKeys(w.value.fields))
  }

  lemma StepIsRanked(policy: WritePolicy, c: Cache, op: Op, rank: string -> nat)
    requires Ranked(c.entities, rank) && Nests(OpWrites(policy, c, op), rank)
    ensures Ranked(Step(policy, c, op).entities, rank)
  {
    ApplyWritesRanked(c.entities, rank, OpWrites(policy, c, op));
  }

  lemma {:induction false} RunIsRanked(policy: WritePolicy, ops: seq<Op>, rank: string -> nat)
    requires forall i | 0 <= i < |ops| :: Nests(OpWrites(policy, Run(policy, ops[..i]), ops[i]), rank)
    ensures Ranked(Run(policy, ops).entities, rank)
    decreases |ops|
  {
    if ops != [] {
      var n := |ops| - 1;
      var before := ops[..n];
      forall i | 0 <= i < n ensures Nests(OpWrites(policy, Run(policy, before[..i]), before[i]), rank) {
        assert before[..i] == ops[..i];
      }
      RunIsRanked(policy, before, rank);
      StepIsRanked(policy, Run(policy, before), ops[n], rank);
    }
  }

  lemma {:induction false} BoundedRefs(v: Value, rank: string -> nat, n: nat)
    requires forall r :: rank(r) < n
    ensures RefsBelow(v, rank, n)
  {
    match v
    case Arr(items) => forall x | x in items ensures RefsBelow(x, rank, n) { BoundedRefs(x, rank, n); }
    case Obj(fields) => forall f | f in fields ensures RefsBelow(f.val, rank, n) { BoundedRefs(f.val, rank, n); }
    case _ =>
  }

  /** When references between resource types are well founded, with `n` levels, every cached query
      of every reachable state can be read, in `n` nested lookups. */
  lemma {:induction false} ReachableQueriesRead(policy: WritePolicy, ops: seq<Op>, rank: string -> nat, n: nat,
                                                key: string)
    requires forall r :: rank(r) < n
    requires forall i | 0 <= i < |ops| :: Nests(OpWrites(policy, Run(policy, ops[..i]), ops[i]), rank)
    requires key in Run(policy, ops).queries
    ensures ReadQuery(Run(policy, ops), key, n).Some?
  {
    var c := Run(policy, ops);
    RunIsRanked(policy, ops, rank);
    BoundedRefs(c.queries[key].value, rank, n);
    ReadEnds(c.entities, rank, c.queries[key].value, n, n);
  }

  /** An entity update leaves every query alone that cannot reach the entity. */
  lemma UnrelatedQueryUnchanged(c: Cache, key: Key, value: Value, query: string, fuel: nat)
    requires query in c.queries && key !in Reach(c.entities, c.queries[query].value, fuel)
    ensures ReadQuery(c.(entities := SetEntity(c.entities, key, value)), query, fuel) == ReadQuery(c, query, fuel)
    ensures ReadQuery(c.(entities := c.entities - {key}), query, fuel) == ReadQuery(c, query, fuel)
  {
    UnreachedUnchanged(c.entities, key, value, c.queries[query].value, fuel);
    assert c.entities - {key} == map k | k in c.entities && k != key :: c.entities[k];
  }

  // ---------------------------------------------------------------- a fetch that overtakes a write

  /** "Stored after" is all that holds.  A list fetched before a write to its resource, whose
      answer arrives after that write, is stored fresh: the write is older than the entry, and
      younger than the data. */
  lemma LateAnswerIsFresh(policy: WritePolicy, users: Resource, body: Value)
    requires users.kind.Collection? && body.Arr?
    ensures var ops := [RestWrite("POST", Some(Target(users, None)), 201, Null),
                        StoreRest("k", Some(users), 200, [Field("body", body)])];
            var c := Run(policy, ops);
            "k" in c.queries && !c.queries["k"].stale && users.name in c.queries["k"].lists
  {
  }
}
