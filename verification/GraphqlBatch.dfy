/** The GraphQL queue of the client: its own test for reads, in front of a server that executes the
    requests of a batch one after the other (`executeGraphqlBatch`). */
module GraphqlBatch {
  import opened Options
  import opened Json
  import opened CanonicalText
  import opened Batcher
  import opened GraphqlSyntax
  import opened GraphqlDedupe
  import opened GraphqlVariables
  import E = GraphqlExecute
  import EntityStore

  // ---------------------------------------------------------------- the server

  /** What the resolvers do with the variables of a request; undefined ones do not arrive. */
  datatype Endpoint<!Db> = Endpoint(
    field: (Variables, Db, string, string, seq<Argument>) -> (Db, E.Outcome<E.FieldValue>),
    computed: (string, string) -> bool,
    resolve: (Db, string, seq<Value>, seq<string>) -> E.Outcome<seq<Value>>)

  function ServerFor<Db>(ep: Endpoint<Db>, vs: Variables): E.Server<Db> {
    E.Server((db, operation, name, args) => ep.field(vs, db, operation, name, args), ep.computed, ep.resolve, vs)
  }

  function Arrived(fields: seq<Json.Field>): Variables {
    map f | f in fields && !Get(fields, f.key).Undefined? :: f.key := Get(fields, f.key)
  }

  function VariablesOf(r: Value): Variables {
    if r.Obj? && Get(r.fields, "variables").Obj? then Arrived(Get(r.fields, "variables").fields) else map[]
  }

  function OperationNameOf(r: Value): string {
    if r.Obj? && Get(r.fields, "operationName").Str? then Get(r.fields, "operationName").s else ""
  }

  /** The text to execute; None is a missing query. */
  function TextOf(r: Value): Option<string> {
    match r
    case Str(s) => if s == "" then None else Some(s)
    case Obj(fields) =>
      (match Get(fields, "query") case Str(s) => if s == "" then None else Some(s) case _ => None)
    case _ => None
  }

  function DocumentOf(r: Value): Option<Document> {
    match TextOf(r) case Some(text) => ParseGraphql(text) case None => None
  }

  /** The fragments of the request do not spread each other in a circle; executing those that do does
      not end. */
  ghost predicate Ends(r: Value) {
    DocumentOf(r).Some? ==> Rankable(DocumentOf(r).value)
  }

  ghost predicate Rankable(d: Document) {
    exists rank: string -> nat, n: nat :: E.DocumentAcyclic(d, rank, n)
  }

  /** Refused is a missing query or one that does not parse. */
  datatype Reply = Refused | Ran(data: E.Outcome<seq<Json.Field>>)

  ghost function RunDocument<Db>(server: E.Server<Db>, db: Db, d: Document, operationName: string): E.Run<Db>
    requires Rankable(d)
  {
    var rank: string -> nat, n: nat :| E.DocumentAcyclic(d, rank, n);
    E.ExecuteDocument(server, db, d, operationName, rank, n)
  }

  /** `executeGraphqlSingle`. */
  ghost function Single<Db>(ep: Endpoint<Db>, db: Db, r: Value): (Db, Reply) {
    match DocumentOf(r)
    case None => (db, Refused)
    case Some(d) =>
      if !Rankable(d) then (db, Refused)
      else
        var run := RunDocument(ServerFor(ep, VariablesOf(r)), db, d, OperationNameOf(r));
        (run.db, Ran(run.data))
  }

  ghost function Serving<Db>(ep: Endpoint<Db>): Step<Db, Reply> {
    (db: Db, r: Value) => Single(ep, db, r)
  }

  /** The resolvers of query fields write nothing, and look at no order of keys in the variables. */
  ghost predicate OnlyReads<Db(!new)>(ep: Endpoint<Db>) {
    && (forall vs, db, operation, name, args ::
          operation != "mutation" ==> ep.field(vs, db, operation, name, args).0 == db)
    && (forall vs, ws, db, operation, name, args :: operation != "mutation" && SameVariables(vs, ws)
          ==> ep.field(vs, db, operation, name, args) == ep.field(ws, db, operation, name, args))
  }

  // ---------------------------------------------------------------- the client's test

  /** `isGraphqlDedupeSafe`. */
  function PassesForRead(r: Value): bool {
    var query := if r.Obj? then Get(r.fields, "query") else Undefined;
    IsDedupeSafe(if query.Undefined? || query.Null? then "" else EntityStore.JsString(query))
  }

  /** The request does not run a mutation. */
  predicate RunsNoMutation(r: Value) {
    DocumentOf(r).Some? ==>
      var selected := E.SelectOperation(DocumentOf(r).value, OperationNameOf(r));
      selected.Good? ==> selected.value.operation != "mutation"
  }

  /** What can be seen of the text: it does not parse, or starts plainly with the only mutation it has, if
      it has any. */
  predicate ShowsMutations(r: Value) {
    match TextOf(r)
    case None => true
    case Some(text) =>
      ParseGraphql(text).Some? ==>
        && r.Obj? && StartsPlainly(text)
        && forall op | op in ParseGraphql(text).value.operations ::
             op.operation == "mutation" ==> FirstDefinition(text) == Some(OperationDefinition(op))
  }

  /** Then the client's test is right about it. */
  lemma ShownIsJudged(r: Value)
    requires ShowsMutations(r) && PassesForRead(r)
    ensures RunsNoMutation(r)
  {
    if DocumentOf(r).Some? {
      var text, d := TextOf(r).value, DocumentOf(r).value;
      assert IsDedupeSafe(text);
      SafeExactly(text);
      var selected := E.SelectOperation(d, OperationNameOf(r));
      if selected.Good? {
        if OperationNameOf(r) != "" { E.FoundOperation(E.OperationsOf(d), OperationNameOf(r)); }
        assert selected.value in E.OperationsOf(d);
      }
    }
  }

  // ---------------------------------------------------------------- the law of the batcher

  lemma KeysReordered(fs: seq<Json.Field>, gs: seq<Json.Field>, key: string)
    requires Reordered(Obj(fs), Obj(gs))
    ensures HasKey(fs, key) <==> HasKey(gs, key)
  {
    if HasKey(fs, key) {
      var i :| 0 <= i < |fs| && fs[i].key == key;
      assert HasReordered(fs[i], gs);
    }
    if HasKey(gs, key) {
      var j :| 0 <= j < |gs| && gs[j].key == key;
      assert IsReordered(fs, gs[j]);
    }
  }

  lemma GetReordered(fs: seq<Json.Field>, gs: seq<Json.Field>, key: string)
    requires DistinctKeys(fs) && DistinctKeys(gs) && Reordered(Obj(fs), Obj(gs))
    ensures Reordered(Get(fs, key), Get(gs, key))
  {
    KeysReordered(fs, gs, key);
    if HasKey(fs, key) {
      var i :| 0 <= i < |fs| && fs[i].key == key;
      assert HasReordered(fs[i], gs);
      var g :| g in gs && fs[i].key == g.key && Reordered(fs[i].val, g.val);
      var j :| 0 <= j < |gs| && gs[j] == g;
      GetAt(fs, i);
      GetAt(gs, j);
    }
  }

  lemma ArrivedReordered(fs: seq<Json.Field>, gs: seq<Json.Field>)
    requires DistinctKeys(fs) && DistinctKeys(gs) && Reordered(Obj(fs), Obj(gs))
    ensures SameVariables(Arrived(fs), Arrived(gs))
  {
    forall key ensures key in Arrived(fs) <==> HasKey(fs, key) && !Get(fs, key).Undefined? { KeyArrives(fs, key); }
    forall key ensures key in Arrived(gs) <==> HasKey(gs, key) && !Get(gs, key).Undefined? { KeyArrives(gs, key); }
    forall key ensures Reordered(Get(fs, key), Get(gs, key)) && (HasKey(fs, key) <==> HasKey(gs, key)) {
      GetReordered(fs, gs, key);
      KeysReordered(fs, gs, key);
    }
  }

  lemma KeyArrives(fs: seq<Json.Field>, key: string)
    ensures key in Arrived(fs) <==> HasKey(fs, key) && !Get(fs, key).Undefined?
  {
    if HasKey(fs, key) {
      var i :| 0 <= i < |fs| && fs[i].key == key;
      assert fs[i] in fs;
    }
    if key in Arrived(fs) {
      var f :| f in fs && f.key == key;
      var i :| 0 <= i < |fs| && fs[i] == f;
      assert fs[i].key == key;
    }
  }

  /** Requests that differ in the order of keys have one text, one operation name and the same
      variables. */
  lemma RequestReordered(a: Value, b: Value)
    requires WellFormed(a) && WellFormed(b) && Reordered(a, b)
    ensures TextOf(a) == TextOf(b) && OperationNameOf(a) == OperationNameOf(b)
    ensures SameVariables(VariablesOf(a), VariablesOf(b))
  {
    if a.Obj? {
      GetReordered(a.fields, b.fields, "query");
      GetReordered(a.fields, b.fields, "operationName");
      GetReordered(a.fields, b.fields, "variables");
      var vs, ws := Get(a.fields, "variables"), Get(b.fields, "variables");
      if vs.Obj? {
        GetWellFormed(a.fields, "variables");
        GetWellFormed(b.fields, "variables");
        ArrivedReordered(vs.fields, ws.fields);
      }
    }
  }

  lemma {:induction false} GetWellFormed(fs: seq<Json.Field>, key: string)
    requires forall f | f in fs :: WellFormed(f.val)
    ensures WellFormed(Get(fs, key))
  {
    if fs != [] && fs[0].key != key { GetWellFormed(fs[1..], key); }
  }

  lemma ReadKeepsDb<Db(!new)>(ep: Endpoint<Db>, db: Db, r: Value)
    requires OnlyReads(ep) && RunsNoMutation(r)
    ensures Single(ep, db, r).0 == db
  {
    if DocumentOf(r).Some? && Rankable(DocumentOf(r).value) {
      var d := DocumentOf(r).value;
      var server := ServerFor(ep, VariablesOf(r));
      var rank: string -> nat, n: nat :| E.DocumentAcyclic(d, rank, n)
          && RunDocument(server, db, d, OperationNameOf(r))
          == E.ExecuteDocument(server, db, d, OperationNameOf(r), rank, n);
      QueryChangesNothing(server, db, d, OperationNameOf(r), rank, n);
    }
  }

  lemma ReadsAlike<Db(!new)>(ep: Endpoint<Db>, db: Db, a: Value, b: Value)
    requires OnlyReads(ep) && RunsNoMutation(a) && WellFormed(a) && WellFormed(b) && Reordered(a, b)
    ensures Single(ep, db, a) == Single(ep, db, b)
  {
    RequestReordered(a, b);
    if DocumentOf(a).Some? && Rankable(DocumentOf(a).value) {
      var d, name := DocumentOf(a).value, OperationNameOf(a);
      var s, t := ServerFor(ep, VariablesOf(a)), ServerFor(ep, VariablesOf(b));
      forall ds ensures E.ShouldInclude(ds, s.variables) == E.ShouldInclude(ds, t.variables) {
        IncludeAlike(ds, s.variables, t.variables);
      }
      RunAlike(s, t, db, d, name);
    }
  }

  lemma RunAlike<Db(!new)>(s: E.Server<Db>, t: E.Server<Db>, db: Db, d: Document, name: string)
    requires Rankable(d)
    requires E.SelectOperation(d, name).Good? ==> Alike(s, t, E.SelectOperation(d, name).value.operation)
    ensures RunDocument(s, db, d, name) == RunDocument(t, db, d, name)
  {
    forall rank: string -> nat, n: nat | E.DocumentAcyclic(d, rank, n)
      ensures E.ExecuteDocument(s, db, d, name, rank, n) == E.ExecuteDocument(t, db, d, name, rank, n)
    {
      ExecuteDocumentAlike(s, t, db, d, name, rank, n);
    }
  }

  /** A server whose query fields only read is lawful for every set of requests in which what passes for a
      read runs no mutation. */
  lemma ServingIsLawful<Db(!new)>(ep: Endpoint<Db>, rs: seq<Value>)
    requires OnlyReads(ep)
    requires forall r | r in rs && PassesForRead(r) :: Sendable(r) && RunsNoMutation(r)
    ensures Batchable(Serving(ep), PassesForRead, rs)
  {
    forall db, r | r in rs && PassesForRead(r) ensures Serving(ep)(db, r).0 == db {
      ReadKeepsDb(ep, db, r);
    }
    forall db, a, b | a in rs && b in rs && PassesForRead(a) && PassesForRead(b) && Reordered(a, b)
      ensures Serving(ep)(db, a) == Serving(ep)(db, b)
    {
      ReadsAlike(ep, db, a, b);
    }
  }

  // ---------------------------------------------------------------- main results

  /** The requests that pass for reads can be told apart by their text and run no mutation, and all of
      them end. */
  ghost predicate Judged(rs: seq<Value>) {
    && (forall r | r in rs && PassesForRead(r) :: Sendable(r) && RunsNoMutation(r))
    && forall r | r in rs :: Ends(r)
  }

  /** One batch of GraphQL requests, as the client groups them, leaves the database where running every
      request in arrival order leaves it, and every call gets the reply it would have got then. */
  lemma GraphqlBatchPreservesMeaning<Db(!new)>(ep: Endpoint<Db>, db: Db, items: seq<Item>, mode: DedupeMode)
    requires mode != All && OnlyReads(ep) && Judged(ItemRequests(items))
    ensures var sent := Requests(GroupsFor(items, mode, PassesForRead));
            && StateAfter(Serving(ep), db, sent) == StateAfter(Serving(ep), db, ItemRequests(items))
            && multiset(FanOut(GroupsFor(items, mode, PassesForRead), Answers(Serving(ep), db, sent)))
                == multiset(Expected(Serving(ep), db, items))
  {
    ServingIsLawful(ep, ItemRequests(items));
    BatchPreservesMeaning(Serving(ep), PassesForRead, db, items, mode);
  }

  /** And so in every run. */
  lemma GraphqlRunsAreSequential<Db(!new)>(ep: Endpoint<Db>, db: Db, events: seq<Event>, mode: DedupeMode)
    requires mode != All && OnlyReads(ep) && Judged(Arrivals(events))
    ensures var w := Play(Serving(ep), PassesForRead, mode, db, events);
            Sequential(Serving(ep), db, w.executed, w) && Accounted(Arrivals(events), w)
  {
    ServingIsLawful(ep, Arrivals(events));
    RunsAreSequential(Serving(ep), PassesForRead, mode, db, events);
  }

  /** It is enough to look at the texts: each does not parse, is taken for a write, or starts plainly with
      the only mutation it has, if it has any. */
  lemma TextsAreEnough(rs: seq<Value>)
    requires forall r | r in rs && PassesForRead(r) :: Sendable(r) && ShowsMutations(r)
    requires forall r | r in rs :: Ends(r)
    ensures Judged(rs)
  {
    forall r | r in rs && PassesForRead(r) ensures RunsNoMutation(r) { ShownIsJudged(r); }
  }

  /** A request that passes for a read and is queued twice is run once; so the batch ends where the two
      calls end exactly when running it again would change nothing. */
  lemma RunOnceForTwo<Db(!new)>(ep: Endpoint<Db>, db: Db, r: Value)
    requires PassesForRead(r) && Ends(r)
    ensures var items := [Item(0, r), Item(1, r)];
            var once := Single(ep, db, r).0;
            && Requests(GroupsFor(items, Reads, PassesForRead)) == [r]
            && StateAfter(Serving(ep), db, [r]) == once
            && StateAfter(Serving(ep), db, ItemRequests(items)) == Single(ep, once, r).0
  {
    MergedTwice(r, PassesForRead);
    RunSnoc(Serving(ep), db, [], r);
    RunSnoc(Serving(ep), db, [r], r);
    assert [] + [r] == [r] && ItemRequests([Item(0, r), Item(1, r)]) == [r] + [r];
  }

  lemma QueryParts(text: string)
    requires text != ""
    ensures TextOf(Query(text)) == Some(text) && VariablesOf(Query(text)) == map[] && OperationNameOf(Query(text)) == ""
    ensures PassesForRead(Query(text)) <==> IsDedupeSafe(text)
  {
    var fields := Query(text).fields;
    assert fields[1..] == [] && Get(fields, "query") == Str(text);
    assert Get(fields, "variables") == Undefined && Get(fields, "operationName") == Undefined;
  }

  lemma CommentChangesNothing(text: string)
    requires text != ""
    ensures var hidden, plain := Query("#\n" + text), Query(text);
            && PassesForRead(hidden) && DocumentOf(hidden) == DocumentOf(plain)
            && VariablesOf(hidden) == VariablesOf(plain) && OperationNameOf(hidden) == OperationNameOf(plain)
  {
    CommentHidesMutation(text);
    QueryParts(text);
    QueryParts("#\n" + text);
  }

  /** So two equal mutations behind a comment, which does not change what is executed, are run once. */
  lemma CommentedRunsOnce<Db(!new)>(ep: Endpoint<Db>, db: Db, text: string)
    requires text != "" && Ends(Query(text))
    ensures var hidden, plain := Query("#\n" + text), Query(text);
            var items := [Item(0, hidden), Item(1, hidden)];
            var once := Single(ep, db, plain).0;
            && StateAfter(Serving(ep), db, Requests(GroupsFor(items, Reads, PassesForRead))) == once
            && StateAfter(Serving(ep), db, ItemRequests(items)) == Single(ep, once, plain).0
  {
    var hidden := Query("#\n" + text);
    CommentChangesNothing(text);
    RunOnceForTwo(ep, db, hidden);
  }

  function Query(text: string): Value {
    Obj([Json.Field("query", Str(text))])
  }

  function FullRequest(text: string, variables: seq<Json.Field>, name: string): Value {
    Obj([Json.Field("query", Str(text)), Json.Field("variables", Obj(variables)),
         Json.Field("operationName", Str(name))])
  }

  /** The parts of a request are found again; a variable is at hand under its name unless it is undefined. */
  lemma RequestParts(text: string, variables: seq<Json.Field>, name: string)
    requires text != "" && DistinctKeys(variables)
    ensures var r := FullRequest(text, variables, name);
            && DocumentOf(r) == ParseGraphql(text) && OperationNameOf(r) == name
            && (forall key :: key in VariablesOf(r) <==> HasKey(variables, key) && Get(variables, key) != Undefined)
            && (forall key | key in VariablesOf(r) :: VariablesOf(r)[key] == Get(variables, key))
  {
    var fields := FullRequest(text, variables, name).fields;
    GetAt(fields, 0);
    GetAt(fields, 1);
    GetAt(fields, 2);
    forall key ensures key in Arrived(variables) <==> HasKey(variables, key) && Get(variables, key) != Undefined {
      KeyArrives(variables, key);
    }
  }

  /** A request runs the document of its text, with its variables and operation name. */
  lemma RequestIsExecuted<Db(!new)>(ep: Endpoint<Db>, db: Db, text: string, variables: seq<Json.Field>, name: string)
    returns (rank: string -> nat, n: nat)
    requires text != "" && ParseGraphql(text).Some? && Rankable(ParseGraphql(text).value) && DistinctKeys(variables)
    ensures E.DocumentAcyclic(ParseGraphql(text).value, rank, n)
    ensures var r := FullRequest(text, variables, name);
            var run := E.ExecuteDocument(ServerFor(ep, VariablesOf(r)), db, ParseGraphql(text).value, name, rank, n);
            Single(ep, db, r) == (run.db, Ran(run.data))
  {
    var r, d := FullRequest(text, variables, name), ParseGraphql(text).value;
    RequestParts(text, variables, name);
    var server := ServerFor(ep, VariablesOf(r));
    rank, n :| E.DocumentAcyclic(d, rank, n)
        && RunDocument(server, db, d, name) == E.ExecuteDocument(server, db, d, name, rank, n);
  }

  /** A request that has no text, or one that does not parse, is refused and changes nothing. */
  lemma OthersAreRefused<Db(!new)>(ep: Endpoint<Db>, db: Db, r: Value)
    requires r.Obj?
    requires var query := Get(r.fields, "query"); !query.Str? || query.s == "" || ParseGraphql(query.s).None?
    ensures Single(ep, db, r) == (db, Refused)
  {
  }
}
