/** Inlining fragments preserves execution. */
module GraphqlInline {
  import opened Options
  import opened GraphqlSyntax
  import opened GraphqlExecute
  import Json

  // ---------------------------------------------------------------- the transformation

  /** A spread becomes an inline fragment with the fragment's type condition and the spread's
      directives, around an unconditional one with the fragment's directives.  A spread of an
      undefined fragment stays, to fail as before. */
  function Inline(fragments: Fragments, rank: string -> nat, n: nat, s: Selection): Selection
    requires Acyclic(fragments, rank) && SpreadsBelow(fragments, rank, s, n)
    decreases n, s, 0
  {
    match s
    case FragmentSpread(name, ds) =>
      if name !in fragments then s
      else
        var f := fragments[name];
        InlineFragment(Some(f.typeCondition), ds,
                       [InlineFragment(None, f.directives, InlineAll(fragments, rank, rank(name), f.selectionSet))])
    case InlineFragment(typeCondition, ds, ss) => InlineFragment(typeCondition, ds, InlineAll(fragments, rank, n, ss))
    case Field(alias, name, args, ds, set_) =>
      Field(alias, name, args, ds, match set_ case NoSet => NoSet case Set(ss) => Set(InlineAll(fragments, rank, n,
          ss)))
  }

  function InlineAll(fragments: Fragments, rank: string -> nat, n: nat, ss: seq<Selection>): (r: seq<Selection>)
    requires Acyclic(fragments, rank) && AllBelow(fragments, rank, ss, n)
    ensures |r| == |ss|
    decreases n, ss, 0
  {
    if ss == [] then [] else [Inline(fragments, rank, n, ss[0])] + InlineAll(fragments, rank, n, ss[1..])
  }

  /** Without fragments nothing can be cyclic. */
  lemma {:induction false} NoFragmentsBelow(rank: string -> nat, s: Selection, n: nat)
    ensures SpreadsBelow(map[], rank, s, n)
  {
    match s
    case FragmentSpread(_, _) =>
    case InlineFragment(_, _, ss) => forall x | x in ss ensures SpreadsBelow(map[], rank, x, n) {
        NoFragmentsBelow(rank, x, n); }
    case Field(_, _, _, _, set_) =>
      if set_.Set? {
        forall x | x in set_.selections ensures SpreadsBelow(map[], rank, x, n) { NoFragmentsBelow(rank, x, n); }
      }
  }

  lemma NoFragmentsAllBelow(rank: string -> nat, ss: seq<Selection>, n: nat)
    ensures AllBelow(map[], rank, ss, n)
  {
    forall x | x in ss ensures SpreadsBelow(map[], rank, x, n) { NoFragmentsBelow(rank, x, n); }
  }

  function Bare(c: Context): Context {
    c.(fragments := map[])
  }

  // ---------------------------------------------------------------- computed fields

  lemma {:induction false} ComputedAll<Db>(server: Server<Db>, c: Context, rank: string -> nat, n: nat, m: nat,
                                           ss: seq<Selection>)
    requires Acyclic(c.fragments, rank) && AllBelow(c.fragments, rank, ss, n)
    requires AllBelow(map[], rank, InlineAll(c.fragments, rank, n, ss), m)
    ensures SelectedComputed(server, Bare(c), rank, m, InlineAll(c.fragments, rank, n, ss))
        == SelectedComputed(server, c, rank, n, ss)
    decreases n, ss, 0
  {
    if ss != [] {
      var r := InlineAll(c.fragments, rank, n, ss);
      assert r[0] == Inline(c.fragments, rank, n, ss[0]) && r[1..] == InlineAll(c.fragments, rank, n, ss[1..]);
      ComputedOne(server, c, rank, n, m, ss[0]);
      ComputedAll(server, c, rank, n, m, ss[1..]);
    }
  }

  lemma {:induction false} ComputedOne<Db>(server: Server<Db>, c: Context, rank: string -> nat, n: nat, m: nat,
                                           s: Selection)
    requires Acyclic(c.fragments, rank) && SpreadsBelow(c.fragments, rank, s, n)
    requires SpreadsBelow(map[], rank, Inline(c.fragments, rank, n, s), m)
    ensures SelectedComputedOne(server, Bare(c), rank, m, Inline(c.fragments, rank, n, s))
        == SelectedComputedOne(server, c, rank, n, s)
    decreases n, s, 0
  {
    match s
    case FragmentSpread(name, _) =>
      if name in c.fragments {
        var f := c.fragments[name];
        var inner := InlineAll(c.fragments, rank, rank(name), f.selectionSet);
        NoFragmentsAllBelow(rank, inner, m);
        ComputedAll(server, c, rank, rank(name), m, f.selectionSet);
        ComputedWrapper(server, Bare(c), rank, m, f.directives, inner);
      }
    case InlineFragment(_, _, ss) =>
      NoFragmentsAllBelow(rank, InlineAll(c.fragments, rank, n, ss), m);
      ComputedAll(server, c, rank, n, m, ss);
    case Field(_, _, _, _, _) =>
  }

  /** The unconditional inline fragment around a fragment's body only adds its directives. */
  lemma ComputedWrapper<Db>(server: Server<Db>, c: Context, rank: string -> nat, m: nat, ds: seq<Directive>,
                            inner: seq<Selection>)
    requires Acyclic(c.fragments, rank) && AllBelow(c.fragments, rank, inner, m)
    ensures AllBelow(c.fragments, rank, [InlineFragment(None, ds, inner)], m)
    ensures SelectedComputed(server, c, rank, m, [InlineFragment(None, ds, inner)])
         == match ShouldInclude(ds, server.variables)
            case Bad(e) => Bad(e)
            case Good(b) => if b then SelectedComputed(server, c, rank, m, inner) else Good([])
  {
    var wrapper := [InlineFragment(None, ds, inner)];
    assert wrapper[1..] == [];
    var one := SelectedComputedOne(server, c, rank, m, wrapper[0]);
    if one.Good? { assert one.value + [] == one.value; }
  }

  // ---------------------------------------------------------------- projection

  lemma {:induction false} ProjectValueSame<Db>(server: Server<Db>, db: Db, c: Context, rank: string -> nat, n: nat,
                                                m: nat, v: Value, ss: seq<Selection>)
    requires Acyclic(c.fragments, rank) && AllBelow(c.fragments, rank, ss, n)
    requires AllBelow(map[], rank, InlineAll(c.fragments, rank, n, ss), m)
    ensures ProjectValue(server, db, Bare(c), rank, m, v, InlineAll(c.fragments, rank, n, ss))
        == ProjectValue(server, db, c, rank, n, v, ss)
    decreases n, ss, 1, if NeedsComputed(c) then 1 else 0, v
  {
    ComputedAll(server, c, rank, n, m, ss);
    if v.Arr? {
      var records := ResolveComputed(server, db, c, rank, n, v.items, ss);
      if records.Good? {
        ProjectItemsSame(server, db, c.(computedResolved := true), rank, n, m, records.value, ss);
      }
    } else if v.Obj? {
      var records := ResolveComputed(server, db, c, rank, n, [v], ss);
      if records.Good? {
        ProjectSelectionsSame(server, db, c, rank, n, m, if records.value == [] then Json.Undefined
            else records.value[0], ss, []);
      }
    }
  }

  lemma {:induction false} ProjectItemsSame<Db>(server: Server<Db>, db: Db, c: Context, rank: string -> nat, n: nat,
                                                m: nat, items: seq<Value>, ss: seq<Selection>)
    requires Acyclic(c.fragments, rank) && AllBelow(c.fragments, rank, ss, n) && c.computedResolved
    requires AllBelow(map[], rank, InlineAll(c.fragments, rank, n, ss), m)
    ensures ProjectItems(server, db, Bare(c), rank, m, items, InlineAll(c.fragments, rank, n, ss))
        == ProjectItems(server, db, c, rank, n, items, ss)
    decreases n, ss, 1, 0, items
  {
    if items != [] {
      ProjectValueSame(server, db, c, rank, n, m, items[0], ss);
      ProjectItemsSame(server, db, c, rank, n, m, items[1..], ss);
    }
  }

  lemma {:induction false} ProjectSelectionsSame<Db>(server: Server<Db>, db: Db, c: Context, rank: string -> nat,
                                                     n: nat, m: nat, v: Value, ss: seq<Selection>,
                                                     projected: seq<Json.Field>)
    requires Acyclic(c.fragments, rank) && AllBelow(c.fragments, rank, ss, n)
    requires AllBelow(map[], rank, InlineAll(c.fragments, rank, n, ss), m)
    ensures ProjectSelections(server, db, Bare(c), rank, m, v, InlineAll(c.fragments, rank, n, ss), projected)
         == ProjectSelections(server, db, c, rank, n, v, ss, projected)
    decreases n, ss, 0
  {
    if ss != [] {
      var r := InlineAll(c.fragments, rank, n, ss);
      assert r[0] == Inline(c.fragments, rank, n, ss[0]) && r[1..] == InlineAll(c.fragments, rank, n, ss[1..]);
      ProjectSelectionSame(server, db, c, rank, n, m, v, ss[0], projected);
      var first := ProjectSelection(server, db, c, rank, n, v, ss[0], projected);
      if first.Good? {
        ProjectSelectionsSame(server, db, c, rank, n, m, v, ss[1..], first.value);
      }
    }
  }

  lemma {:induction false} ProjectSelectionSame<Db>(server: Server<Db>, db: Db, c: Context, rank: string -> nat,
                                                    n: nat, m: nat, v: Value, s: Selection,
                                                    projected: seq<Json.Field>)
    requires Acyclic(c.fragments, rank) && SpreadsBelow(c.fragments, rank, s, n)
    requires SpreadsBelow(map[], rank, Inline(c.fragments, rank, n, s), m)
    ensures ProjectSelection(server, db, Bare(c), rank, m, v, Inline(c.fragments, rank, n, s), projected)
         == ProjectSelection(server, db, c, rank, n, v, s, projected)
    decreases n, s, 0
  {
    match s
    case FragmentSpread(name, _) =>
      if name in c.fragments { ProjectSpreadSame(server, db, c, rank, n, m, v, s, projected); }
    case InlineFragment(_, _, ss) =>
      NoFragmentsAllBelow(rank, InlineAll(c.fragments, rank, n, ss), m);
      ProjectSelectionsSame(server, db, c, rank, n, m, v, ss, projected);
    case Field(_, name, _, _, set_) =>
      if set_.Set? {
        NoFragmentsAllBelow(rank, InlineAll(c.fragments, rank, n, set_.selections), m);
        ProjectValueSame(server, db, c.(resource := None, typeName := None), rank, n, m, Property(v, name),
            set_.selections);
      }
  }

  lemma {:induction false} ProjectSpreadSame<Db>(server: Server<Db>, db: Db, c: Context, rank: string -> nat, n: nat,
                                                 m: nat, v: Value, s: Selection,
                                                 projected: seq<Json.Field>)
    requires Acyclic(c.fragments, rank) && SpreadsBelow(c.fragments, rank, s, n)
    requires s.FragmentSpread? && s.name in c.fragments
    requires SpreadsBelow(map[], rank, Inline(c.fragments, rank, n, s), m)
    ensures ProjectSelection(server, db, Bare(c), rank, m, v, Inline(c.fragments, rank, n, s), projected)
         == ProjectSelection(server, db, c, rank, n, v, s, projected)
    decreases rank(s.name), c.fragments[s.name].selectionSet, 1
  {
    var f := c.fragments[s.name];
    var inner := InlineAll(c.fragments, rank, rank(s.name), f.selectionSet);
    NoFragmentsAllBelow(rank, inner, m);
    ProjectSelectionsSame(server, db, c, rank, rank(s.name), m, v, f.selectionSet, projected);
    ProjectWrapper(server, db, Bare(c), rank, m, v, f.directives, inner, projected);
  }

  lemma ProjectWrapper<Db>(server: Server<Db>, db: Db, c: Context, rank: string -> nat, m: nat, v: Value,
                           ds: seq<Directive>,
                           inner: seq<Selection>, projected: seq<Json.Field>)
    requires Acyclic(c.fragments, rank) && AllBelow(c.fragments, rank, inner, m)
    ensures AllBelow(c.fragments, rank, [InlineFragment(None, ds, inner)], m)
    ensures ProjectSelections(server, db, c, rank, m, v, [InlineFragment(None, ds, inner)], projected)
         == match ShouldInclude(ds, server.variables)
            case Bad(e) => Bad(e)
            case Good(b) => if b then ProjectSelections(server, db, c, rank, m, v, inner, projected)
                else Good(projected)
  {
    assert [InlineFragment(None, ds, inner)][1..] == [];
  }

  // ---------------------------------------------------------------- root selections

  lemma {:induction false} ExecuteSelectionsSame<Db>(server: Server<Db>, db: Db, operation: string, c: Context,
                                                     rank: string -> nat, n: nat, m: nat,
                                                     ss: seq<Selection>, data: seq<Json.Field>)
    requires Acyclic(c.fragments, rank) && AllBelow(c.fragments, rank, ss, n)
    requires AllBelow(map[], rank, InlineAll(c.fragments, rank, n, ss), m)
    ensures ExecuteSelections(server, db, operation, Bare(c), rank, m, InlineAll(c.fragments, rank, n, ss), data)
         == ExecuteSelections(server, db, operation, c, rank, n, ss, data)
    decreases n, ss, 0
  {
    if ss != [] {
      var r := InlineAll(c.fragments, rank, n, ss);
      assert r[0] == Inline(c.fragments, rank, n, ss[0]) && r[1..] == InlineAll(c.fragments, rank, n, ss[1..]);
      ExecuteSelectionSame(server, db, operation, c, rank, n, m, ss[0], data);
      var first := ExecuteSelection(server, db, operation, c, rank, n, ss[0], data);
      if first.data.Good? {
        ExecuteSelectionsSame(server, first.db, operation, c, rank, n, m, ss[1..], first.data.value);
      }
    }
  }

  lemma {:induction false} ExecuteSelectionSame<Db>(server: Server<Db>, db: Db, operation: string, c: Context,
                                                    rank: string -> nat, n: nat, m: nat,
                                                    s: Selection, data: seq<Json.Field>)
    requires Acyclic(c.fragments, rank) && SpreadsBelow(c.fragments, rank, s, n)
    requires SpreadsBelow(map[], rank, Inline(c.fragments, rank, n, s), m)
    ensures ExecuteSelection(server, db, operation, Bare(c), rank, m, Inline(c.fragments, rank, n, s), data)
         == ExecuteSelection(server, db, operation, c, rank, n, s, data)
    decreases n, s, 0
  {
    match s
    case FragmentSpread(name, _) =>
      if name in c.fragments { ExecuteSpreadSame(server, db, operation, c, rank, n, m, s, data); }
    case InlineFragment(_, _, ss) =>
      NoFragmentsAllBelow(rank, InlineAll(c.fragments, rank, n, ss), m);
      ExecuteSelectionsSame(server, db, operation, c, rank, n, m, ss, data);
    case Field(_, name, args, _, set_) =>
      var (db', result) := server.field(db, operation, name, args);
      if set_.Set? && result.Good? {
        NoFragmentsAllBelow(rank, InlineAll(c.fragments, rank, n, set_.selections), m);
        ProjectValueSame(server, db', FieldContext(c, result.value), rank, n, m, result.value.value, set_.selections);
      }
  }

  lemma {:induction false} ExecuteSpreadSame<Db>(server: Server<Db>, db: Db, operation: string, c: Context,
                                                 rank: string -> nat, n: nat, m: nat,
                                                 s: Selection, data: seq<Json.Field>)
    requires Acyclic(c.fragments, rank) && SpreadsBelow(c.fragments, rank, s, n)
    requires s.FragmentSpread? && s.name in c.fragments
    requires SpreadsBelow(map[], rank, Inline(c.fragments, rank, n, s), m)
    ensures ExecuteSelection(server, db, operation, Bare(c), rank, m, Inline(c.fragments, rank, n, s), data)
         == ExecuteSelection(server, db, operation, c, rank, n, s, data)
    decreases rank(s.name), c.fragments[s.name].selectionSet, 1
  {
    var f := c.fragments[s.name];
    var inner := InlineAll(c.fragments, rank, rank(s.name), f.selectionSet);
    NoFragmentsAllBelow(rank, inner, m);
    ExecuteSelectionsSame(server, db, operation, c, rank, rank(s.name), m, f.selectionSet, data);
    ExecuteWrapper(server, db, operation, Bare(c), rank, m, f.directives, inner, data);
  }

  lemma ExecuteWrapper<Db>(server: Server<Db>, db: Db, operation: string, c: Context, rank: string -> nat, m: nat,
                           ds: seq<Directive>, inner: seq<Selection>, data: seq<Json.Field>)
    requires Acyclic(c.fragments, rank) && AllBelow(c.fragments, rank, inner, m)
    ensures AllBelow(c.fragments, rank, [InlineFragment(None, ds, inner)], m)
    ensures ExecuteSelections(server, db, operation, c, rank, m, [InlineFragment(None, ds, inner)], data)
         == match ShouldInclude(ds, server.variables)
            case Bad(e) => Run(db, Bad(e))
            case Good(b) =>
              if b then ExecuteSelections(server, db, operation, c, rank, m, inner, data) else Run(db, Good(data))
  {
    assert [InlineFragment(None, ds, inner)][1..] == [];
  }

  // ---------------------------------------------------------------- documents

  function InlineOperation(fragments: Fragments, rank: string -> nat, n: nat, op: Operation): Operation
    requires Acyclic(fragments, rank) && AllBelow(fragments, rank, op.selectionSet, n)
  {
    op.(selectionSet := InlineAll(fragments, rank, n, op.selectionSet))
  }

  function InlineOperations(fragments: Fragments, rank: string -> nat, n: nat, ops: seq<Operation>): (r: seq<Operation>)
    requires Acyclic(fragments, rank) && forall op | op in ops :: AllBelow(fragments, rank, op.selectionSet, n)
    ensures |r| == |ops|
    ensures forall i | 0 <= i < |ops| :: r[i] == InlineOperation(fragments, rank, n, ops[i])
  {
    if ops == [] then []
    else [InlineOperation(fragments, rank, n, ops[0])] + InlineOperations(fragments, rank, n, ops[1..])
  }

  function InlineDocument(d: Document, rank: string -> nat, n: nat): Document
    requires DocumentAcyclic(d, rank, n)
  {
    var fragments := FragmentMap(d.fragments);
    Document(d.operation, d.name, InlineAll(fragments, rank, n, d.selectionSet),
             if d.operations == [] then [] else InlineOperations(fragments, rank, n, d.operations), [])
  }

  lemma {:induction false} FindInlined(fragments: Fragments, rank: string -> nat, n: nat, ops: seq<Operation>,
                                       name: string)
    requires Acyclic(fragments, rank) && forall op | op in ops :: AllBelow(fragments, rank, op.selectionSet, n)
    ensures FindOperation(ops, name).Good? ==> AllBelow(fragments, rank, FindOperation(ops, name).value.selectionSet, n)
    ensures FindOperation(InlineOperations(fragments, rank, n, ops), name)
         == match FindOperation(ops, name)
            case Good(op) => Good(InlineOperation(fragments, rank, n, op))
            case Bad(e) => Bad(e)
  {
    if ops != [] {
      assert AllBelow(fragments, rank, ops[0].selectionSet, n);
      FindInlined(fragments, rank, n, ops[1..], name);
      assert InlineOperations(fragments, rank, n, ops)[1..] == InlineOperations(fragments, rank, n, ops[1..]);
    }
  }

  /** Every document with acyclic fragments executes as its inlined form, which defines none: same
      data, same error, same database after the same mutations, from every database. */
  lemma InliningPreservesExecution<Db>(server: Server<Db>, db: Db, d: Document, operationName: string,
                                       rank: string -> nat, n: nat)
    requires DocumentAcyclic(d, rank, n)
    ensures DocumentAcyclic(InlineDocument(d, rank, n), rank, 0)
    ensures ExecuteDocument(server, db, InlineDocument(d, rank, n), operationName, rank, 0)
         == ExecuteDocument(server, db, d, operationName, rank, n)
  {
    var fragments := FragmentMap(d.fragments);
    var e := InlineDocument(d, rank, n);
    OperationsInlined(d, rank, n);
    NoFragmentsAllBelow(rank, e.selectionSet, 0);
    forall op | op in OperationsOf(e) ensures AllBelow(map[], rank, op.selectionSet, 0) {
      NoFragmentsAllBelow(rank, op.selectionSet, 0);
    }
    FindInlined(fragments, rank, n, OperationsOf(d), operationName);
    match SelectOperation(d, operationName)
    case Bad(_) =>
    case Good(op) =>
      assert AllBelow(fragments, rank, op.selectionSet, n) by {
        assert operationName == "" ==> op == OperationsOf(d)[0];
      }
      assert SelectOperation(e, operationName) == Good(InlineOperation(fragments, rank, n, op));
      NoFragmentsAllBelow(rank, InlineAll(fragments, rank, n, op.selectionSet), 0);
      var c := Context(fragments, Some(if op.operation == "mutation" then "Mutation" else "Query"), None, false);
      ExecuteSelectionsSame(server, db, op.operation, c, rank, n, 0, op.selectionSet, []);
  }

  lemma OperationsInlined(d: Document, rank: string -> nat, n: nat)
    requires DocumentAcyclic(d, rank, n)
    ensures OperationsOf(InlineDocument(d, rank, n))
        == InlineOperations(FragmentMap(d.fragments), rank, n, OperationsOf(d))
  {
  }
}
