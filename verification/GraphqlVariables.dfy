/** Variables that differ only in the order of object keys: executing a document with one or with the other
    is the same, for operations whose root fields do not look at that order. */
module GraphqlVariables {
  import opened Options
  import opened GraphqlSyntax
  import opened GraphqlExecute
  import opened CanonicalText
  import Json

  type Variables = map<string, Value>

  ghost predicate SameVariables(a: Variables, b: Variables) {
    a.Keys == b.Keys && forall name | name in a :: Reordered(a[name], b[name])
  }

  // ---------------------------------------------------------------- arguments and directives

  ghost predicate SameOutcome(a: Outcome<Value>, b: Outcome<Value>) {
    match (a, b)
    case (Good(v), Good(w)) => Reordered(v, w)
    case _ => a == b
  }

  lemma {:induction false} EvaluateAlike(node: ValueNode, a: Variables, b: Variables)
    requires SameVariables(a, b)
    ensures SameOutcome(EvaluateValue(node, a), EvaluateValue(node, b))
  {
    match node
    case Variable(name) =>
    case Literal(value) =>
    case ListNode(values) => EvaluateItemsAlike(values, a, b);
    case ObjectNode(fields) =>
      EvaluateFieldsAlike(fields, a, b);
      var fs, gs := EvaluateFields(fields, a), EvaluateFields(fields, b);
      if fs.Good? { FieldsReordered(fs.value, gs.value); }
  }

  lemma FieldsReordered(fs: seq<Json.Field>, gs: seq<Json.Field>)
    requires |fs| == |gs|
    requires forall i | 0 <= i < |fs| :: fs[i].key == gs[i].key && Reordered(fs[i].val, gs[i].val)
    ensures Reordered(Json.Obj(fs), Json.Obj(gs))
  {
    forall f | f in fs ensures HasReordered(f, gs) {
      var i :| 0 <= i < |fs| && fs[i] == f;
      assert gs[i] in gs;
    }
    forall g | g in gs ensures IsReordered(fs, g) {
      var i :| 0 <= i < |gs| && gs[i] == g;
      assert fs[i] in fs;
    }
  }

  lemma {:induction false} EvaluateItemsAlike(values: seq<ValueNode>, a: Variables, b: Variables)
    requires SameVariables(a, b)
    ensures match (EvaluateValues(values, a), EvaluateValues(values, b))
            case (Good(xs), Good(ys)) => |xs| == |ys| && forall i | 0 <= i < |xs| :: Reordered(xs[i], ys[i])
            case (x, y) => x == y
  {
    if values != [] {
      EvaluateAlike(values[0], a, b);
      EvaluateItemsAlike(values[1..], a, b);
    }
  }

  lemma {:induction false} EvaluateFieldsAlike(fields: seq<Argument>, a: Variables, b: Variables)
    requires SameVariables(a, b)
    ensures match (EvaluateFields(fields, a), EvaluateFields(fields, b))
            case (Good(fs), Good(gs)) =>
              |fs| == |gs| && forall i | 0 <= i < |fs| :: fs[i].key == gs[i].key && Reordered(fs[i].val, gs[i].val)
            case (x, y) => x == y
  {
    if fields != [] {
      EvaluateAlike(fields[0].value, a, b);
      EvaluateFieldsAlike(fields[1..], a, b);
    }
  }

  lemma ConditionAlike(d: Directive, a: Variables, b: Variables)
    requires SameVariables(a, b)
    ensures DirectiveCondition(d, a) == DirectiveCondition(d, b)
  {
    var node := ArgumentNamed(d.arguments, "if");
    if node.Some? { EvaluateAlike(node.value, a, b); }
  }

  /** `@skip` and `@include` see no order. */
  lemma {:induction false} IncludeAlike(ds: seq<Directive>, a: Variables, b: Variables)
    requires SameVariables(a, b)
    ensures ShouldInclude(ds, a) == ShouldInclude(ds, b)
  {
    if ds != [] {
      ConditionAlike(ds[0], a, b);
      IncludeAlike(ds[1..], a, b);
    }
  }

  // ---------------------------------------------------------------- execution

  /** Two servers that differ in nothing an operation of this kind can see. */
  ghost predicate Alike<Db(!new)>(a: Server<Db>, b: Server<Db>, operation: string) {
    && (forall db, name, args :: a.field(db, operation, name, args) == b.field(db, operation, name, args))
    && a.computed == b.computed && a.resolve == b.resolve
    && SameIncluded(a, b)
  }

  ghost predicate SameIncluded<Db(!new)>(a: Server<Db>, b: Server<Db>) {
    forall ds :: ShouldInclude(ds, a.variables) == ShouldInclude(ds, b.variables)
  }

  lemma {:induction false} ComputedAlike<Db(!new)>(a: Server<Db>, b: Server<Db>, c: Context, rank: string -> nat,
                                                   n: nat, ss: seq<Selection>)
    requires Acyclic(c.fragments, rank) && AllBelow(c.fragments, rank, ss, n)
    requires a.computed == b.computed && SameIncluded(a, b)
    ensures SelectedComputed(a, c, rank, n, ss) == SelectedComputed(b, c, rank, n, ss)
    decreases n, ss, 0
  {
    if ss != [] {
      ComputedOneAlike(a, b, c, rank, n, ss[0]);
      ComputedAlike(a, b, c, rank, n, ss[1..]);
    }
  }

  lemma {:induction false} ComputedOneAlike<Db(!new)>(a: Server<Db>, b: Server<Db>, c: Context, rank: string -> nat,
                                                      n: nat, s: Selection)
    requires Acyclic(c.fragments, rank) && SpreadsBelow(c.fragments, rank, s, n)
    requires a.computed == b.computed && SameIncluded(a, b)
    ensures SelectedComputedOne(a, c, rank, n, s) == SelectedComputedOne(b, c, rank, n, s)
    decreases n, s, 0
  {
    match s
    case FragmentSpread(name, _) =>
      if name in c.fragments { ComputedAlike(a, b, c, rank, rank(name), c.fragments[name].selectionSet); }
    case InlineFragment(_, _, ss) => ComputedAlike(a, b, c, rank, n, ss);
    case Field(_, _, _, _, _) =>
  }

  lemma {:induction false} ProjectValueAlike<Db(!new)>(a: Server<Db>, b: Server<Db>, operation: string, db: Db,
                                                       c: Context, rank: string -> nat, n: nat, v: Value,
                                                       ss: seq<Selection>)
    requires Acyclic(c.fragments, rank) && AllBelow(c.fragments, rank, ss, n) && Alike(a, b, operation)
    ensures ProjectValue(a, db, c, rank, n, v, ss) == ProjectValue(b, db, c, rank, n, v, ss)
    decreases n, ss, 1, if NeedsComputed(c) then 1 else 0, v
  {
    ComputedAlike(a, b, c, rank, n, ss);
    if v.Arr? {
      var records := ResolveComputed(a, db, c, rank, n, v.items, ss);
      if records.Good? {
        ProjectItemsAlike(a, b, operation, db, c.(computedResolved := true), rank, n, records.value, ss);
      }
    } else if v.Obj? {
      var records := ResolveComputed(a, db, c, rank, n, [v], ss);
      if records.Good? {
        ProjectSelectionsAlike(a, b, operation, db, c, rank, n,
                               if records.value == [] then Json.Undefined else records.value[0], ss, []);
      }
    }
  }

  lemma {:induction false} ProjectItemsAlike<Db(!new)>(a: Server<Db>, b: Server<Db>, operation: string, db: Db,
                                                       c: Context, rank: string -> nat, n: nat, items: seq<Value>,
                                                       ss: seq<Selection>)
    requires Acyclic(c.fragments, rank) && AllBelow(c.fragments, rank, ss, n) && c.computedResolved
    requires Alike(a, b, operation)
    ensures ProjectItems(a, db, c, rank, n, items, ss) == ProjectItems(b, db, c, rank, n, items, ss)
    decreases n, ss, 1, 0, items
  {
    if items != [] {
      ProjectValueAlike(a, b, operation, db, c, rank, n, items[0], ss);
      ProjectItemsAlike(a, b, operation, db, c, rank, n, items[1..], ss);
    }
  }

  lemma {:induction false} ProjectSelectionsAlike<Db(!new)>(a: Server<Db>, b: Server<Db>, operation: string, db: Db,
                                                            c: Context, rank: string -> nat, n: nat, v: Value,
                                                            ss: seq<Selection>, projected: seq<Json.Field>)
    requires Acyclic(c.fragments, rank) && AllBelow(c.fragments, rank, ss, n) && Alike(a, b, operation)
    ensures ProjectSelections(a, db, c, rank, n, v, ss, projected)
         == ProjectSelections(b, db, c, rank, n, v, ss, projected)
    decreases n, ss, 0
  {
    if ss != [] {
      ProjectSelectionAlike(a, b, operation, db, c, rank, n, v, ss[0], projected);
      var first := ProjectSelection(a, db, c, rank, n, v, ss[0], projected);
      if first.Good? { ProjectSelectionsAlike(a, b, operation, db, c, rank, n, v, ss[1..], first.value); }
    }
  }

  lemma {:induction false} ProjectSelectionAlike<Db(!new)>(a: Server<Db>, b: Server<Db>, operation: string, db: Db,
                                                           c: Context, rank: string -> nat, n: nat, v: Value,
                                                           s: Selection, projected: seq<Json.Field>)
    requires Acyclic(c.fragments, rank) && SpreadsBelow(c.fragments, rank, s, n) && Alike(a, b, operation)
    ensures ProjectSelection(a, db, c, rank, n, v, s, projected)
         == ProjectSelection(b, db, c, rank, n, v, s, projected)
    decreases n, s, 0
  {
    match s
    case FragmentSpread(name, _) =>
      if name in c.fragments {
        ProjectSelectionsAlike(a, b, operation, db, c, rank, rank(name), v, c.fragments[name].selectionSet, projected);
      }
    case InlineFragment(_, _, ss) => ProjectSelectionsAlike(a, b, operation, db, c, rank, n, v, ss, projected);
    case Field(_, name, _, _, set_) =>
      if set_.Set? {
        ProjectValueAlike(a, b, operation, db, c.(resource := None, typeName := None), rank, n, Property(v, name),
                          set_.selections);
      }
  }

  lemma {:induction false} ExecuteSelectionsAlike<Db(!new)>(a: Server<Db>, b: Server<Db>, operation: string, db: Db,
                                                            c: Context, rank: string -> nat, n: nat,
                                                            ss: seq<Selection>, data: seq<Json.Field>)
    requires Acyclic(c.fragments, rank) && AllBelow(c.fragments, rank, ss, n) && Alike(a, b, operation)
    ensures ExecuteSelections(a, db, operation, c, rank, n, ss, data)
         == ExecuteSelections(b, db, operation, c, rank, n, ss, data)
    decreases n, ss, 0
  {
    if ss != [] {
      ExecuteSelectionAlike(a, b, operation, db, c, rank, n, ss[0], data);
      var first := ExecuteSelection(a, db, operation, c, rank, n, ss[0], data);
      if first.data.Good? {
        ExecuteSelectionsAlike(a, b, operation, first.db, c, rank, n, ss[1..], first.data.value);
      }
    }
  }

  lemma {:induction false} ExecuteSelectionAlike<Db(!new)>(a: Server<Db>, b: Server<Db>, operation: string, db: Db,
                                                           c: Context, rank: string -> nat, n: nat, s: Selection,
                                                           data: seq<Json.Field>)
    requires Acyclic(c.fragments, rank) && SpreadsBelow(c.fragments, rank, s, n) && Alike(a, b, operation)
    ensures ExecuteSelection(a, db, operation, c, rank, n, s, data)
         == ExecuteSelection(b, db, operation, c, rank, n, s, data)
    decreases n, s, 0
  {
    match s
    case FragmentSpread(name, _) =>
      if name in c.fragments {
        ExecuteSelectionsAlike(a, b, operation, db, c, rank, rank(name), c.fragments[name].selectionSet, data);
      }
    case InlineFragment(_, _, ss) => ExecuteSelectionsAlike(a, b, operation, db, c, rank, n, ss, data);
    case Field(_, name, args, _, set_) =>
      var (db', result) := a.field(db, operation, name, args);
      assert b.field(db, operation, name, args) == (db', result);
      if set_.Set? && result.Good? {
        ProjectValueAlike(a, b, operation, db', FieldContext(c, result.value), rank, n, result.value.value,
                          set_.selections);
      }
  }

  /** A document runs alike on both servers, by the operation selected. */
  lemma ExecuteDocumentAlike<Db(!new)>(a: Server<Db>, b: Server<Db>, db: Db, d: Document, operationName: string,
                                       rank: string -> nat, n: nat)
    requires DocumentAcyclic(d, rank, n)
    requires SelectOperation(d, operationName).Good?
         ==> Alike(a, b, SelectOperation(d, operationName).value.operation)
    ensures ExecuteDocument(a, db, d, operationName, rank, n) == ExecuteDocument(b, db, d, operationName, rank, n)
  {
    match SelectOperation(d, operationName)
    case Bad(_) =>
    case Good(op) =>
      if operationName != "" { FoundOperation(OperationsOf(d), operationName); }
      assert op in OperationsOf(d);
      var c := Context(FragmentMap(d.fragments), Some(if op.operation == "mutation" then "Mutation" else "Query"),
          None, false);
      ExecuteSelectionsAlike(a, b, op.operation, db, c, rank, n, op.selectionSet, []);
  }
}
