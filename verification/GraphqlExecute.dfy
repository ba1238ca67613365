/** Executing a document: selections, fragments, directives and the projection of results.  Access
    to the database is a parameter, so a run is described by the sequence of states it leaves. */
module GraphqlExecute {
  import opened Options
  import opened Decimal
  import opened GraphqlSyntax
  import Json

  type Value = Json.Value

  datatype Error =
    | UnsupportedDirective(name: string)
    | MissingIf
    | InvalidIf
    | MissingVariable(name: string)
    | UnknownFragment(name: string)
    | UnknownOperation
    | OperationNameRequired
    | FieldFailed(code: string)

  datatype Outcome<+T> = Good(value: T) | Bad(error: Error)

  /** What `executeQueryField` and `executeMutationField` hand back. */
  datatype FieldValue = FieldValue(value: Value, typeName: Option<string>, resource: Option<string>)

  /** The server: `field` runs one root field of an operation, `computed` says which fields of a
      resource are computed, `resolve` computes them for some records. */
  datatype Server<!Db> = Server(
    field: (Db, string, string, seq<Argument>) -> (Db, Outcome<FieldValue>),
    computed: (string, string) -> bool,
    resolve: (Db, string, seq<Value>, seq<string>) -> Outcome<seq<Value>>,
    variables: map<string, Value>)

  type Fragments = map<string, Fragment>

  datatype Context = Context(fragments: Fragments, typeName: Option<string>, resource: Option<string>,
      computedResolved: bool)

  // ---------------------------------------------------------------- directives

  /** A scalar as a value; NaN is written as the number text "-". */
  function ScalarToValue(v: Scalar): Value {
    match v
    case StringValue(s) => Json.Str(s)
    case IntValue(n) =>
      assert Json.IsNumberText(IntText(n)) by {
        forall c | c in IntText(n) ensures '0' <= c <= '9' || c in "+-.e" {
          assert c == '-' || IsDigit(c);
        }
        assert n >= 0 ==> IsDigit(NatText(n)[0]);
      }
      Json.Num(IntText(n))
    case DecimalValue(text) => if Json.IsNumberText(text) then Json.Num(text) else Json.Num("-")
    case NaN => Json.Num("-")
    case BoolValue(b) => Json.Bool(b)
    case NullValue => Json.Null
  }

  function EvaluateValue(v: ValueNode, variables: map<string, Value>): Outcome<Value> {
    match v
    case Variable(name) => if name in variables then Good(variables[name]) else Bad(MissingVariable(name))
    case Literal(value) => Good(ScalarToValue(value))
    case ListNode(values) =>
      (match EvaluateValues(values, variables) case Good(r) => Good(Json.Arr(r)) case Bad(e) => Bad(e))
    case ObjectNode(fields) =>
      (match EvaluateFields(fields, variables) case Good(r) => Good(Json.Obj(r)) case Bad(e) => Bad(e))
  }

  function EvaluateValues(values: seq<ValueNode>, variables: map<string, Value>): Outcome<seq<Value>> {
    if values == [] then Good([])
    else
      match EvaluateValue(values[0], variables)
      case Bad(e) => Bad(e)
      case Good(v) =>
        match EvaluateValues(values[1..], variables)
        case Good(r) => Good([v] + r)
        case Bad(e) => Bad(e)
  }

  function EvaluateFields(fields: seq<Argument>, variables: map<string, Value>): Outcome<seq<Json.Field>> {
    if fields == [] then Good([])
    else
      match EvaluateValue(fields[0].value, variables)
      case Bad(e) => Bad(e)
      case Good(v) =>
        match EvaluateFields(fields[1..], variables)
        case Good(r) => Good([Json.Field(fields[0].name, v)] + r)
        case Bad(e) => Bad(e)
  }

  function ArgumentNamed(args: seq<Argument>, name: string): Option<ValueNode> {
    if args == [] then None
    else if args[0].name == name then Some(args[0].value)
    else ArgumentNamed(args[1..], name)
  }

  function DirectiveCondition(d: Directive, variables: map<string, Value>): Outcome<bool> {
    match ArgumentNamed(d.arguments, "if")
    case None => Bad(MissingIf)
    case Some(node) =>
      match EvaluateValue(node, variables)
      case Bad(e) => Bad(e)
      case Good(v) => if v.Bool? then Good(v.b) else Bad(InvalidIf)
  }

  function ShouldInclude(ds: seq<Directive>, variables: map<string, Value>): Outcome<bool> {
    if ds == [] then Good(true)
    else
      match DirectiveCondition(ds[0], variables)
      case Bad(e) => Bad(e)
      case Good(condition) =>
        if ds[0].name == "skip" then
          if condition then Good(false) else ShouldInclude(ds[1..], variables)
        else if ds[0].name == "include" then
          if !condition then Good(false) else ShouldInclude(ds[1..], variables)
        else Bad(UnsupportedDirective(ds[0].name))
  }

  predicate TypeConditionApplies(typeCondition: Option<string>, typeName: Option<string>) {
    || typeCondition.None? || typeCondition.value == ""
    || typeName.None? || typeName.value == ""
    || typeCondition.value == typeName.value
  }

  // ---------------------------------------------------------------- acyclic fragments

  /** Every defined fragment spread in `s` is ranked below `n`. */
  predicate SpreadsBelow(fragments: Fragments, rank: string -> nat, s: Selection, n: nat) {
    match s
    case FragmentSpread(name, _) => name in fragments ==> rank(name) < n
    case InlineFragment(_, _, ss) => forall x | x in ss :: SpreadsBelow(fragments, rank, x, n)
    case Field(_, _, _, _, set_) =>
      (match set_ case NoSet => true case Set(ss) => forall x | x in ss :: SpreadsBelow(fragments, rank, x, n))
  }

  predicate AllBelow(fragments: Fragments, rank: string -> nat, ss: seq<Selection>, n: nat) {
    forall x | x in ss :: SpreadsBelow(fragments, rank, x, n)
  }

  /** No fragment leads back to itself: spreads go down in rank. */
  ghost predicate Acyclic(fragments: Fragments, rank: string -> nat) {
    forall name | name in fragments :: AllBelow(fragments, rank, fragments[name].selectionSet, rank(name))
  }

  // ---------------------------------------------------------------- computed fields

  function SelectedComputed<Db>(server: Server<Db>, c: Context, rank: string -> nat, n: nat,
                                ss: seq<Selection>): Outcome<seq<string>>
    requires Acyclic(c.fragments, rank) && AllBelow(c.fragments, rank, ss, n)
    decreases n, ss, 0
  {
    if ss == [] then Good([])
    else
      match SelectedComputedOne(server, c, rank, n, ss[0])
      case Bad(e) => Bad(e)
      case Good(names) =>
        match SelectedComputed(server, c, rank, n, ss[1..])
        case Good(more) => Good(names + more)
        case Bad(e) => Bad(e)
  }

  function SelectedComputedOne<Db>(server: Server<Db>, c: Context, rank: string -> nat, n: nat,
                                   s: Selection): Outcome<seq<string>>
    requires Acyclic(c.fragments, rank) && SpreadsBelow(c.fragments, rank, s, n)
    decreases n, s, 0
  {
    match ShouldInclude(s.directives, server.variables)
    case Bad(e) => Bad(e)
    case Good(included) =>
      if !included then Good([])
      else
        match s
        case FragmentSpread(name, _) =>
          if name !in c.fragments then Bad(UnknownFragment(name))
          else
            var f := c.fragments[name];
            if !TypeConditionApplies(Some(f.typeCondition), c.typeName) then Good([])
            else
              (match ShouldInclude(f.directives, server.variables)
               case Bad(e) => Bad(e)
               case Good(b) => if b then SelectedComputed(server, c, rank, rank(name), f.selectionSet) else Good([]))
        case InlineFragment(typeCondition, _, ss) =>
          if TypeConditionApplies(typeCondition, c.typeName) then SelectedComputed(server, c, rank, n, ss) else Good([])
        case Field(_, name, _, _, _) =>
          if name != "__typename" && c.resource.Some? && server.computed(c.resource.value, name) then Good([name])
              else Good([])
  }

  // ---------------------------------------------------------------- projection

  predicate NeedsComputed(c: Context) {
    c.resource.Some? && !c.computedResolved
  }

  function ResolveComputed<Db>(server: Server<Db>, db: Db, c: Context, rank: string -> nat, n: nat,
                               records: seq<Value>, ss: seq<Selection>): Outcome<seq<Value>>
    requires Acyclic(c.fragments, rank) && AllBelow(c.fragments, rank, ss, n)
  {
    if !NeedsComputed(c) then Good(records)
    else
      match SelectedComputed(server, c, rank, n, ss)
      case Bad(e) => Bad(e)
      case Good(names) => server.resolve(db, c.resource.value, records, names)
  }

  function Property(v: Value, name: string): Value {
    if v.Obj? then Json.Get(v.fields, name) else Json.Undefined
  }

  function ProjectValue<Db>(server: Server<Db>, db: Db, c: Context, rank: string -> nat, n: nat, v: Value,
                            ss: seq<Selection>): Outcome<Value>
    requires Acyclic(c.fragments, rank) && AllBelow(c.fragments, rank, ss, n)
    decreases n, ss, 1, if NeedsComputed(c) then 1 else 0, v
  {
    if v.Arr? then
      match ResolveComputed(server, db, c, rank, n, v.items, ss)
      case Bad(e) => Bad(e)
      case Good(records) =>
        match ProjectItems(server, db, c.(computedResolved := true), rank, n, records, ss)
        case Good(r) => Good(Json.Arr(r))
        case Bad(e) => Bad(e)
    else if v.Obj? then
      match ResolveComputed(server, db, c, rank, n, [v], ss)
      case Bad(e) => Bad(e)
      case Good(records) =>
        match ProjectSelections(server, db, c, rank, n, if records == [] then Json.Undefined else records[0], ss, [])
        case Good(r) => Good(Json.Obj(r))
        case Bad(e) => Bad(e)
    else Good(v)
  }

  function ProjectItems<Db>(server: Server<Db>, db: Db, c: Context, rank: string -> nat, n: nat, items: seq<Value>,
                            ss: seq<Selection>): Outcome<seq<Value>>
    requires Acyclic(c.fragments, rank) && AllBelow(c.fragments, rank, ss, n)
    requires c.computedResolved
    decreases n, ss, 1, 0, items
  {
    if items == [] then Good([])
    else
      match ProjectValue(server, db, c, rank, n, items[0], ss)
      case Bad(e) => Bad(e)
      case Good(v) =>
        match ProjectItems(server, db, c, rank, n, items[1..], ss)
        case Good(r) => Good([v] + r)
        case Bad(e) => Bad(e)
  }

  function ProjectSelections<Db>(server: Server<Db>, db: Db, c: Context, rank: string -> nat, n: nat, v: Value,
                                 ss: seq<Selection>,
                                 projected: seq<Json.Field>): Outcome<seq<Json.Field>>
    requires Acyclic(c.fragments, rank) && AllBelow(c.fragments, rank, ss, n)
    decreases n, ss, 0
  {
    if ss == [] then Good(projected)
    else
      match ProjectSelection(server, db, c, rank, n, v, ss[0], projected)
      case Bad(e) => Bad(e)
      case Good(next) => ProjectSelections(server, db, c, rank, n, v, ss[1..], next)
  }

  function ResponseKey(alias: Option<string>, name: string): string {
    match alias case Some(a) => a case None => name
  }

  function ProjectSelection<Db>(server: Server<Db>, db: Db, c: Context, rank: string -> nat, n: nat, v: Value,
                                s: Selection,
                                projected: seq<Json.Field>): Outcome<seq<Json.Field>>
    requires Acyclic(c.fragments, rank) && SpreadsBelow(c.fragments, rank, s, n)
    decreases n, s, 0
  {
    match ShouldInclude(s.directives, server.variables)
    case Bad(e) => Bad(e)
    case Good(included) =>
      if !included then Good(projected)
      else
        match s
        case FragmentSpread(name, _) =>
          if name !in c.fragments then Bad(UnknownFragment(name))
          else
            var f := c.fragments[name];
            if !TypeConditionApplies(Some(f.typeCondition), c.typeName) then Good(projected)
            else
              (match ShouldInclude(f.directives, server.variables)
               case Bad(e) => Bad(e)
               case Good(b) =>
                 if b then ProjectSelections(server, db, c, rank, rank(name), v, f.selectionSet, projected)
                     else Good(projected))
        case InlineFragment(typeCondition, _, ss) =>
          if TypeConditionApplies(typeCondition, c.typeName)
          then ProjectSelections(server, db, c, rank, n, v, ss, projected) else Good(projected)
        case Field(alias, name, _, _, set_) =>
          if name == "__typename" then
            Good(Json.Put(projected, ResponseKey(alias, name),
                Json.Str(if c.typeName.Some? then c.typeName.value else "JSON")))
          else
            var inner := c.(resource := None, typeName := None);
            (match (match set_ case NoSet => Good(Property(v, name))
                               case Set(ss) => ProjectValue(server, db, inner, rank, n, Property(v, name), ss))
             case Bad(e) => Bad(e)
             case Good(p) => Good(Json.Put(projected, ResponseKey(alias, name), p)))
  }

  // ---------------------------------------------------------------- root selections

  /** The database after what was executed, and the data or the error that was thrown. */
  datatype Run<+Db> = Run(db: Db, data: Outcome<seq<Json.Field>>)

  function ExecuteSelections<Db>(server: Server<Db>, db: Db, operation: string, c: Context, rank: string -> nat, n: nat,
                                 ss: seq<Selection>, data: seq<Json.Field>): Run<Db>
    requires Acyclic(c.fragments, rank) && AllBelow(c.fragments, rank, ss, n)
    decreases n, ss, 0
  {
    if ss == [] then Run(db, Good(data))
    else
      var first := ExecuteSelection(server, db, operation, c, rank, n, ss[0], data);
      match first.data
      case Bad(e) => first
      case Good(next) => ExecuteSelections(server, first.db, operation, c, rank, n, ss[1..], next)
  }

  function ExecuteSelection<Db>(server: Server<Db>, db: Db, operation: string, c: Context, rank: string -> nat, n: nat,
                                s: Selection, data: seq<Json.Field>): Run<Db>
    requires Acyclic(c.fragments, rank) && SpreadsBelow(c.fragments, rank, s, n)
    decreases n, s, 0
  {
    match ShouldInclude(s.directives, server.variables)
    case Bad(e) => Run(db, Bad(e))
    case Good(included) =>
      if !included then Run(db, Good(data))
      else
        match s
        case FragmentSpread(name, _) =>
          if name !in c.fragments then Run(db, Bad(UnknownFragment(name)))
          else
            var f := c.fragments[name];
            if !TypeConditionApplies(Some(f.typeCondition), c.typeName) then Run(db, Good(data))
            else
              (match ShouldInclude(f.directives, server.variables)
               case Bad(e) => Run(db, Bad(e))
               case Good(b) =>
                 if b then ExecuteSelections(server, db, operation, c, rank, rank(name), f.selectionSet, data)
                 else Run(db, Good(data)))
        case InlineFragment(typeCondition, _, ss) =>
          if TypeConditionApplies(typeCondition, c.typeName)
          then ExecuteSelections(server, db, operation, c, rank, n, ss, data) else Run(db, Good(data))
        case Field(alias, name, args, _, set_) =>
          if name == "__typename" then
            Run(db, Good(Json.Put(data, ResponseKey(alias, name),
                                  if c.typeName.Some? then Json.Str(c.typeName.value) else Json.Undefined)))
          else
            var (db', result) := server.field(db, operation, name, args);
            (match result
             case Bad(e) => Run(db', Bad(e))
             case Good(r) =>
               match (match set_ case NoSet => Good(r.value)
                                 case Set(ss) => ProjectValue(server, db', FieldContext(c, r), rank, n, r.value, ss))
               case Bad(e) => Run(db', Bad(e))
               case Good(p) => Run(db', Good(Json.Put(data, ResponseKey(alias, name), p))))
  }

  function FieldContext(c: Context, r: FieldValue): Context {
    c.(resource := r.resource, typeName := r.typeName)
  }

  // ---------------------------------------------------------------- requests

  function FragmentMap(fs: seq<Fragment>): Fragments {
    if fs == [] then map[] else FragmentMap(fs[..|fs| - 1])[fs[|fs| - 1].name := fs[|fs| - 1]]
  }

  function FindOperation(ops: seq<Operation>, name: string): Outcome<Operation> {
    if ops == [] then Bad(UnknownOperation)
    else if ops[0].name == Some(name) then Good(ops[0])
    else FindOperation(ops[1..], name)
  }

  function OperationsOf(d: Document): seq<Operation> {
    if d.operations == [] then [Operation(d.operation, d.name, [], d.selectionSet)] else d.operations
  }

  function SelectOperation(d: Document, operationName: string): Outcome<Operation> {
    var ops := OperationsOf(d);
    if operationName != "" then FindOperation(ops, operationName)
    else if |ops| == 1 then Good(ops[0])
    else Bad(OperationNameRequired)
  }

  ghost predicate DocumentAcyclic(d: Document, rank: string -> nat, n: nat) {
    var fragments := FragmentMap(d.fragments);
    && Acyclic(fragments, rank)
    && AllBelow(fragments, rank, d.selectionSet, n)
    && forall op | op in OperationsOf(d) :: AllBelow(fragments, rank, op.selectionSet, n)
  }

  lemma {:induction false} FoundOperation(ops: seq<Operation>, name: string)
    requires FindOperation(ops, name).Good?
    ensures FindOperation(ops, name).value in ops
  {
    if ops[0].name != Some(name) { FoundOperation(ops[1..], name); }
  }

  /** `executeGraphqlSingle`, once the source is parsed: the data or the error, and the database
      that is left, which is how many and which mutations ran. */
  function ExecuteDocument<Db>(server: Server<Db>, db: Db, d: Document, operationName: string, rank: string -> nat,
                               n: nat): Run<Db>
    requires DocumentAcyclic(d, rank, n)
  {
    match SelectOperation(d, operationName)
    case Bad(e) => Run(db, Bad(e))
    case Good(op) =>
      var c := Context(FragmentMap(d.fragments), Some(if op.operation == "mutation" then "Mutation" else "Query"),
          None, false);
      assert AllBelow(c.fragments, rank, op.selectionSet, n) by {
        if operationName != "" { FoundOperation(OperationsOf(d), operationName); }
        assert op in OperationsOf(d);
      }
      ExecuteSelections(server, db, op.operation, c, rank, n, op.selectionSet, [])
  }
}
