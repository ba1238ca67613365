/** What executing a selection set comes to: which fields it stands for (section 6.3.2 of the GraphQL
    specification), and what stands under which name in the result. */
module GraphqlMeaning {
  import opened Options
  import opened GraphqlSyntax
  import opened GraphqlExecute
  import Decimal
  import Json

  type Variables = map<string, Value>

  // ---------------------------------------------------------------- `@skip` and `@include`

  predicate OnlyNames(args: seq<Argument>) {
    forall i, j | 0 <= i < j < |args| :: args[i].name != args[j].name
  }

  predicate IsBool(node: ValueNode, vs: Variables, b: bool) {
    node == Literal(BoolValue(b)) || (node.Variable? && node.name in vs && vs[node.name] == Json.Bool(b))
  }

  /** The directive says `if: b`, in so many words or by a variable. */
  predicate Says(d: Directive, vs: Variables, b: bool) {
    exists a | a in d.arguments ::
      a.name == "if" && IsBool(a.value, vs, b)
  }

  predicate SaysNothing(d: Directive) {
    forall a | a in d.arguments :: a.name != "if"
  }

  lemma {:induction false} NamedArgument(args: seq<Argument>, a: Argument)
    requires OnlyNames(args) && a in args
    ensures ArgumentNamed(args, a.name) == Some(a.value)
  {
    if args[0] != a {
      var i :| 0 <= i < |args| && args[i] == a;
      assert args[1..][i - 1] == a;
      NamedArgument(args[1..], a);
    }
  }

  lemma {:induction false} NoArgument(args: seq<Argument>, name: string)
    ensures ArgumentNamed(args, name).None? <==> forall a | a in args :: a.name != name
    ensures ArgumentNamed(args, name).Some? ==> Argument(name, ArgumentNamed(args, name).value) in args
  {
    if args != [] { NoArgument(args[1..], name); }
  }

  lemma ConditionExactly(d: Directive, vs: Variables, b: bool)
    requires OnlyNames(d.arguments)
    ensures DirectiveCondition(d, vs) == Good(b) <==> Says(d, vs, b)
    ensures DirectiveCondition(d, vs) == Bad(MissingIf) <==> SaysNothing(d)
  {
    NoArgument(d.arguments, "if");
    if Says(d, vs, b) {
      var a :| a in d.arguments && a.name == "if" && IsBool(a.value, vs, b);
      NamedArgument(d.arguments, a);
    }
    var node := ArgumentNamed(d.arguments, "if");
    if node.Some? {
      assert Argument("if", node.value) in d.arguments;
      NoMissingIf(node.value, vs);
      if DirectiveCondition(d, vs) == Good(b) { OnlyBooleans(node.value, vs, b); }
    }
  }

  lemma {:induction false} NoMissingIf(node: ValueNode, vs: Variables)
    ensures EvaluateValue(node, vs) != Bad(MissingIf)
  {
    match node
    case ListNode(values) => NoMissingIfs(values, vs);
    case ObjectNode(fields) => NoMissingIfFields(fields, vs);
    case _ =>
  }

  lemma {:induction false} NoMissingIfs(values: seq<ValueNode>, vs: Variables)
    ensures EvaluateValues(values, vs) != Bad(MissingIf)
  {
    if values != [] {
      NoMissingIf(values[0], vs);
      NoMissingIfs(values[1..], vs);
    }
  }

  lemma {:induction false} NoMissingIfFields(fields: seq<Argument>, vs: Variables)
    ensures EvaluateFields(fields, vs) != Bad(MissingIf)
  {
    if fields != [] {
      NoMissingIf(fields[0].value, vs);
      NoMissingIfFields(fields[1..], vs);
    }
  }

  lemma OnlyBooleans(node: ValueNode, vs: Variables, b: bool)
    requires EvaluateValue(node, vs) == Good(Json.Bool(b))
    ensures IsBool(node, vs, b)
  {
  }

  predicate Lets(d: Directive, vs: Variables) {
    (d.name == "skip" && Says(d, vs, false)) || (d.name == "include" && Says(d, vs, true))
  }

  predicate Drops(d: Directive, vs: Variables) {
    (d.name == "skip" && Says(d, vs, true)) || (d.name == "include" && Says(d, vs, false))
  }

  /** The directive is an error: its condition is, or its name. */
  predicate Offends(d: Directive, vs: Variables, e: Error) {
    || DirectiveCondition(d, vs) == Bad(e)
    || ((Says(d, vs, true) || Says(d, vs, false)) && d.name != "skip" && d.name != "include"
        && e == UnsupportedDirective(d.name))
  }

  /** All directives before the one at `i` let the selection pass. */
  predicate FirstToStop(ds: seq<Directive>, vs: Variables, i: nat) {
    i < |ds| && !Lets(ds[i], vs) && forall j | 0 <= j < i :: Lets(ds[j], vs)
  }

  /** A selection is included exactly when every `skip` on it is false, every `include` true, and there is
      nothing else; otherwise the first directive that does not let it pass decides: it drops the
      selection, or is the error. */
  lemma {:induction false} ShouldIncludeExactly(ds: seq<Directive>, vs: Variables)
    requires forall d | d in ds :: OnlyNames(d.arguments)
    ensures ShouldInclude(ds, vs) == Good(true) <==> forall d | d in ds :: Lets(d, vs)
    ensures forall i: nat | FirstToStop(ds, vs, i) ::
              match ShouldInclude(ds, vs)
              case Good(b) => !b && Drops(ds[i], vs)
              case Bad(e) => Offends(ds[i], vs, e)
  {
    if ds != [] {
      var d := ds[0];
      ConditionExactly(d, vs, true);
      ConditionExactly(d, vs, false);
      ShouldIncludeExactly(ds[1..], vs);
      assert ds == [d] + ds[1..];
      forall i: nat | FirstToStop(ds, vs, i)
        ensures match ShouldInclude(ds, vs)
                case Good(b) => !b && Drops(ds[i], vs)
                case Bad(e) => Offends(ds[i], vs, e)
      {
        if i > 0 {
          assert Lets(ds[0], vs);
          assert FirstToStop(ds[1..], vs, i - 1) by {
            assert ds[1..][i - 1] == ds[i];
            forall j | 0 <= j < i - 1 ensures Lets(ds[1..][j], vs) { assert ds[1..][j] == ds[j + 1]; }
          }
        }
      }
    }
  }

  // ---------------------------------------------------------------- the fields of a selection set

  /** A field, and how deep the fragments below it go. */
  datatype Chosen = Chosen(field: Selection, bound: nat)

  predicate Matches(typeCondition: Option<string>, typeName: Option<string>) {
    typeCondition in {None, Some(""), typeName} || typeName in {None, Some("")}
  }

  lemma MatchesIsApplies(typeCondition: Option<string>, typeName: Option<string>)
    ensures Matches(typeCondition, typeName) <==> TypeConditionApplies(typeCondition, typeName)
  {
  }

  /** The fields that a selection set stands for, in order: those included, and through spreads and inline
      fragments that match the type and are included, theirs. */
  function Fields(vs: Variables, c: Context, rank: string -> nat, n: nat, ss: seq<Selection>): Outcome<seq<Chosen>>
    requires Acyclic(c.fragments, rank) && AllBelow(c.fragments, rank, ss, n)
    decreases n, ss, 0
  {
    if ss == [] then Good([])
    else
      match FieldsOf(vs, c, rank, n, ss[0])
      case Bad(e) => Bad(e)
      case Good(fs) =>
        match Fields(vs, c, rank, n, ss[1..])
        case Bad(e) => Bad(e)
        case Good(more) => Good(fs + more)
  }

  function FieldsOf(vs: Variables, c: Context, rank: string -> nat, n: nat, s: Selection): Outcome<seq<Chosen>>
    requires Acyclic(c.fragments, rank) && SpreadsBelow(c.fragments, rank, s, n)
    decreases n, s, 0
  {
    match ShouldInclude(s.directives, vs)
    case Bad(e) => Bad(e)
    case Good(false) => Good([])
    case Good(true) =>
      match s
      case Field(_, _, _, _, _) => Good([Chosen(s, n)])
      case InlineFragment(condition, _, ss) =>
        if Matches(condition, c.typeName) then Fields(vs, c, rank, n, ss) else Good([])
      case FragmentSpread(name, _) =>
        if name !in c.fragments then Bad(UnknownFragment(name))
        else if !Matches(Some(c.fragments[name].typeCondition), c.typeName) then Good([])
        else
          match ShouldInclude(c.fragments[name].directives, vs)
          case Bad(e) => Bad(e)
          case Good(included) =>
            if included then Fields(vs, c, rank, rank(name), c.fragments[name].selectionSet) else Good([])
  }

  predicate ChosenOk(c: Context, rank: string -> nat, fs: seq<Chosen>) {
    forall f | f in fs :: f.field.Field? && SpreadsBelow(c.fragments, rank, f.field, f.bound)
  }

  lemma {:induction false} FieldsAreOk(vs: Variables, c: Context, rank: string -> nat, n: nat, ss: seq<Selection>)
    requires Acyclic(c.fragments, rank) && AllBelow(c.fragments, rank, ss, n)
    ensures Fields(vs, c, rank, n, ss).Good? ==> ChosenOk(c, rank, Fields(vs, c, rank, n, ss).value)
    decreases n, ss, 0
  {
    if ss != [] {
      FieldsOfAreOk(vs, c, rank, n, ss[0]);
      FieldsAreOk(vs, c, rank, n, ss[1..]);
    }
  }

  lemma {:induction false} FieldsOfAreOk(vs: Variables, c: Context, rank: string -> nat, n: nat, s: Selection)
    requires Acyclic(c.fragments, rank) && SpreadsBelow(c.fragments, rank, s, n)
    ensures FieldsOf(vs, c, rank, n, s).Good? ==> ChosenOk(c, rank, FieldsOf(vs, c, rank, n, s).value)
    decreases n, s, 0
  {
    match s
    case FragmentSpread(name, _) =>
      if name in c.fragments { FieldsAreOk(vs, c, rank, rank(name), c.fragments[name].selectionSet); }
    case InlineFragment(_, _, ss) => FieldsAreOk(vs, c, rank, n, ss);
    case Field(_, _, _, _, _) =>
  }

  function KeyOf(f: Chosen): string
    requires f.field.Field?
  {
    match f.field.alias case Some(a) => a case None => f.field.name
  }

  // ---------------------------------------------------------------- computed fields

  predicate IsComputed<Db>(server: Server<Db>, resource: Option<string>, name: string) {
    resource.Some? && name != "__typename" && server.computed(resource.value, name)
  }

  /** The names of the computed fields among the chosen ones, `__typename` aside. */
  function ComputedAmong<Db>(server: Server<Db>, resource: Option<string>, fs: seq<Chosen>): seq<string> {
    if fs == [] then []
    else
      var name := if fs[0].field.Field? then fs[0].field.name else "__typename";
      (if IsComputed(server, resource, name) then [name] else []) + ComputedAmong(server, resource, fs[1..])
  }

  lemma {:induction false} ComputedConcat<Db>(server: Server<Db>, resource: Option<string>, fs: seq<Chosen>,
                                              gs: seq<Chosen>)
    ensures ComputedAmong(server, resource, fs + gs)
         == ComputedAmong(server, resource, fs) + ComputedAmong(server, resource, gs)
  {
    if fs == [] {
      assert fs + gs == gs;
    } else {
      assert (fs + gs)[1..] == fs[1..] + gs;
      ComputedConcat(server, resource, fs[1..], gs);
    }
  }

  /** Exactly the computed fields among the chosen ones are asked for, in order. */
  lemma {:induction false} ComputedAreChosen<Db>(server: Server<Db>, c: Context, rank: string -> nat, n: nat,
                                                 ss: seq<Selection>)
    requires Acyclic(c.fragments, rank) && AllBelow(c.fragments, rank, ss, n)
    ensures match Fields(server.variables, c, rank, n, ss)
            case Bad(e) => SelectedComputed(server, c, rank, n, ss) == Bad(e)
            case Good(fs) =>
              && ChosenOk(c, rank, fs)
              && SelectedComputed(server, c, rank, n, ss) == Good(ComputedAmong(server, c.resource, fs))
    decreases n, ss, 0
  {
    FieldsAreOk(server.variables, c, rank, n, ss);
    if ss != [] {
      ComputedOfOne(server, c, rank, n, ss[0]);
      ComputedAreChosen(server, c, rank, n, ss[1..]);
      var fs, gs := FieldsOf(server.variables, c, rank, n, ss[0]), Fields(server.variables, c, rank, n, ss[1..]);
      if fs.Good? && gs.Good? { ComputedConcat(server, c.resource, fs.value, gs.value); }
    }
  }

  lemma {:induction false} ComputedOfOne<Db>(server: Server<Db>, c: Context, rank: string -> nat, n: nat, s: Selection)
    requires Acyclic(c.fragments, rank) && SpreadsBelow(c.fragments, rank, s, n)
    ensures match FieldsOf(server.variables, c, rank, n, s)
            case Bad(e) => SelectedComputedOne(server, c, rank, n, s) == Bad(e)
            case Good(fs) =>
              && ChosenOk(c, rank, fs)
              && SelectedComputedOne(server, c, rank, n, s) == Good(ComputedAmong(server, c.resource, fs))
    decreases n, s, 0
  {
    FieldsOfAreOk(server.variables, c, rank, n, s);
    match s
    case FragmentSpread(name, _) =>
      if name in c.fragments {
        MatchesIsApplies(Some(c.fragments[name].typeCondition), c.typeName);
        ComputedAreChosen(server, c, rank, rank(name), c.fragments[name].selectionSet);
      }
    case InlineFragment(condition, _, ss) =>
      MatchesIsApplies(condition, c.typeName);
      ComputedAreChosen(server, c, rank, n, ss);
    case Field(_, name, _, _, _) =>
      var one := [Chosen(s, n)];
      assert one[1..] == [] && ComputedAmong(server, c.resource, one[1..]) == [];
      assert [name] + [] == [name] && ComputedAmong(server, c.resource, one)
          == if IsComputed(server, c.resource, name) then [name] else [];
  }

  // ---------------------------------------------------------------- projection

  /** What a chosen field shows of an object: its type name, or the property of the field's own name,
      projected by the field's selection set if it has one. */
  function Shown<Db>(server: Server<Db>, db: Db, c: Context, rank: string -> nat, v: Value, f: Chosen): Outcome<Value>
    requires Acyclic(c.fragments, rank) && f.field.Field? && SpreadsBelow(c.fragments, rank, f.field, f.bound)
  {
    if f.field.name == "__typename" then Good(Json.Str(if c.typeName.Some? then c.typeName.value else "JSON"))
    else
      var property := if v.Obj? then Json.Get(v.fields, f.field.name) else Json.Undefined;
      match f.field.selectionSet
      case NoSet => Good(property)
      case Set(ss) => ProjectValue(server, db, c.(resource := None, typeName := None), rank, f.bound, property, ss)
  }

  /** The chosen fields one after the other; a later field with the same key takes the place. */
  function ShowAll<Db>(server: Server<Db>, db: Db, c: Context, rank: string -> nat, v: Value, fs: seq<Chosen>,
                       projected: seq<Json.Field>): Outcome<seq<Json.Field>>
    requires Acyclic(c.fragments, rank) && ChosenOk(c, rank, fs)
  {
    if fs == [] then Good(projected)
    else
      match Shown(server, db, c, rank, v, fs[0])
      case Bad(e) => Bad(e)
      case Good(shown) => ShowAll(server, db, c, rank, v, fs[1..], Json.Put(projected, KeyOf(fs[0]), shown))
  }

  lemma {:induction false} ShowConcat<Db>(server: Server<Db>, db: Db, c: Context, rank: string -> nat, v: Value,
                                          fs: seq<Chosen>, gs: seq<Chosen>, projected: seq<Json.Field>)
    requires Acyclic(c.fragments, rank) && ChosenOk(c, rank, fs) && ChosenOk(c, rank, gs)
    ensures ChosenOk(c, rank, fs + gs)
    ensures ShowAll(server, db, c, rank, v, fs + gs, projected)
         == match ShowAll(server, db, c, rank, v, fs, projected)
            case Bad(e) => Bad(e)
            case Good(next) => ShowAll(server, db, c, rank, v, gs, next)
  {
    if fs == [] {
      assert fs + gs == gs;
    } else {
      assert (fs + gs)[1..] == fs[1..] + gs;
      var shown := Shown(server, db, c, rank, v, fs[0]);
      if shown.Good? {
        ShowConcat(server, db, c, rank, v, fs[1..], gs, Json.Put(projected, KeyOf(fs[0]), shown.value));
      }
    }
  }

  /** Projecting by a selection set is showing the fields it stands for. */
  lemma {:induction false} ProjectionShowsFields<Db>(server: Server<Db>, db: Db, c: Context, rank: string -> nat,
                                                     n: nat, v: Value, ss: seq<Selection>,
                                                     projected: seq<Json.Field>)
    requires Acyclic(c.fragments, rank) && AllBelow(c.fragments, rank, ss, n)
    ensures match Fields(server.variables, c, rank, n, ss)
            case Bad(_) => ProjectSelections(server, db, c, rank, n, v, ss, projected).Bad?
            case Good(fs) =>
              && ChosenOk(c, rank, fs)
              && ProjectSelections(server, db, c, rank, n, v, ss, projected)
                 == ShowAll(server, db, c, rank, v, fs, projected)
    decreases n, ss, 0
  {
    FieldsAreOk(server.variables, c, rank, n, ss);
    if ss != [] {
      var first := ProjectSelection(server, db, c, rank, n, v, ss[0], projected);
      ProjectionShowsOne(server, db, c, rank, n, v, ss[0], projected);
      if first.Good? { ProjectionShowsFields(server, db, c, rank, n, v, ss[1..], first.value); }
      FieldsOfAreOk(server.variables, c, rank, n, ss[0]);
      FieldsAreOk(server.variables, c, rank, n, ss[1..]);
      var fs, gs := FieldsOf(server.variables, c, rank, n, ss[0]), Fields(server.variables, c, rank, n, ss[1..]);
      if fs.Good? && gs.Good? { ShowConcat(server, db, c, rank, v, fs.value, gs.value, projected); }
    }
  }

  lemma {:induction false} ProjectionShowsOne<Db>(server: Server<Db>, db: Db, c: Context, rank: string -> nat, n: nat,
                                                  v: Value, s: Selection, projected: seq<Json.Field>)
    requires Acyclic(c.fragments, rank) && SpreadsBelow(c.fragments, rank, s, n)
    ensures match FieldsOf(server.variables, c, rank, n, s)
            case Bad(_) => ProjectSelection(server, db, c, rank, n, v, s, projected).Bad?
            case Good(fs) =>
              && ChosenOk(c, rank, fs)
              && ProjectSelection(server, db, c, rank, n, v, s, projected)
                 == ShowAll(server, db, c, rank, v, fs, projected)
    decreases n, s, 0
  {
    FieldsOfAreOk(server.variables, c, rank, n, s);
    match s
    case FragmentSpread(name, _) =>
      if name in c.fragments {
        MatchesIsApplies(Some(c.fragments[name].typeCondition), c.typeName);
        ProjectionShowsFields(server, db, c, rank, rank(name), v, c.fragments[name].selectionSet, projected);
      }
    case InlineFragment(condition, _, ss) =>
      MatchesIsApplies(condition, c.typeName);
      ProjectionShowsFields(server, db, c, rank, n, v, ss, projected);
    case Field(_, _, _, _, _) => assert [Chosen(s, n)][1..] == [];
  }

  /** The last of the chosen fields with this key. */
  predicate LastWithKey(fs: seq<Chosen>, i: nat, key: string)
    requires forall f | f in fs :: f.field.Field?
  {
    i < |fs| && KeyOf(fs[i]) == key && forall j | i < j < |fs| :: KeyOf(fs[j]) != key
  }

  lemma {:induction false} ShowAllKeys<Db>(server: Server<Db>, db: Db, c: Context, rank: string -> nat, v: Value,
                                           fs: seq<Chosen>, projected: seq<Json.Field>, key: string)
    requires Acyclic(c.fragments, rank) && ChosenOk(c, rank, fs)
    requires ShowAll(server, db, c, rank, v, fs, projected).Good?
    ensures var out := ShowAll(server, db, c, rank, v, fs, projected).value;
            && (Json.DistinctKeys(projected) ==> Json.DistinctKeys(out))
            && (Json.HasKey(out, key) <==> Json.HasKey(projected, key) || exists f :: f in fs && KeyOf(f) == key)
            && ((forall f | f in fs :: KeyOf(f) != key) ==> Json.Get(out, key) == Json.Get(projected, key))
  {
    if fs != [] {
      var shown := Shown(server, db, c, rank, v, fs[0]).value;
      var next := Json.Put(projected, KeyOf(fs[0]), shown);
      ShowAllKeys(server, db, c, rank, v, fs[1..], next, key);
      Json.GetPut(projected, KeyOf(fs[0]), shown, key);
      if Json.DistinctKeys(projected) { Json.PutDistinct(projected, KeyOf(fs[0]), shown); }
      assert fs == [fs[0]] + fs[1..];
    }
  }

  lemma {:induction false} ShowAllLast<Db>(server: Server<Db>, db: Db, c: Context, rank: string -> nat, v: Value,
                                           fs: seq<Chosen>, projected: seq<Json.Field>, i: nat)
    requires Acyclic(c.fragments, rank) && ChosenOk(c, rank, fs) && i < |fs| && LastWithKey(fs, i, KeyOf(fs[i]))
    requires ShowAll(server, db, c, rank, v, fs, projected).Good?
    ensures var out := ShowAll(server, db, c, rank, v, fs, projected).value;
            Shown(server, db, c, rank, v, fs[i]) == Good(Json.Get(out, KeyOf(fs[i])))
  {
    var shown := Shown(server, db, c, rank, v, fs[0]).value;
    var next := Json.Put(projected, KeyOf(fs[0]), shown);
    if i > 0 {
      assert fs[1..][i - 1] == fs[i] && forall j | i - 1 < j < |fs[1..]| :: fs[1..][j] == fs[j + 1];
      ShowAllLast(server, db, c, rank, v, fs[1..], next, i - 1);
    } else {
      forall f | f in fs[1..] ensures KeyOf(f) != KeyOf(fs[0]) {
        var j :| 0 <= j < |fs[1..]| && fs[1..][j] == f;
        assert fs[j + 1] == f;
      }
      ShowAllKeys(server, db, c, rank, v, fs[1..], next, KeyOf(fs[0]));
      Json.GetPut(projected, KeyOf(fs[0]), shown, KeyOf(fs[0]));
    }
  }

  /** The computed fields among the chosen ones are resolved first, for all records at once, unless there
      is no resource or that was done before. */
  lemma ComputedAreResolved<Db>(server: Server<Db>, db: Db, c: Context, rank: string -> nat, n: nat,
                                records: seq<Value>, ss: seq<Selection>)
    requires Acyclic(c.fragments, rank) && AllBelow(c.fragments, rank, ss, n)
    ensures ResolveComputed(server, db, c, rank, n, records, ss)
         == if c.resource.None? || c.computedResolved then Good(records)
            else match Fields(server.variables, c, rank, n, ss)
                 case Bad(e) => Bad(e)
                 case Good(fs) =>
                   server.resolve(db, c.resource.value, records, ComputedAmong(server, c.resource, fs))
  {
    ComputedAreChosen(server, c, rank, n, ss);
  }

  /** An object projected by a selection set: under each alias, or name if there is none, of a field it
      stands for the result shows what the last such field shows of the record with its computed fields,
      and it has no other names. */
  lemma ProjectedObject<Db>(server: Server<Db>, db: Db, c: Context, rank: string -> nat, n: nat, v: Value,
                            ss: seq<Selection>, key: string)
    requires Acyclic(c.fragments, rank) && AllBelow(c.fragments, rank, ss, n)
    requires v.Obj? && ProjectValue(server, db, c, rank, n, v, ss).Good?
    ensures Fields(server.variables, c, rank, n, ss).Good? && ResolveComputed(server, db, c, rank, n, [v], ss).Good?
    ensures var fs := Fields(server.variables, c, rank, n, ss).value;
            var records := ResolveComputed(server, db, c, rank, n, [v], ss).value;
            var record := if records == [] then Json.Undefined else records[0];
            var out := ProjectValue(server, db, c, rank, n, v, ss).value;
            && ChosenOk(c, rank, fs) && out.Obj? && Json.DistinctKeys(out.fields)
            && (Json.HasKey(out.fields, key) <==> exists f :: f in fs && KeyOf(f) == key)
            && (forall i: nat | LastWithKey(fs, i, key) ::
                  Shown(server, db, c, rank, record, fs[i]) == Good(Json.Get(out.fields, key)))
  {
    var records := ResolveComputed(server, db, c, rank, n, [v], ss).value;
    var record := if records == [] then Json.Undefined else records[0];
    ProjectionShowsFields(server, db, c, rank, n, record, ss, []);
    var fs := Fields(server.variables, c, rank, n, ss).value;
    ShowAllKeys(server, db, c, rank, record, fs, [], key);
    forall i: nat | LastWithKey(fs, i, key)
      ensures Shown(server, db, c, rank, record, fs[i])
           == Good(Json.Get(ProjectValue(server, db, c, rank, n, v, ss).value.fields, key))
    {
      ShowAllLast(server, db, c, rank, record, fs, [], i);
    }
  }

  /** The items of an array are projected in order, each of the records with their computed fields. */
  lemma ProjectedArray<Db>(server: Server<Db>, db: Db, c: Context, rank: string -> nat, n: nat, items: seq<Value>,
                           ss: seq<Selection>, i: nat)
    requires Acyclic(c.fragments, rank) && AllBelow(c.fragments, rank, ss, n)
    requires ProjectValue(server, db, c, rank, n, Json.Arr(items), ss).Good?
    ensures ResolveComputed(server, db, c, rank, n, items, ss).Good?
    ensures var records := ResolveComputed(server, db, c, rank, n, items, ss).value;
            var out := ProjectValue(server, db, c, rank, n, Json.Arr(items), ss).value;
            && out.Arr? && |out.items| == |records|
            && (i < |records| ==>
                  ProjectValue(server, db, c.(computedResolved := true), rank, n, records[i], ss) == Good(out.items[i]))
  {
    var records := ResolveComputed(server, db, c, rank, n, items, ss).value;
    if i < |records| {
      ProjectedItems(server, db, c.(computedResolved := true), rank, n, records, ss, i);
    } else if records != [] {
      ProjectedItems(server, db, c.(computedResolved := true), rank, n, records, ss, 0);
    }
  }

  lemma {:induction false} ProjectedItems<Db>(server: Server<Db>, db: Db, c: Context, rank: string -> nat, n: nat,
                                              items: seq<Value>, ss: seq<Selection>, i: nat)
    requires Acyclic(c.fragments, rank) && AllBelow(c.fragments, rank, ss, n) && c.computedResolved
    requires ProjectItems(server, db, c, rank, n, items, ss).Good? && i < |items|
    ensures var out := ProjectItems(server, db, c, rank, n, items, ss).value;
            |out| == |items| && ProjectValue(server, db, c, rank, n, items[i], ss) == Good(out[i])
  {
    if i > 0 {
      ProjectedItems(server, db, c, rank, n, items[1..], ss, i - 1);
    } else if |items| > 1 {
      ProjectedItems(server, db, c, rank, n, items[1..], ss, 0);
    }
  }

  // ---------------------------------------------------------------- root selections

  /** One root field: its value is asked of the server with the field's own name and arguments. */
  function RunField<Db>(server: Server<Db>, db: Db, operation: string, c: Context, rank: string -> nat, f: Chosen)
    : (Db, Outcome<Value>)
    requires Acyclic(c.fragments, rank) && f.field.Field? && SpreadsBelow(c.fragments, rank, f.field, f.bound)
  {
    if f.field.name == "__typename" then
      (db, Good(if c.typeName.Some? then Json.Str(c.typeName.value) else Json.Undefined))
    else
      var (after, result) := server.field(db, operation, f.field.name, f.field.arguments);
      match result
      case Bad(e) => (after, Bad(e))
      case Good(r) =>
        match f.field.selectionSet
        case NoSet => (after, Good(r.value))
        case Set(ss) =>
          (after, ProjectValue(server, after, c.(typeName := r.typeName, resource := r.resource), rank, f.bound,
                               r.value, ss))
  }

  /** The chosen fields one after the other, each on the database the one before left, up to an error. */
  function RunAll<Db>(server: Server<Db>, db: Db, operation: string, c: Context, rank: string -> nat, fs: seq<Chosen>,
                      data: seq<Json.Field>): Run<Db>
    requires Acyclic(c.fragments, rank) && ChosenOk(c, rank, fs)
  {
    if fs == [] then Run(db, Good(data))
    else
      var (after, value) := RunField(server, db, operation, c, rank, fs[0]);
      match value
      case Bad(e) => Run(after, Bad(e))
      case Good(v) => RunAll(server, after, operation, c, rank, fs[1..], Json.Put(data, KeyOf(fs[0]), v))
  }

  lemma {:induction false} RunConcat<Db>(server: Server<Db>, db: Db, operation: string, c: Context,
                                         rank: string -> nat, fs: seq<Chosen>, gs: seq<Chosen>,
                                         data: seq<Json.Field>)
    requires Acyclic(c.fragments, rank) && ChosenOk(c, rank, fs) && ChosenOk(c, rank, gs)
    ensures ChosenOk(c, rank, fs + gs)
    ensures var first := RunAll(server, db, operation, c, rank, fs, data);
            RunAll(server, db, operation, c, rank, fs + gs, data)
            == match first.data
               case Bad(_) => first
               case Good(next) => RunAll(server, first.db, operation, c, rank, gs, next)
  {
    if fs == [] {
      assert fs + gs == gs;
    } else {
      assert (fs + gs)[1..] == fs[1..] + gs;
      var (after, value) := RunField(server, db, operation, c, rank, fs[0]);
      if value.Good? {
        RunConcat(server, after, operation, c, rank, fs[1..], gs, Json.Put(data, KeyOf(fs[0]), value.value));
      }
    }
  }

  /** Executing the root selections is running the fields they stand for. */
  lemma {:induction false} ExecutionRunsFields<Db>(server: Server<Db>, db: Db, operation: string, c: Context,
                                                   rank: string -> nat, n: nat, ss: seq<Selection>,
                                                   data: seq<Json.Field>)
    requires Acyclic(c.fragments, rank) && AllBelow(c.fragments, rank, ss, n)
    ensures match Fields(server.variables, c, rank, n, ss)
            case Bad(_) => ExecuteSelections(server, db, operation, c, rank, n, ss, data).data.Bad?
            case Good(fs) =>
              && ChosenOk(c, rank, fs)
              && ExecuteSelections(server, db, operation, c, rank, n, ss, data)
                 == RunAll(server, db, operation, c, rank, fs, data)
    decreases n, ss, 0
  {
    FieldsAreOk(server.variables, c, rank, n, ss);
    if ss != [] {
      var first := ExecuteSelection(server, db, operation, c, rank, n, ss[0], data);
      ExecutionRunsOne(server, db, operation, c, rank, n, ss[0], data);
      if first.data.Good? {
        ExecutionRunsFields(server, first.db, operation, c, rank, n, ss[1..], first.data.value);
      }
      FieldsOfAreOk(server.variables, c, rank, n, ss[0]);
      FieldsAreOk(server.variables, c, rank, n, ss[1..]);
      var fs, gs := FieldsOf(server.variables, c, rank, n, ss[0]), Fields(server.variables, c, rank, n, ss[1..]);
      if fs.Good? && gs.Good? { RunConcat(server, db, operation, c, rank, fs.value, gs.value, data); }
    }
  }

  lemma {:induction false} ExecutionRunsOne<Db>(server: Server<Db>, db: Db, operation: string, c: Context,
                                                rank: string -> nat, n: nat, s: Selection, data: seq<Json.Field>)
    requires Acyclic(c.fragments, rank) && SpreadsBelow(c.fragments, rank, s, n)
    ensures match FieldsOf(server.variables, c, rank, n, s)
            case Bad(_) => ExecuteSelection(server, db, operation, c, rank, n, s, data).data.Bad?
            case Good(fs) =>
              && ChosenOk(c, rank, fs)
              && ExecuteSelection(server, db, operation, c, rank, n, s, data)
                 == RunAll(server, db, operation, c, rank, fs, data)
    decreases n, s, 0
  {
    FieldsOfAreOk(server.variables, c, rank, n, s);
    match s
    case FragmentSpread(name, _) =>
      if name in c.fragments {
        MatchesIsApplies(Some(c.fragments[name].typeCondition), c.typeName);
        ExecutionRunsFields(server, db, operation, c, rank, rank(name), c.fragments[name].selectionSet, data);
      }
    case InlineFragment(condition, _, ss) =>
      MatchesIsApplies(condition, c.typeName);
      ExecutionRunsFields(server, db, operation, c, rank, n, ss, data);
    case Field(_, _, _, _, _) => assert [Chosen(s, n)][1..] == [];
  }

  /** An excluded selection leaves data and database as they are, at the root and below. */
  lemma ExcludedLeavesNothing<Db>(server: Server<Db>, db: Db, operation: string, c: Context, rank: string -> nat,
                                  n: nat, s: Selection, v: Value, data: seq<Json.Field>)
    requires Acyclic(c.fragments, rank) && SpreadsBelow(c.fragments, rank, s, n)
    requires forall d | d in s.directives :: OnlyNames(d.arguments)
    requires exists i: nat :: FirstToStop(s.directives, server.variables, i)
                              && Drops(s.directives[i], server.variables)
    ensures ExecuteSelection(server, db, operation, c, rank, n, s, data) == Run(db, Good(data))
    ensures ProjectSelection(server, db, c, rank, n, v, s, data) == Good(data)
  {
    var ds, vs := s.directives, server.variables;
    var i: nat :| FirstToStop(ds, vs, i) && Drops(ds[i], vs);
    ShouldIncludeExactly(ds, vs);
    ConditionExactly(ds[i], vs, true);
    ConditionExactly(ds[i], vs, false);
  }

  lemma {:induction false} RunAllMeans<Db>(server: Server<Db>, db: Db, operation: string, c: Context,
                                           rank: string -> nat, fs: seq<Chosen>, data: seq<Json.Field>, key: string)
    requires Acyclic(c.fragments, rank) && ChosenOk(c, rank, fs)
    requires RunAll(server, db, operation, c, rank, fs, data).data.Good?
    ensures var out := RunAll(server, db, operation, c, rank, fs, data).data.value;
            && (Json.DistinctKeys(data) ==> Json.DistinctKeys(out))
            && (Json.HasKey(out, key) <==> Json.HasKey(data, key) || exists f :: f in fs && KeyOf(f) == key)
  {
    if fs != [] {
      var (after, value) := RunField(server, db, operation, c, rank, fs[0]);
      var next := Json.Put(data, KeyOf(fs[0]), value.value);
      RunAllMeans(server, after, operation, c, rank, fs[1..], next, key);
      Json.GetPut(data, KeyOf(fs[0]), value.value, key);
      if Json.DistinctKeys(data) { Json.PutDistinct(data, KeyOf(fs[0]), value.value); }
      assert fs == [fs[0]] + fs[1..];
    }
  }

  // ---------------------------------------------------------------- requests

  predicate FirstNamed(ops: seq<Operation>, i: nat, name: string) {
    i < |ops| && ops[i].name == Some(name) && forall j | 0 <= j < i :: ops[j].name != Some(name)
  }

  lemma {:induction false} FindsFirstNamed(ops: seq<Operation>, name: string)
    ensures (forall op | op in ops :: op.name != Some(name)) ==> FindOperation(ops, name) == Bad(UnknownOperation)
    ensures forall i: nat | FirstNamed(ops, i, name) :: FindOperation(ops, name) == Good(ops[i])
  {
    if ops != [] {
      FindsFirstNamed(ops[1..], name);
      assert ops == [ops[0]] + ops[1..];
      forall i: nat | FirstNamed(ops, i, name) ensures FindOperation(ops, name) == Good(ops[i]) {
        if i > 0 {
          assert ops[0].name != Some(name) && ops[1..][i - 1] == ops[i];
          assert forall j | 0 <= j < i - 1 :: ops[1..][j] == ops[j + 1];
          assert FirstNamed(ops[1..], i - 1, name);
        }
      }
    }
  }

  /** With a name the first operation of that name is selected, without one the only operation; a document
      without operations stands for one. */
  lemma SelectsByName(d: Document, operationName: string)
    ensures operationName != "" ==> forall i: nat | FirstNamed(OperationsOf(d), i, operationName) ::
              SelectOperation(d, operationName) == Good(OperationsOf(d)[i])
    ensures operationName != "" && (forall op | op in OperationsOf(d) :: op.name != Some(operationName)) ==>
              SelectOperation(d, operationName) == Bad(UnknownOperation)
    ensures operationName == "" && |d.operations| == 1 ==> SelectOperation(d, operationName) == Good(d.operations[0])
    ensures operationName == "" && |d.operations| > 1 ==>
              SelectOperation(d, operationName) == Bad(OperationNameRequired)
    ensures operationName == "" && d.operations == [] ==>
              SelectOperation(d, operationName) == Good(Operation(d.operation, d.name, [], d.selectionSet))
  {
    FindsFirstNamed(OperationsOf(d), operationName);
  }

  lemma {:induction false} FragmentByName(fs: seq<Fragment>, i: nat)
    requires i < |fs| && forall j | i < j < |fs| :: fs[j].name != fs[i].name
    ensures fs[i].name in FragmentMap(fs) && FragmentMap(fs)[fs[i].name] == fs[i]
  {
    var last := |fs| - 1;
    if i < last {
      assert fs[last].name != fs[i].name;
      FragmentByName(fs[..last], i);
    }
  }

  lemma {:induction false} FragmentIsDefined(fs: seq<Fragment>, name: string)
    ensures name in FragmentMap(fs) <==> exists f :: f in fs && f.name == name
  {
    if fs != [] {
      FragmentIsDefined(fs[..|fs| - 1], name);
      assert fs == fs[..|fs| - 1] + [fs[|fs| - 1]];
    }
  }

  /** A document runs the fields that its selected operation stands for, one after the other, with the
      fragments of the document and the root type of the operation. */
  lemma DocumentRunsFields<Db>(server: Server<Db>, db: Db, d: Document, operationName: string, rank: string -> nat,
                               n: nat)
    requires DocumentAcyclic(d, rank, n)
    ensures match SelectOperation(d, operationName)
            case Bad(e) => ExecuteDocument(server, db, d, operationName, rank, n) == Run(db, Bad(e))
            case Good(op) =>
              var root := if op.operation == "mutation" then "Mutation" else "Query";
              var c := Context(FragmentMap(d.fragments), Some(root), None, false);
              && AllBelow(c.fragments, rank, op.selectionSet, n)
              && match Fields(server.variables, c, rank, n, op.selectionSet)
                 case Bad(_) => ExecuteDocument(server, db, d, operationName, rank, n).data.Bad?
                 case Good(fs) =>
                   && ChosenOk(c, rank, fs)
                   && ExecuteDocument(server, db, d, operationName, rank, n)
                      == RunAll(server, db, op.operation, c, rank, fs, [])
  {
    var selected := SelectOperation(d, operationName);
    if selected.Good? {
      var op := selected.value;
      if operationName != "" { FoundOperation(OperationsOf(d), operationName); }
      assert op in OperationsOf(d);
      var root := if op.operation == "mutation" then "Mutation" else "Query";
      var c := Context(FragmentMap(d.fragments), Some(root), None, false);
      ExecutionRunsFields(server, db, op.operation, c, rank, n, op.selectionSet, []);
    }
  }

  // ---------------------------------------------------------------- literals

  /** The literal for a value. */
  function LiteralFor(v: Value): ValueNode {
    match v
    case Undefined => Literal(NullValue)
    case Null => Literal(NullValue)
    case Bool(b) => Literal(BoolValue(b))
    case Num(text) => Literal(DecimalValue(text))
    case Str(text) => Literal(StringValue(text))
    case Arr(items) => ListNode(LiteralItems(items))
    case Obj(fields) => ObjectNode(LiteralFields(fields))
  }

  function LiteralItems(items: seq<Value>): seq<ValueNode> {
    if items == [] then [] else [LiteralFor(items[0])] + LiteralItems(items[1..])
  }

  function LiteralFields(fields: seq<Json.Field>): seq<Argument> {
    if fields == [] then []
    else [Argument(fields[0].key, LiteralFor(fields[0].val))] + LiteralFields(fields[1..])
  }

  predicate NoUndefined(v: Value) {
    match v
    case Undefined => false
    case Arr(items) => forall x | x in items :: NoUndefined(x)
    case Obj(fields) => forall f | f in fields :: NoUndefined(f.val)
    case _ => true
  }

  /** Evaluating the literal for a value gives the value, whatever the variables. */
  lemma {:induction false} LiteralIsValue(v: Value, vs: Variables)
    requires NoUndefined(v)
    ensures EvaluateValue(LiteralFor(v), vs) == Good(v)
  {
    match v
    case Arr(items) => LiteralItemsAreValues(items, vs);
    case Obj(fields) => LiteralFieldsAreValues(fields, vs);
    case _ =>
  }

  lemma {:induction false} LiteralItemsAreValues(items: seq<Value>, vs: Variables)
    requires forall x | x in items :: NoUndefined(x)
    ensures EvaluateValues(LiteralItems(items), vs) == Good(items)
  {
    if items != [] {
      LiteralIsValue(items[0], vs);
      LiteralItemsAreValues(items[1..], vs);
      assert LiteralItems(items)[1..] == LiteralItems(items[1..]) && items == [items[0]] + items[1..];
    }
  }

  lemma {:induction false} LiteralFieldsAreValues(fields: seq<Json.Field>, vs: Variables)
    requires forall f | f in fields :: NoUndefined(f.val)
    ensures EvaluateFields(LiteralFields(fields), vs) == Good(fields)
  {
    if fields != [] {
      LiteralIsValue(fields[0].val, vs);
      LiteralFieldsAreValues(fields[1..], vs);
      assert LiteralFields(fields)[1..] == LiteralFields(fields[1..]) && fields == [fields[0]] + fields[1..];
    }
  }

  /** An integer literal is the number that its decimal text reads. */
  lemma IntegerLiteral(n: int, vs: Variables)
    ensures EvaluateValue(Literal(IntValue(n)), vs).Good?
    ensures var v := EvaluateValue(Literal(IntValue(n)), vs).value; v.Num? && v.text == Decimal.IntText(n)
  {
  }

  /** What is neither array nor object stays as it is, whatever is selected of it. */
  lemma ScalarsStay<Db>(server: Server<Db>, db: Db, c: Context, rank: string -> nat, n: nat, v: Value,
                        ss: seq<Selection>)
    requires Acyclic(c.fragments, rank) && AllBelow(c.fragments, rank, ss, n) && !v.Arr? && !v.Obj?
    ensures ProjectValue(server, db, c, rank, n, v, ss) == Good(v)
  {
  }
}
