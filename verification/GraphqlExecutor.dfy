/** The executor's loops: response objects are filled in place and mutations change the database,
    each method tied to the function of module `GraphqlExecute` it computes. */
module GraphqlExecutor {
  import opened Options
  import opened GraphqlSyntax
  import opened GraphqlExecute
  import Json

  /** `data` or `projected`: an object that nested calls write into. */
  class Record {
    var fields: seq<Json.Field>

    constructor ()
      ensures fields == []
    {
      fields := [];
    }
  }

  method ShouldIncludeSelection(directives: seq<Directive>, variables: map<string, Value>) returns (r: Outcome<bool>)
    ensures r == ShouldInclude(directives, variables)
  {
    for i := 0 to |directives|
      invariant ShouldInclude(directives[i..], variables) == ShouldInclude(directives, variables)
    {
      var directive := directives[i];
      assert directives[i..][0] == directive && directives[i..][1..] == directives[i + 1..];
      var condition := DirectiveCondition(directive, variables);
      if condition.Bad? {
        return Bad(condition.error);
      }
      if directive.name == "skip" {
        if condition.value { return Good(false); }
        continue;
      }
      if directive.name == "include" {
        if !condition.value { return Good(false); }
        continue;
      }
      return Bad(UnsupportedDirective(directive.name));
    }
    return Good(true);
  }

  class Executor<Db> {
    const server: Server<Db>
    var db: Db

    constructor (server: Server<Db>, db: Db)
      ensures this.server == server && this.db == db
    {
      this.server, this.db := server, db;
    }

    method SelectedComputedFieldNames(ss: seq<Selection>, c: Context, ghost rank: string -> nat, ghost n: nat)
      returns (r: Outcome<seq<string>>)
      requires Acyclic(c.fragments, rank) && AllBelow(c.fragments, rank, ss, n)
      ensures r == SelectedComputed(server, c, rank, n, ss)
      decreases n, ss
    {
      var names := [];
      assert ss[0..] == ss;
      NamesNone(SelectedComputed(server, c, rank, n, ss));
      for i := 0 to |ss|
        invariant SelectedComputed(server, c, rank, n, ss)
            == Names(names, SelectedComputed(server, c, rank, n, ss[i..]))
      {
        ghost var rest := SelectedComputed(server, c, rank, n, ss[i + 1..]);
        assert ss[i..][0] == ss[i] && ss[i..][1..] == ss[i + 1..];
        ghost var here := SelectedComputedOne(server, c, rank, n, ss[i]);
        if here.Good? { NamesAppend(names, here.value, rest); }
        var s := ss[i];
        var included := ShouldIncludeSelection(s.directives, server.variables);
        if included.Bad? {
          return Bad(included.error);
        }
        if !included.value {
          continue;
        }
        if s.FragmentSpread? {
          if s.name !in c.fragments {
            return Bad(UnknownFragment(s.name));
          }
          var fragment := c.fragments[s.name];
          if TypeConditionApplies(Some(fragment.typeCondition), c.typeName) {
            var inner := ShouldIncludeSelection(fragment.directives, server.variables);
            if inner.Bad? {
              return Bad(inner.error);
            }
            if inner.value {
              var more := SelectedComputedFieldNames(fragment.selectionSet, c, rank, rank(s.name));
              if more.Bad? {
                return more;
              }
              names := names + more.value;
            }
          }
          continue;
        }
        if s.InlineFragment? {
          if TypeConditionApplies(s.typeCondition, c.typeName) {
            var more := SelectedComputedFieldNames(s.selections, c, rank, n);
            if more.Bad? {
              return more;
            }
            names := names + more.value;
          }
          continue;
        }
        if s.name != "__typename" && c.resource.Some? && server.computed(c.resource.value, s.name) {
          names := names + [s.name];
        }
      }
      assert ss[|ss|..] == [] && names + [] == names;
      return Good(names);
    }

    method ResolveComputedSelection(records: seq<Value>, ss: seq<Selection>, c: Context, ghost rank: string -> nat,
                                    ghost n: nat)
      returns (r: Outcome<seq<Value>>)
      requires Acyclic(c.fragments, rank) && AllBelow(c.fragments, rank, ss, n)
      ensures r == ResolveComputed(server, db, c, rank, n, records, ss)
    {
      if c.resource.None? || c.computedResolved {
        return Good(records);
      }
      var names := SelectedComputedFieldNames(ss, c, rank, n);
      r := match names case Bad(e) => Bad(e) case Good(fields) => server.resolve(db, c.resource.value, records, fields);
    }

    method ProjectAny(v: Value, ss: seq<Selection>, c: Context, ghost rank: string -> nat, ghost n: nat)
                      returns (r: Outcome<Value>)
      requires Acyclic(c.fragments, rank) && AllBelow(c.fragments, rank, ss, n)
      ensures r == ProjectValue(server, db, c, rank, n, v, ss)
      decreases n, ss, 1, if NeedsComputed(c) then 1 else 0, v
    {
      match v {
        case Arr(items) =>
          var records := ResolveComputedSelection(items, ss, c, rank, n);
          if records.Bad? {
            return Bad(records.error);
          }
          var projected := ProjectItemsOf(records.value, ss, c.(computedResolved := true), rank, n);
          return match projected case Good(values) => Good(Json.Arr(values)) case Bad(e) => Bad(e);
        case Obj(_) =>
          var records := ResolveComputedSelection([v], ss, c, rank, n);
          if records.Bad? {
            return Bad(records.error);
          }
          var target := if records.value == [] then Json.Undefined else records.value[0];
          var projected := new Record();
          for i := 0 to |ss|
            invariant ProjectSelections(server, db, c, rank, n, target, ss[i..], projected.fields)
                   == ProjectSelections(server, db, c, rank, n, target, ss, [])
          {
            assert ss[i..][0] == ss[i] && ss[i..][1..] == ss[i + 1..];
            var error := ProjectObjectSelection(target, ss[i], projected, c, rank, n);
            if error.Some? {
              return Bad(error.value);
            }
          }
          return Good(Json.Obj(projected.fields));
        case _ => return Good(v);
      }
    }

    /** `records.map(…)`. */
    method ProjectItemsOf(items: seq<Value>, ss: seq<Selection>, c: Context, ghost rank: string -> nat, ghost n: nat)
                          returns (r: Outcome<seq<Value>>)
      requires Acyclic(c.fragments, rank) && AllBelow(c.fragments, rank, ss, n) && c.computedResolved
      ensures r == ProjectItems(server, db, c, rank, n, items, ss)
      decreases n, ss, 1, 0, items
    {
      if items == [] {
        return Good([]);
      }
      var first := ProjectAny(items[0], ss, c, rank, n);
      if first.Bad? {
        return Bad(first.error);
      }
      var rest := ProjectItemsOf(items[1..], ss, c, rank, n);
      r := match rest case Good(values) => Good([first.value] + values) case Bad(e) => Bad(e);
    }

    /** Writes into `projected`; the result is what was thrown, if anything. */
    method ProjectObjectSelection(v: Value, s: Selection, projected: Record, c: Context, ghost rank: string -> nat,
                                  ghost n: nat)
      returns (error: Option<Error>)
      requires Acyclic(c.fragments, rank) && SpreadsBelow(c.fragments, rank, s, n)
      modifies projected
      ensures match ProjectSelection(server, db, c, rank, n, v, s, old(projected.fields))
              case Good(fields) => error == None && projected.fields == fields
              case Bad(e) => error == Some(e)
      decreases n, s
    {
      var included := ShouldIncludeSelection(s.directives, server.variables);
      if included.Bad? {
        return Some(included.error);
      }
      if !included.value {
        return None;
      }
      if s.FragmentSpread? {
        if s.name !in c.fragments {
          return Some(UnknownFragment(s.name));
        }
        var fragment := c.fragments[s.name];
        var ss := fragment.selectionSet;
        if TypeConditionApplies(Some(fragment.typeCondition), c.typeName) {
          var inner := ShouldIncludeSelection(fragment.directives, server.variables);
          if inner.Bad? {
            return Some(inner.error);
          }
          if inner.value {
            for i := 0 to |ss|
              invariant ProjectSelections(server, db, c, rank, rank(s.name), v, ss[i..], projected.fields)
                     == ProjectSelections(server, db, c, rank, rank(s.name), v, ss, old(projected.fields))
            {
              assert ss[i..][0] == ss[i] && ss[i..][1..] == ss[i + 1..];
              error := ProjectObjectSelection(v, ss[i], projected, c, rank, rank(s.name));
              if error.Some? {
                return;
              }
            }
          }
        }
        return None;
      }
      if s.InlineFragment? {
        var ss := s.selections;
        if TypeConditionApplies(s.typeCondition, c.typeName) {
          for i := 0 to |ss|
            invariant ProjectSelections(server, db, c, rank, n, v, ss[i..], projected.fields)
                   == ProjectSelections(server, db, c, rank, n, v, ss, old(projected.fields))
          {
            assert ss[i..][0] == ss[i] && ss[i..][1..] == ss[i + 1..];
            error := ProjectObjectSelection(v, ss[i], projected, c, rank, n);
            if error.Some? {
              return;
            }
          }
        }
        return None;
      }
      var key := ResponseKey(s.alias, s.name);
      if s.name == "__typename" {
        projected.fields := Json.Put(projected.fields, key,
            Json.Str(if c.typeName.Some? then c.typeName.value else "JSON"));
        return None;
      }
      var value := Property(v, s.name);
      if s.selectionSet.Set? {
        var p := ProjectAny(value, s.selectionSet.selections, c.(resource := None, typeName := None), rank, n);
        if p.Bad? {
          return Some(p.error);
        }
        value := p.value;
      }
      projected.fields := Json.Put(projected.fields, key, value);
      return None;
    }

    method ExecuteRootSelection(operation: string, s: Selection, data: Record, c: Context, ghost rank: string -> nat,
                                ghost n: nat)
      returns (error: Option<Error>)
      requires Acyclic(c.fragments, rank) && SpreadsBelow(c.fragments, rank, s, n)
      modifies this, data
      ensures var run := ExecuteSelection(server, old(db), operation, c, rank, n, s, old(data.fields));
              && db == run.db
              && match run.data
                 case Good(fields) => error == None && data.fields == fields
                 case Bad(e) => error == Some(e)
      decreases n, s
    {
      var included := ShouldIncludeSelection(s.directives, server.variables);
      if included.Bad? {
        return Some(included.error);
      }
      if !included.value {
        return None;
      }
      if s.FragmentSpread? {
        if s.name !in c.fragments {
          return Some(UnknownFragment(s.name));
        }
        var fragment := c.fragments[s.name];
        var ss := fragment.selectionSet;
        if TypeConditionApplies(Some(fragment.typeCondition), c.typeName) {
          var inner := ShouldIncludeSelection(fragment.directives, server.variables);
          if inner.Bad? {
            return Some(inner.error);
          }
          if inner.value {
            for i := 0 to |ss|
              invariant ExecuteSelections(server, db, operation, c, rank, rank(s.name), ss[i..], data.fields)
                     == ExecuteSelections(server, old(db), operation, c, rank, rank(s.name), ss, old(data.fields))
            {
              assert ss[i..][0] == ss[i] && ss[i..][1..] == ss[i + 1..];
              error := ExecuteRootSelection(operation, ss[i], data, c, rank, rank(s.name));
              if error.Some? {
                return;
              }
            }
          }
        }
        return None;
      }
      if s.InlineFragment? {
        var ss := s.selections;
        if TypeConditionApplies(s.typeCondition, c.typeName) {
          for i := 0 to |ss|
            invariant ExecuteSelections(server, db, operation, c, rank, n, ss[i..], data.fields)
                   == ExecuteSelections(server, old(db), operation, c, rank, n, ss, old(data.fields))
          {
            assert ss[i..][0] == ss[i] && ss[i..][1..] == ss[i + 1..];
            error := ExecuteRootSelection(operation, ss[i], data, c, rank, n);
            if error.Some? {
              return;
            }
          }
        }
        return None;
      }
      var key := ResponseKey(s.alias, s.name);
      if s.name == "__typename" {
        data.fields := Json.Put(data.fields, key, if c.typeName.Some? then Json.Str(c.typeName.value)
            else Json.Undefined);
        return None;
      }
      var (db', result) := server.field(db, operation, s.name, s.arguments);
      db := db';
      if result.Bad? {
        return Some(result.error);
      }
      var value := result.value.value;
      if s.selectionSet.Set? {
        var p := ProjectAny(value, s.selectionSet.selections, FieldContext(c, result.value), rank, n);
        if p.Bad? {
          return Some(p.error);
        }
        value := p.value;
      }
      data.fields := Json.Put(data.fields, key, value);
      return None;
    }

    method ExecuteSelectionSet(operation: string, ss: seq<Selection>, c: Context, ghost rank: string -> nat,
                               ghost n: nat)
      returns (r: Outcome<seq<Json.Field>>)
      requires Acyclic(c.fragments, rank) && AllBelow(c.fragments, rank, ss, n)
      modifies this
      ensures Run(db, r) == ExecuteSelections(server, old(db), operation, c, rank, n, ss, [])
    {
      var data := new Record();
      for i := 0 to |ss|
        invariant fresh(data)
        invariant ExecuteSelections(server, db, operation, c, rank, n, ss[i..], data.fields)
               == ExecuteSelections(server, old(db), operation, c, rank, n, ss, [])
      {
        assert ss[i..][0] == ss[i] && ss[i..][1..] == ss[i + 1..];
        var error := ExecuteRootSelection(operation, ss[i], data, c, rank, n);
        if error.Some? {
          return Bad(error.value);
        }
      }
      return Good(data.fields);
    }
  }

  function Names(names: seq<string>, rest: Outcome<seq<string>>): Outcome<seq<string>> {
    match rest case Good(more) => Good(names + more) case Bad(e) => Bad(e)
  }

  lemma NamesNone(rest: Outcome<seq<string>>)
    ensures Names([], rest) == rest
  {
    if rest.Good? { assert [] + rest.value == rest.value; }
  }

  lemma NamesAppend(names: seq<string>, here: seq<string>, rest: Outcome<seq<string>>)
    ensures Names(names, Names(here, rest)) == Names(names + here, rest)
    ensures names + [] == names
  {
    if rest.Good? { assert names + (here + rest.value) == (names + here) + rest.value; }
  }
}
