/** The grammar of the GraphQL subset: what the parser accepts is derived by it, and is the tree it
    returns.  `IsX(ts, x, rest)` says that the tokens `ts` up to `rest` derive `x`. */
module GraphqlGrammar {
  import opened Options
  import opened Sequences
  import opened Decimal
  import opened GraphqlSyntax
  import opened GraphqlSpelling

  /** The next token reads `text`; the parser does not look at its kind. */
  predicate Next(ts: seq<Token>, text: string) {
    ts != [] && ts[0].Value() == text
  }

  predicate NextName(ts: seq<Token>, name: string) {
    ts != [] && ts[0] == Name(name)
  }

  // ---------------------------------------------------------------- values

  predicate IsScalar(t: Token, v: Scalar) {
    match t
    case Text(s) => v == StringValue(s)
    case Number(text) => v == ParseNumber(text)
    case Name(name) =>
      v == if name == "true" then BoolValue(true) else if name == "false" then BoolValue(false)
           else if name == "null" then NullValue else StringValue(name)
    case _ => false
  }

  /** The record that the arguments make, one after the other. */
  function Record(pairs: seq<Argument>): seq<Argument> {
    if pairs == [] then []
    else PutArgument(Record(pairs[..|pairs| - 1]), pairs[|pairs| - 1].name, pairs[|pairs| - 1].value)
  }

  ghost predicate IsValue(ts: seq<Token>, v: ValueNode, rest: seq<Token>)
    decreases |ts|, 0
  {
    ts != [] &&
    match v
    case Variable(name) => Next(ts, "$") && NextName(ts[1..], name) && rest == ts[2..]
    case Literal(s) => IsScalar(ts[0], s) && rest == ts[1..]
    case ListNode(values) =>
      ts[0] == Punct("[")
      && exists mid | |mid| < |ts| :: IsValues(ts[1..], values, mid) && Next(mid, "]") && rest == mid[1..]
    case ObjectNode(fields) =>
      ts[0] == Punct("{")
      && exists pairs, mid | |mid| < |ts| ::
           IsArguments(ts[1..], pairs, mid) && fields == Record(pairs) && Next(mid, "}") && rest == mid[1..]
  }

  ghost predicate IsValues(ts: seq<Token>, values: seq<ValueNode>, rest: seq<Token>)
    decreases |ts|, 1
  {
    if values == [] then rest == ts
    else exists mid | |mid| < |ts| :: IsValue(ts, values[0], mid) && IsValues(mid, values[1..], rest)
  }

  ghost predicate IsArguments(ts: seq<Token>, pairs: seq<Argument>, rest: seq<Token>)
    decreases |ts|, 1
  {
    if pairs == [] then rest == ts
    else
      && NextName(ts, pairs[0].name) && Next(ts[1..], ":")
      && exists mid | |mid| < |ts| :: IsValue(ts[2..], pairs[0].value, mid) && IsArguments(mid, pairs[1..], rest)
  }

  lemma RecordSnoc(acc: seq<Argument>, a: Argument)
    ensures Record(acc + [a]) == PutArgument(Record(acc), a.name, a.value)
  {
    assert (acc + [a])[..|acc|] == acc;
  }

  lemma {:induction false} ValueDerived(ts: seq<Token>)
    requires ParseValue(ts).Ok?
    ensures IsValue(ts, ParseValue(ts).node, ParseValue(ts).rest)
    decreases |ts|, 1
  {
    if Peek(ts).Value() == "$" {
      assert ts[1..][1..] == ts[2..];
    } else if Peek(ts) == Punct("[") {
      var values := ValuesDerived(ts[1..], []);
      var mid := ParseValues(ts[1..], []).rest;
      assert [] + values == values && IsValues(ts[1..], values, mid) && Next(mid, "]");
    } else if Peek(ts) == Punct("{") {
      var pairs := ArgumentsDerived(ts[1..], "}", []);
      var mid := ParseArguments(ts[1..], "}", []).rest;
      assert [] + pairs == pairs && IsArguments(ts[1..], pairs, mid) && Next(mid, "}");
    }
  }

  lemma {:induction false} ValuesDerived(ts: seq<Token>, acc: seq<ValueNode>) returns (values: seq<ValueNode>)
    requires ParseValues(ts, acc).Ok?
    ensures ParseValues(ts, acc).node == acc + values && IsValues(ts, values, ParseValues(ts, acc).rest)
    decreases |ts|, 2
  {
    if PeekValue(ts, "]") {
      values := [];
      assert acc + values == acc;
    } else {
      var first := ParseValue(ts);
      ValueDerived(ts);
      var more := ValuesDerived(first.rest, acc + [first.node]);
      values := [first.node] + more;
      assert values[1..] == more;
      Regroup(acc, [first.node], more);
    }
  }

  lemma {:induction false} ArgumentsDerived(ts: seq<Token>, close: string, acc: seq<Argument>)
    returns (pairs: seq<Argument>)
    requires ParseArguments(ts, close, Record(acc)).Ok?
    ensures ParseArguments(ts, close, Record(acc)).node == Record(acc + pairs)
    ensures IsArguments(ts, pairs, ParseArguments(ts, close, Record(acc)).rest)
    ensures PeekValue(ParseArguments(ts, close, Record(acc)).rest, close)
    decreases |ts|, 2
  {
    if PeekValue(ts, close) {
      pairs := [];
      assert acc + pairs == acc;
    } else {
      var a := ParseArgument(ts);
      assert ts[1..][1..] == ts[2..];
      ValueDerived(ts[2..]);
      RecordSnoc(acc, a.node);
      var more := ArgumentsDerived(a.rest, close, acc + [a.node]);
      pairs := [a.node] + more;
      assert pairs[1..] == more;
      Regroup(acc, [a.node], more);
    }
  }

  // ---------------------------------------------------------------- arguments and directives

  ghost predicate IsArgumentList(ts: seq<Token>, args: seq<Argument>, rest: seq<Token>) {
    || (args == [] && rest == ts)
    || (Next(ts, "(")
        && exists pairs, mid ::
             IsArguments(ts[1..], pairs, mid) && args == Record(pairs) && Next(mid, ")") && rest == mid[1..])
  }

  ghost predicate IsDirectives(ts: seq<Token>, ds: seq<Directive>, rest: seq<Token>)
    decreases |ds|
  {
    if ds == [] then rest == ts
    else
      && Next(ts, "@") && NextName(ts[1..], ds[0].name)
      && exists mid :: IsArgumentList(ts[2..], ds[0].arguments, mid) && IsDirectives(mid, ds[1..], rest)
  }

  lemma ArgumentListDerived(ts: seq<Token>)
    requires ParseOptionalArguments(ts).Ok?
    ensures IsArgumentList(ts, ParseOptionalArguments(ts).node, ParseOptionalArguments(ts).rest)
  {
    if PeekValue(ts, "(") {
      var pairs := ArgumentsDerived(ts[1..], ")", []);
      var mid := ParseArguments(ts[1..], ")", []).rest;
      assert [] + pairs == pairs && IsArguments(ts[1..], pairs, mid) && Next(mid, ")");
    }
  }

  lemma {:induction false} DirectivesDerived(ts: seq<Token>, acc: seq<Directive>) returns (ds: seq<Directive>)
    requires ParseDirectives(ts, acc).Ok?
    ensures ParseDirectives(ts, acc).node == acc + ds && IsDirectives(ts, ds, ParseDirectives(ts, acc).rest)
    decreases |ts|
  {
    if !PeekValue(ts, "@") {
      ds := [];
      assert acc + ds == acc;
    } else {
      var name, args := ts[1].text, ParseOptionalArguments(ts[2..]);
      assert ts[1..][1..] == ts[2..];
      ArgumentListDerived(ts[2..]);
      var d := Directive(name, args.node);
      var more := DirectivesDerived(args.rest, acc + [d]);
      ds := [d] + more;
      assert ds[1..] == more;
      Regroup(acc, [d], more);
    }
  }

  lemma AllDirectivesDerived(ts: seq<Token>)
    requires ParseDirectives(ts, []).Ok?
    ensures IsDirectives(ts, ParseDirectives(ts, []).node, ParseDirectives(ts, []).rest)
  {
    var ds := DirectivesDerived(ts, []);
    assert [] + ds == ds;
  }

  // ---------------------------------------------------------------- selections

  predicate IsFieldName(ts: seq<Token>, alias: Option<string>, name: string, rest: seq<Token>) {
    match alias
    case None => NextName(ts, name) && rest == ts[1..]
    case Some(a) => NextName(ts, a) && Next(ts[1..], ":") && NextName(ts[2..], name) && rest == ts[3..]
  }

  ghost predicate IsSelectionSet(ts: seq<Token>, ss: seq<Selection>, rest: seq<Token>)
    decreases |ts|, 0
  {
    Next(ts, "{")
    && exists mid | |mid| < |ts| :: IsSelections(ts[1..], ss, mid) && Next(mid, "}") && rest == mid[1..]
  }

  ghost predicate IsSelections(ts: seq<Token>, ss: seq<Selection>, rest: seq<Token>)
    decreases |ts|, 2
  {
    if ss == [] then rest == ts
    else exists mid | |mid| < |ts| :: IsSelection(ts, ss[0], mid) && IsSelections(mid, ss[1..], rest)
  }

  ghost predicate IsSelection(ts: seq<Token>, s: Selection, rest: seq<Token>)
    decreases |ts|, 1
  {
    match s
    case Field(alias, name, args, ds, set_) =>
      exists m1, m2, m3 | |m3| < |ts| ::
        && IsFieldName(ts, alias, name, m1) && IsArgumentList(m1, args, m2) && IsDirectives(m2, ds, m3)
        && (match set_ case NoSet => rest == m3 case Set(ss) => IsSelectionSet(m3, ss, rest))
    case FragmentSpread(name, ds) =>
      Next(ts, "...") && NextName(ts[1..], name) && name != "on" && IsDirectives(ts[2..], ds, rest)
    case InlineFragment(typeCondition, ds, ss) =>
      && Next(ts, "...") && NextName(ts[1..], "on") && typeCondition.Some? && NextName(ts[2..], typeCondition.value)
      && exists mid | |mid| < |ts| :: IsDirectives(ts[3..], ds, mid) && IsSelectionSet(mid, ss, rest)
  }

  lemma {:induction false} SelectionSetDerived(ts: seq<Token>)
    requires ParseSelectionSet(ts).Ok?
    ensures IsSelectionSet(ts, ParseSelectionSet(ts).node, ParseSelectionSet(ts).rest)
    decreases |ts|, 0
  {
    var ss := SelectionsDerived(ts[1..], []);
    assert [] + ss == ss;
    var mid := ParseSelections(ts[1..], []).rest;
    assert IsSelections(ts[1..], ss, mid) && Next(mid, "}");
  }

  lemma {:induction false} SelectionsDerived(ts: seq<Token>, acc: seq<Selection>) returns (ss: seq<Selection>)
    requires ParseSelections(ts, acc).Ok?
    ensures ParseSelections(ts, acc).node == acc + ss && IsSelections(ts, ss, ParseSelections(ts, acc).rest)
    decreases |ts|, 2
  {
    if PeekValue(ts, "}") {
      ss := [];
      assert acc + ss == acc;
    } else {
      var first := ParseSelection(ts);
      if PeekValue(ts, "...") { FragmentSelectionDerived(ts); } else { FieldDerived(ts); }
      var more := SelectionsDerived(first.rest, acc + [first.node]);
      ss := [first.node] + more;
      assert ss[1..] == more;
      Regroup(acc, [first.node], more);
    }
  }

  lemma {:induction false} FragmentSelectionDerived(ts: seq<Token>)
    requires PeekValue(ts, "...") && ts != [] && ParseFragmentSelection(ts).Ok?
    ensures IsSelection(ts, ParseFragmentSelection(ts).node, ParseFragmentSelection(ts).rest)
    decreases |ts|, 1
  {
    assert ts[1..][1..] == ts[2..];
    if PeekName(ts[1..], "on") {
      assert ts[2..][1..] == ts[3..];
      AllDirectivesDerived(ts[3..]);
      SelectionSetDerived(ParseDirectives(ts[3..], []).rest);
    } else {
      AllDirectivesDerived(ts[2..]);
    }
  }

  lemma FieldNameDerived(ts: seq<Token>)
    requires ParseFieldName(ts).Ok?
    ensures IsFieldName(ts, ParseFieldName(ts).node.0, ParseFieldName(ts).node.1, ParseFieldName(ts).rest)
  {
    assert |ts| > 1 ==> ts[1..][1..] == ts[2..];
    assert |ts| > 2 ==> ts[2..][1..] == ts[3..];
  }

  lemma {:induction false} FieldDerived(ts: seq<Token>)
    requires ParseField(ts).Ok?
    ensures IsSelection(ts, ParseField(ts).node, ParseField(ts).rest)
    decreases |ts|, 1
  {
    FieldNameDerived(ts);
    var m1 := ParseFieldName(ts).rest;
    ArgumentListDerived(m1);
    var m2 := ParseOptionalArguments(m1).rest;
    AllDirectivesDerived(m2);
    var m3 := ParseDirectives(m2, []).rest;
    if PeekValue(m3, "{") { SelectionSetDerived(m3); }
  }

  // ---------------------------------------------------------------- definitions

  /** Nothing, or a group in balanced parentheses. */
  ghost predicate IsGroup(ts: seq<Token>, rest: seq<Token>) {
    || rest == ts
    || (Next(ts, "(")
        && exists group, last: Token :: Balanced(group, 0) && last.Value() == ")" && ts[1..] == group + ([last] + rest))
  }

  ghost predicate IsOperation(ts: seq<Token>, op: Operation, rest: seq<Token>) {
    || (op == Operation("query", None, [], op.selectionSet) && IsSelectionSet(ts, op.selectionSet, rest))
    || (&& (op.operation == "query" || op.operation == "mutation") && NextName(ts, op.operation)
        && (op.name.Some? ==> NextName(ts[1..], op.name.value))
        && exists m1, m2 ::
             && IsGroup(if op.name.Some? then ts[2..] else ts[1..], m1)
             && IsDirectives(m1, op.directives, m2) && IsSelectionSet(m2, op.selectionSet, rest))
  }

  ghost predicate IsFragment(ts: seq<Token>, f: Fragment, rest: seq<Token>) {
    && NextName(ts, "fragment") && NextName(ts[1..], f.name) && NextName(ts[2..], "on")
    && NextName(ts[3..], f.typeCondition)
    && exists mid :: IsDirectives(ts[4..], f.directives, mid) && IsSelectionSet(mid, f.selectionSet, rest)
  }

  lemma {:induction false} GroupDerived(ts: seq<Token>, depth: nat) returns (group: seq<Token>, last: Token)
    requires SkipBalanced(ts, "(", ")", depth + 1).Ok?
    ensures Balanced(group, depth) && last.Value() == ")"
    ensures ts == group + ([last] + SkipBalanced(ts, "(", ")", depth + 1).rest)
    decreases |ts|
  {
    var rest := SkipBalanced(ts, "(", ")", depth + 1).rest;
    assert ts != [] && ts == [ts[0]] + ts[1..];
    if ts[0].Value() == ")" && depth == 0 {
      group, last := [], ts[0];
      assert group + ([last] + rest) == [last] + rest;
    } else {
      var d := if ts[0].Value() == "(" then depth + 1 else if ts[0].Value() == ")" then depth - 1 else depth;
      var more;
      more, last := GroupDerived(ts[1..], d);
      group := [ts[0]] + more;
      assert group[1..] == more;
      Regroup([ts[0]], more, [last] + rest);
    }
  }

  lemma VariablesDerived(ts: seq<Token>, rest: seq<Token>)
    requires var skipped := SkipBalanced(Consume(ts), "(", ")", 1);
             if PeekValue(ts, "(") then skipped.Ok? && skipped.rest == rest else rest == ts
    ensures IsGroup(ts, rest)
  {
    if PeekValue(ts, "(") { var group, last := GroupDerived(ts[1..], 0); }
  }

  lemma KeywordDerived(ts: seq<Token>)
    requires ParseOperation(ts).Ok? && !PeekValue(ts, "{")
    ensures IsOperation(ts, ParseOperation(ts).node, ParseOperation(ts).rest)
  {
    var t1 := Consume(ts);
    var t2 := if Peek(t1).Name? then Consume(t1) else t1;
    assert t2 == if Peek(t1).Name? then ts[2..] else ts[1..];
    var m1 := if PeekValue(t2, "(") then SkipBalanced(Consume(t2), "(", ")", 1).rest else t2;
    var m2 := ParseDirectives(m1, []).rest;
    VariablesDerived(t2, m1);
    AllDirectivesDerived(m1);
    SelectionSetDerived(m2);
    var op := ParseOperation(ts).node;
    assert IsGroup(if op.name.Some? then ts[2..] else ts[1..], m1) && IsDirectives(m1, op.directives, m2);
  }

  lemma OperationDerived(ts: seq<Token>)
    requires ParseOperation(ts).Ok?
    ensures IsOperation(ts, ParseOperation(ts).node, ParseOperation(ts).rest)
  {
    if PeekValue(ts, "{") { SelectionSetDerived(ts); } else { KeywordDerived(ts); }
  }

  lemma FragmentDerived(ts: seq<Token>)
    requires ParseFragment(ts).Ok?
    ensures IsFragment(ts, ParseFragment(ts).node, ParseFragment(ts).rest)
  {
    assert ts[1..][1..] == ts[2..] && ts[2..][1..] == ts[3..] && ts[3..][1..] == ts[4..];
    AllDirectivesDerived(ts[4..]);
    SelectionSetDerived(ParseDirectives(ts[4..], []).rest);
  }

  /** The definitions of a source: operations in order, and fragments by name. */
  ghost predicate AreDefinitions(ts: seq<Token>, before: Definitions, after: Definitions)
    decreases |ts|
  {
    || ((ts == [] || Next(ts, "<eof>")) && after == before)
    || (exists f, rest | |rest| < |ts| ::
          IsFragment(ts, f, rest)
          && AreDefinitions(rest, before.(fragments := PutFragment(before.fragments, f)), after))
    || (exists op, rest | |rest| < |ts| ::
          IsOperation(ts, op, rest)
          && AreDefinitions(rest, before.(operations := before.operations + [op]), after))
  }

  lemma {:induction false} DefinitionsDerived(ts: seq<Token>, acc: Definitions)
    requires ParseDefinitions(ts, acc).Some?
    ensures AreDefinitions(ts, acc, ParseDefinitions(ts, acc).value)
    decreases |ts|
  {
    if PeekValue(ts, "<eof>") {
    } else if PeekName(ts, "fragment") {
      var f := ParseFragment(ts);
      FragmentDerived(ts);
      DefinitionsDerived(f.rest, acc.(fragments := PutFragment(acc.fragments, f.node)));
    } else {
      var op := ParseOperation(ts);
      OperationDerived(ts);
      DefinitionsDerived(op.rest, acc.(operations := acc.operations + [op.node]));
    }
  }

  /** A source that parses is spelt from tokens that derive its operations and fragments. */
  lemma ParsedIsDerived(source: string) returns (ps: seq<Piece>)
    requires ParseGraphql(source).Some?
    ensures var d := ParseGraphql(source).value;
            && SourceOk(ps) && TextOf(ps) == source
            && AreDefinitions(TokensOf(ps) + [Eof], Definitions([], []), Definitions(d.operations, d.fragments))
            && d == MakeDocument(Definitions(d.operations, d.fragments))
  {
    ps := TextIsSpelt(source);
    DefinitionsDerived(TokensOf(ps) + [Eof], Definitions([], []));
  }

  // ---------------------------------------------------------------- records and numbers

  predicate LastNamed(pairs: seq<Argument>, i: nat, name: string) {
    i < |pairs| && pairs[i].name == name && forall j | i < j < |pairs| :: pairs[j].name != name
  }

  predicate NamesOnce(record: seq<Argument>) {
    forall i, j | 0 <= i < j < |record| :: record[i].name != record[j].name
  }

  lemma {:induction false} PutMeans(record: seq<Argument>, name: string, value: ValueNode, a: Argument)
    requires NamesOnce(record)
    ensures var r := PutArgument(record, name, value);
            && NamesOnce(r) && (forall b | b in r :: b.name == name || b in record)
            && (a in r <==> if a.name == name then a.value == value else a in record)
  {
    if record != [] {
      assert record == [record[0]] + record[1..];
      if record[0].name == name {
        forall i | 0 <= i < |record[1..]| ensures record[1..][i].name != name {
          assert record[i + 1].name != record[0].name;
        }
      } else {
        PutMeans(record[1..], name, value, a);
        var r := PutArgument(record[1..], name, value);
        forall i | 0 <= i < |r| ensures r[i].name != record[0].name {
          assert r[i] in r;
          if r[i] in record[1..] {
            var j :| 0 <= j < |record[1..]| && record[1..][j] == r[i];
            assert record[j + 1] == r[i];
          }
        }
      }
    }
  }

  /** A record has each name once, with the value that was given last. */
  lemma {:induction false} RecordMeans(pairs: seq<Argument>, a: Argument)
    ensures NamesOnce(Record(pairs))
    ensures a in Record(pairs) <==> exists i: nat :: LastNamed(pairs, i, a.name) && pairs[i] == a
  {
    if pairs != [] {
      var n := |pairs| - 1;
      var before, last := pairs[..n], pairs[n];
      RecordMeans(before, a);
      PutMeans(Record(before), last.name, last.value, a);
      LastOfMore(before, last, a);
      assert before + [last] == pairs;
    }
  }

  lemma LastOfMore(before: seq<Argument>, last: Argument, a: Argument)
    ensures (exists i: nat :: LastNamed(before + [last], i, a.name) && (before + [last])[i] == a)
       <==> if a.name == last.name then a == last else exists i: nat :: LastNamed(before, i, a.name) && before[i] == a
  {
    var all, n := before + [last], |before|;
    assert all[n] == last;
    if a == last { assert LastNamed(all, n, a.name); }
    if a.name != last.name && exists i: nat :: LastNamed(before, i, a.name) && before[i] == a {
      var i: nat :| LastNamed(before, i, a.name) && before[i] == a;
      assert LastNamed(all, i, a.name) && all[i] == a;
    }
    if exists i: nat :: LastNamed(all, i, a.name) && all[i] == a {
      var i: nat :| LastNamed(all, i, a.name) && all[i] == a;
      if i < n {
        assert all[n].name != a.name;
        forall j | i < j < n ensures before[j].name != a.name { assert all[j] == before[j]; }
        assert LastNamed(before, i, a.name) && before[i] == a;
      }
    }
  }

  /** Of fragments with one name the one defined last is meant. */
  lemma {:induction false} PutFragmentMeans(fs: seq<Fragment>, f: Fragment, g: Fragment)
    requires forall i, j | 0 <= i < j < |fs| :: fs[i].name != fs[j].name
    ensures g in PutFragment(fs, f) <==> if g.name == f.name then g == f else g in fs
  {
    if fs != [] {
      assert fs == [fs[0]] + fs[1..];
      if fs[0].name == f.name {
        forall i | 0 <= i < |fs[1..]| ensures fs[1..][i].name != f.name { assert fs[i + 1].name != fs[0].name; }
      } else {
        PutFragmentMeans(fs[1..], f, g);
      }
    }
  }

  /** A number is the integer that its first digits say, after a minus its negation; without digits it is
      not a number. */
  lemma NumberMeans(digits: string, tail: string)
    requires AllDigits(digits) && digits != "" && (tail == "" || !IsDigit(tail[0])) && '.' !in digits + tail
    ensures ParseNumber(digits + tail) == IntValue(NatOf(digits))
  {
    PrefixIs(digits, tail);
    assert (digits + tail)[0] == digits[0] && IsDigit(digits[0]);
  }

  lemma NegativeMeans(text: string, digits: string, tail: string)
    requires AllDigits(digits) && (tail == "" || !IsDigit(tail[0])) && '.' !in text
    requires text != "" && text[0] == '-' && text[1..] == digits + tail
    ensures ParseNumber(text) == if digits == "" then NaN else IntValue(0 - NatOf(digits))
  {
    PrefixIs(digits, tail);
  }

  lemma {:induction false} PrefixIs(digits: string, tail: string)
    requires AllDigits(digits) && (tail == "" || !IsDigit(tail[0]))
    ensures DigitPrefix(digits + tail) == digits
  {
    if digits == "" {
      assert digits + tail == tail;
    } else {
      assert (digits + tail)[0] == digits[0] && (digits + tail)[1..] == digits[1..] + tail;
      assert digits == [digits[0]] + digits[1..];
      PrefixIs(digits[1..], tail);
    }
  }
}
