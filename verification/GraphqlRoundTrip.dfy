/** A printer for documents, and: parsing undoes printing exactly on the documents the parser can
    produce. */
module GraphqlRoundTrip {
  import opened Options
  import opened Sequences
  import opened Decimal
  import opened GraphqlSyntax

  // ---------------------------------------------------------------- the printer

  function PrintScalar(v: Scalar): Token {
    match v
    case StringValue(s) => Text(s)
    case IntValue(n) => Number(IntText(n))
    case DecimalValue(text) => Number(text)
    case NaN => Number("-")
    case BoolValue(b) => Name(if b then "true" else "false")
    case NullValue => Name("null")
  }

  function PrintValue(v: ValueNode): seq<Token> {
    match v
    case Variable(name) => [Punct("$"), Name(name)]
    case Literal(value) => [PrintScalar(value)]
    case ListNode(values) => [Punct("[")] + PrintValues(values) + [Punct("]")]
    case ObjectNode(fields) => [Punct("{")] + PrintArguments(fields) + [Punct("}")]
  }

  function PrintValues(values: seq<ValueNode>): seq<Token> {
    if values == [] then [] else PrintValue(values[0]) + PrintValues(values[1..])
  }

  function PrintArguments(args: seq<Argument>): seq<Token> {
    if args == [] then []
    else [Name(args[0].name), Punct(":")] + PrintValue(args[0].value) + PrintArguments(args[1..])
  }

  function PrintOptionalArguments(args: seq<Argument>): seq<Token> {
    if args == [] then [] else [Punct("(")] + PrintArguments(args) + [Punct(")")]
  }

  function PrintDirectives(ds: seq<Directive>): seq<Token> {
    if ds == [] then []
    else [Punct("@"), Name(ds[0].name)] + PrintOptionalArguments(ds[0].arguments) + PrintDirectives(ds[1..])
  }

  function PrintSelectionSet(ss: seq<Selection>): seq<Token>
    decreases ss, 1
  {
    [Punct("{")] + PrintSelections(ss) + [Punct("}")]
  }

  function PrintSelections(ss: seq<Selection>): seq<Token>
    decreases ss, 0
  {
    if ss == [] then [] else PrintSelection(ss[0]) + PrintSelections(ss[1..])
  }

  function PrintSub(set_: SubSelection): seq<Token>
    decreases set_, 0
  {
    match set_ case Set(ss) => PrintSelectionSet(ss) case NoSet => []
  }

  function PrintFieldName(alias: Option<string>, name: string): seq<Token> {
    match alias
    case Some(a) => [Name(a), Punct(":"), Name(name)]
    case None => [Name(name)]
  }

  function PrintSelection(s: Selection): seq<Token>
    decreases s, 0
  {
    match s
    case Field(alias, name, args, ds, set_) =>
      PrintFieldName(alias, name) + PrintOptionalArguments(args) + PrintDirectives(ds)
      + PrintSub(set_)
    case FragmentSpread(name, ds) => [Punct("..."), Name(name)] + PrintDirectives(ds)
    case InlineFragment(typeCondition, ds, ss) =>
      [Punct("...")] + (match typeCondition case Some(t) => [Name("on"), Name(t)] case None => [])
      + PrintDirectives(ds) + PrintSelectionSet(ss)
  }

  function PrintOperation(op: Operation): seq<Token> {
    [Name(op.operation)] + (match op.name case Some(n) => [Name(n)] case None => [])
    + PrintDirectives(op.directives) + PrintSelectionSet(op.selectionSet)
  }

  function PrintFragment(f: Fragment): seq<Token> {
    [Name("fragment"), Name(f.name), Name("on"), Name(f.typeCondition)]
    + PrintDirectives(f.directives) + PrintSelectionSet(f.selectionSet)
  }

  function PrintOperations(ops: seq<Operation>): seq<Token> {
    if ops == [] then [] else PrintOperation(ops[0]) + PrintOperations(ops[1..])
  }

  function PrintFragments(fs: seq<Fragment>): seq<Token> {
    if fs == [] then [] else PrintFragment(fs[0]) + PrintFragments(fs[1..])
  }

  function PrintDocument(d: Document): seq<Token> {
    PrintOperations(d.operations) + PrintFragments(d.fragments)
  }

  // ---------------------------------------------------------------- what the parser can produce

  predicate IsName(s: string) {
    s != "" && IsLetter(s[0]) && forall c | c in s :: IsNameChar(c)
  }

  predicate IsNumberText(s: string) {
    s != "" && (s[0] == '-' || IsDigit(s[0])) && forall c | c in s :: IsNumberChar(c)
  }

  /** No parse yields the string "$": the parser takes that literal for the sigil of a variable. */
  predicate WfScalar(v: Scalar) {
    match v
    case StringValue(s) => s != "$"
    case DecimalValue(text) => IsNumberText(text) && '.' in text
    case _ => true
  }

  predicate WfValue(v: ValueNode)
    decreases v, 0
  {
    match v
    case Variable(name) => IsName(name)
    case Literal(value) => WfScalar(value)
    case ListNode(values) => forall x | x in values :: WfItem(x)
    case ObjectNode(fields) => WfArguments(fields)
  }

  /** No list holds the string "]": the parser takes that literal for the end of the list. */
  predicate WfItem(v: ValueNode)
    decreases v, 1
  {
    v != Literal(StringValue("]")) && WfValue(v)
  }

  predicate DistinctNames(args: seq<Argument>) {
    forall i, j | 0 <= i < j < |args| :: args[i].name != args[j].name
  }

  predicate WfArguments(args: seq<Argument>)
    decreases args, 0
  {
    DistinctNames(args) && forall a | a in args :: IsName(a.name) && WfValue(a.value)
  }

  predicate WfDirectives(ds: seq<Directive>) {
    forall d | d in ds :: IsName(d.name) && WfArguments(d.arguments)
  }

  predicate WfSelection(s: Selection) {
    match s
    case Field(alias, name, args, ds, set_) =>
      && (alias.Some? ==> IsName(alias.value)) && IsName(name) && WfArguments(args) && WfDirectives(ds)
      && (match set_ case Set(ss) => forall x | x in ss :: WfSelection(x) case NoSet => true)
    case FragmentSpread(name, ds) => IsName(name) && name != "on" && WfDirectives(ds)
    case InlineFragment(typeCondition, ds, ss) =>
      && typeCondition.Some? && IsName(typeCondition.value) && WfDirectives(ds)
      && forall x | x in ss :: WfSelection(x)
  }

  predicate WfSelections(ss: seq<Selection>) {
    forall x | x in ss :: WfSelection(x)
  }

  predicate WfOperation(op: Operation) {
    && (op.operation == "query" || op.operation == "mutation")
    && (op.name.Some? ==> IsName(op.name.value))
    && WfDirectives(op.directives) && WfSelections(op.selectionSet)
  }

  predicate WfFragment(f: Fragment) {
    IsName(f.name) && IsName(f.typeCondition) && WfDirectives(f.directives) && WfSelections(f.selectionSet)
  }

  predicate DistinctFragments(fs: seq<Fragment>) {
    forall i, j | 0 <= i < j < |fs| :: fs[i].name != fs[j].name
  }

  predicate WfDefinitions(d: Definitions) {
    && (forall op | op in d.operations :: WfOperation(op))
    && (forall f | f in d.fragments :: WfFragment(f))
    && DistinctFragments(d.fragments)
  }

  predicate WfDocument(d: Document) {
    WfDefinitions(Definitions(d.operations, d.fragments)) && d == MakeDocument(Definitions(d.operations, d.fragments))
  }

  // ---------------------------------------------------------------- shapes

  lemma Regroup2(a: seq<Token>, b: seq<Token>, rest: seq<Token>)
    ensures (a + b) + rest == a + (b + rest)
  {
  }

  lemma Regroup3(a: seq<Token>, b: seq<Token>, c: seq<Token>, rest: seq<Token>)
    ensures ((a + b) + c) + rest == a + (b + (c + rest))
  {
  }

  lemma Regroup4(a: seq<Token>, b: seq<Token>, c: seq<Token>, d: seq<Token>, rest: seq<Token>)
    ensures (((a + b) + c) + d) + rest == a + (b + (c + (d + rest)))
  {
  }

  /** `start`, one token after the other, and then `rest`. */
  ghost predicate Begins(ts: seq<Token>, start: seq<Token>, rest: seq<Token>) {
    && |ts| == |start| + |rest|
    && (forall i | 0 <= i < |start| :: ts[i] == start[i])
    && ts[|start|..] == rest
  }

  lemma BeginsConcat(start: seq<Token>, rest: seq<Token>)
    ensures Begins(start + rest, start, rest)
  {
  }

  // ---------------------------------------------------------------- values

  lemma NumberParses(v: Scalar)
    requires v.IntValue? || v.NaN? || (v.DecimalValue? && '.' in v.text)
    ensures PrintScalar(v).Number? && ParseNumber(PrintScalar(v).text) == v
  {
    match v
    case IntValue(n) => IntParses(n);
    case _ =>
  }

  lemma IntParses(n: int)
    ensures ParseNumber(IntText(n)) == IntValue(n)
  {
    var digits := NatText(if n < 0 then -n else n);
    NatOfText(if n < 0 then -n else n);
    NoPoint(digits);
    if n < 0 {
      assert IntText(n)[1..] == digits;
    } else {
      assert IsDigit(digits[0]);
    }
  }

  lemma NoPoint(digits: string)
    requires AllDigits(digits)
    ensures '.' !in digits
  {
    forall c | c in digits ensures c != '.' { assert IsDigit(c); }
  }

  lemma {:induction false} PutArgumentNew(record: seq<Argument>, name: string, value: ValueNode)
    requires forall a | a in record :: a.name != name
    ensures PutArgument(record, name, value) == record + [Argument(name, value)]
  {
    if record != [] { PutArgumentNew(record[1..], name, value); }
  }

  lemma {:induction false} ValueRoundTrip(v: ValueNode, rest: seq<Token>)
    requires WfValue(v)
    ensures ParseValue(PrintValue(v) + rest) == Ok(v, rest)
    decreases v, 1
  {
    match v
    case Variable(name) =>
      BeginsConcat([Punct("$"), Name(name)], rest);
      assert Consume(Consume(PrintValue(v) + rest)) == rest;
    case Literal(value) => ScalarRoundTrip(value, rest);
    case ListNode(values) =>
      var after := [Punct("]")] + rest;
      Regroup3([Punct("[")], PrintValues(values), [Punct("]")], rest);
      ValuesRoundTrip(values, after, []);
      assert [] + values == values;
      ListStep(values, PrintValues(values) + after, rest);
    case ObjectNode(fields) =>
      Regroup3([Punct("{")], PrintArguments(fields), [Punct("}")], rest);
      RecordRoundTrip(fields, "{", "}", rest);
      ObjectStep(fields, PrintArguments(fields) + ([Punct("}")] + rest), rest);
  }

  lemma ScalarRoundTrip(value: Scalar, rest: seq<Token>)
    requires WfScalar(value)
    ensures ParseValue([PrintScalar(value)] + rest) == Ok(Literal(value), rest)
  {
    var t := PrintScalar(value);
    assert Consume([t] + rest) == rest && ([t] + rest)[0] == t;
    if t.Number? { NumberTokenParses(value, rest); }
  }

  lemma NumberTokenParses(value: Scalar, rest: seq<Token>)
    requires WfScalar(value) && PrintScalar(value).Number?
    ensures ParseValue([PrintScalar(value)] + rest) == Ok(Literal(value), rest)
  {
    var t := PrintScalar(value);
    assert Consume([t] + rest) == rest && ([t] + rest)[0] == t;
    NumberParses(value);
    if value.IntValue? { assert ParseNumber("$") == NaN; }
    if value.DecimalValue? { assert IsNumberChar(value.text[0]); }
  }

  lemma ListStep(values: seq<ValueNode>, inner: seq<Token>, rest: seq<Token>)
    requires ParseValues(inner, []) == Ok(values, [Punct("]")] + rest)
    ensures ParseValue([Punct("[")] + inner) == Ok(ListNode(values), rest)
  {
    assert Consume([Punct("[")] + inner) == inner;
    assert Consume([Punct("]")] + rest) == rest;
  }

  lemma ObjectStep(fields: seq<Argument>, inner: seq<Token>, rest: seq<Token>)
    requires ParseRecord([Punct("{")] + inner, "{", "}") == Ok(fields, rest)
    ensures ParseValue([Punct("{")] + inner) == Ok(ObjectNode(fields), rest)
  {
  }

  lemma {:induction false} RecordRoundTrip(args: seq<Argument>, open: string, close: string, rest: seq<Token>)
    requires WfArguments(args)
    requires open != "<eof>" && (close == ")" || close == "}")
    ensures ParseRecord([Punct(open)] + (PrintArguments(args) + ([Punct(close)] + rest)), open, close) == Ok(args, rest)
    decreases args, 1
  {
    ArgumentsRoundTrip(args, close, [Punct(close)] + rest, []);
    assert [] + args == args;
    RecordStep(args, open, close, PrintArguments(args) + ([Punct(close)] + rest), rest);
  }

  lemma RecordStep(args: seq<Argument>, open: string, close: string, inner: seq<Token>, rest: seq<Token>)
    requires open != "<eof>" && close != "<eof>"
    requires ParseArguments(inner, close, []) == Ok(args, [Punct(close)] + rest)
    ensures ParseRecord([Punct(open)] + inner, open, close) == Ok(args, rest)
  {
    assert Consume([Punct(open)] + inner) == inner;
    assert Consume([Punct(close)] + rest) == rest;
  }

  lemma {:induction false} ValuesRoundTrip(values: seq<ValueNode>, after: seq<Token>, acc: seq<ValueNode>)
    requires forall x | x in values :: WfItem(x)
    requires PeekValue(after, "]")
    ensures ParseValues(PrintValues(values) + after, acc) == Ok(acc + values, after)
    decreases values, 0
  {
    if values == [] {
      assert PrintValues(values) + after == after && acc + values == acc;
    } else {
      var rest := PrintValues(values[1..]) + after;
      ValuesShape(values, after);
      assert WfItem(values[0]);
      ItemStart(values[0], rest);
      ValueRoundTrip(values[0], rest);
      ValuesStep(PrintValue(values[0]) + rest, values[0], rest, acc);
      ValuesRoundTrip(values[1..], after, acc + [values[0]]);
      Shift(acc, values);
    }
  }

  lemma ValuesShape(values: seq<ValueNode>, after: seq<Token>)
    requires values != []
    ensures PrintValues(values) + after == PrintValue(values[0]) + (PrintValues(values[1..]) + after)
  {
  }

  lemma ValuesStep(ts: seq<Token>, v: ValueNode, rest: seq<Token>, acc: seq<ValueNode>)
    requires !PeekValue(ts, "]") && ParseValue(ts) == Ok(v, rest)
    ensures ParseValues(ts, acc) == ParseValues(rest, acc + [v])
  {
  }

  lemma ItemStart(v: ValueNode, rest: seq<Token>)
    requires WfItem(v)
    ensures !PeekValue(PrintValue(v) + rest, "]")
  {
  }

  lemma {:induction false} ArgumentsRoundTrip(args: seq<Argument>, close: string, after: seq<Token>, acc: seq<Argument>)
    requires WfArguments(args)
    requires close == ")" || close == "}"
    requires Apart(acc, args)
    requires PeekValue(after, close)
    ensures ParseArguments(PrintArguments(args) + after, close, acc) == Ok(acc + args, after)
    decreases args, 0
  {
    if args == [] {
      assert PrintArguments(args) + after == after && acc + args == acc;
    } else {
      var a := args[0];
      var rest := PrintArguments(args[1..]) + after;
      assert WfValue(a.value) && IsName(a.name);
      ValueRoundTrip(a.value, rest);
      NamesStayDistinct(args, acc);
      FirstArgument(args, close, after, acc);
      ArgumentsRoundTrip(args[1..], close, after, acc + [a]);
      Shift(acc, args);
    }
  }

  lemma {:induction false} FirstArgument(args: seq<Argument>, close: string, after: seq<Token>, acc: seq<Argument>)
    requires args != [] && IsName(args[0].name)
    requires close == ")" || close == "}"
    requires forall a | a in acc :: a.name != args[0].name
    requires var rest := PrintArguments(args[1..]) + after;
             ParseValue(PrintValue(args[0].value) + rest) == Ok(args[0].value, rest)
    ensures ParseArguments(PrintArguments(args) + after, close, acc)
         == ParseArguments(PrintArguments(args[1..]) + after, close, acc + [args[0]])
  {
    var rest := PrintArguments(args[1..]) + after;
    var ts := PrintArguments(args) + after;
    ArgumentsShape(args, after);
    ArgumentStep(ts, args[0], rest);
    NameIsNotPunct(args[0].name, close);
    PutArgumentNew(acc, args[0].name, args[0].value);
    ArgumentsStep(ts, close, args[0], rest, acc);
  }

  ghost predicate Apart(acc: seq<Argument>, args: seq<Argument>) {
    forall i, j | 0 <= i < |acc| && 0 <= j < |args| :: acc[i].name != args[j].name
  }

  lemma NamesStayDistinct(args: seq<Argument>, acc: seq<Argument>)
    requires args != [] && WfArguments(args)
    requires Apart(acc, args)
    ensures WfArguments(args[1..])
    ensures Apart(acc + [args[0]], args[1..])
    ensures forall a | a in acc :: a.name != args[0].name
  {
  }

  lemma ArgumentsShape(args: seq<Argument>, after: seq<Token>)
    requires args != []
    ensures Begins(PrintArguments(args) + after, [Name(args[0].name), Punct(":")],
                   PrintValue(args[0].value) + (PrintArguments(args[1..]) + after))
  {
    var start := [Name(args[0].name), Punct(":")];
    Regroup3(start, PrintValue(args[0].value), PrintArguments(args[1..]), after);
    BeginsConcat(start, PrintValue(args[0].value) + (PrintArguments(args[1..]) + after));
  }

  lemma {:induction false} ArgumentStep(ts: seq<Token>, a: Argument, rest: seq<Token>)
    requires exists more :: Begins(ts, [Name(a.name), Punct(":")], more) && ParseValue(more) == Ok(a.value, rest)
    ensures ParseArgument(ts) == Ok(a, rest)
  {
    assert Consume(Consume(ts)) == ts[2..];
  }

  lemma ArgumentsStep(ts: seq<Token>, close: string, a: Argument, rest: seq<Token>, acc: seq<Argument>)
    requires !PeekValue(ts, close) && ParseArgument(ts) == Ok(a, rest)
    ensures ParseArguments(ts, close, acc) == ParseArguments(rest, close, PutArgument(acc, a.name, a.value))
  {
  }

  lemma NameIsNotPunct(name: string, p: string)
    requires IsName(name)
    requires p != "" && !IsLetter(p[0])
    ensures name != p
  {
  }

  lemma OptionalArgumentsRoundTrip(args: seq<Argument>, rest: seq<Token>)
    requires WfArguments(args)
    requires !PeekValue(rest, "(")
    ensures ParseOptionalArguments(PrintOptionalArguments(args) + rest) == Ok(args, rest)
  {
    if args == [] {
      assert PrintOptionalArguments(args) + rest == rest;
    } else {
      Regroup3([Punct("(")], PrintArguments(args), [Punct(")")], rest);
      RecordRoundTrip(args, "(", ")", rest);
    }
  }

  lemma {:induction false} DirectivesRoundTrip(ds: seq<Directive>, rest: seq<Token>, acc: seq<Directive>)
    requires WfDirectives(ds)
    requires !PeekValue(rest, "(") && !PeekValue(rest, "@")
    ensures ParseDirectives(PrintDirectives(ds) + rest, acc) == Ok(acc + ds, rest)
  {
    if ds == [] {
      assert PrintDirectives(ds) + rest == rest && acc + ds == acc;
    } else {
      assert WfArguments(ds[0].arguments);
      FirstDirective(ds, rest, acc);
      DirectivesRoundTrip(ds[1..], rest, acc + [ds[0]]);
      Shift(acc, ds);
    }
  }

  lemma FirstDirective(ds: seq<Directive>, rest: seq<Token>, acc: seq<Directive>)
    requires ds != [] && WfArguments(ds[0].arguments)
    requires !PeekValue(rest, "(")
    ensures ParseDirectives(PrintDirectives(ds) + rest, acc)
        == ParseDirectives(PrintDirectives(ds[1..]) + rest, acc + [ds[0]])
  {
    var more := PrintDirectives(ds[1..]) + rest;
    DirectivesShape(ds, rest);
    DirectivesStart(ds[1..], rest);
    OptionalArgumentsRoundTrip(ds[0].arguments, more);
    DirectivesStep(PrintDirectives(ds) + rest, ds[0], more, acc);
  }

  lemma DirectivesShape(ds: seq<Directive>, rest: seq<Token>)
    requires ds != []
    ensures Begins(PrintDirectives(ds) + rest, [Punct("@"), Name(ds[0].name)],
                   PrintOptionalArguments(ds[0].arguments) + (PrintDirectives(ds[1..]) + rest))
  {
    var start := [Punct("@"), Name(ds[0].name)];
    Regroup3(start, PrintOptionalArguments(ds[0].arguments), PrintDirectives(ds[1..]), rest);
    BeginsConcat(start, PrintOptionalArguments(ds[0].arguments) + (PrintDirectives(ds[1..]) + rest));
  }

  /** Directives begin with '@', or there are none. */
  lemma DirectivesStart(ds: seq<Directive>, rest: seq<Token>)
    ensures if ds == [] then PrintDirectives(ds) + rest == rest else Peek(PrintDirectives(ds) + rest) == Punct("@")
  {
    if ds != [] { assert (PrintDirectives(ds) + rest)[0] == PrintDirectives(ds)[0]; }
  }

  lemma {:induction false} DirectivesStep(ts: seq<Token>, d: Directive, rest: seq<Token>, acc: seq<Directive>)
    requires exists more :: Begins(ts, [Punct("@"), Name(d.name)], more)
              && ParseOptionalArguments(more) == Ok(d.arguments, rest)
    ensures ParseDirectives(ts, acc) == ParseDirectives(rest, acc + [d])
  {
    assert Consume(Consume(ts)) == ts[2..];
  }

  // ---------------------------------------------------------------- selections

  /** What may follow a selection: it continues none of the optional parts of a field. */
  predicate Follows(ts: seq<Token>) {
    !PeekValue(ts, "(") && !PeekValue(ts, "@") && !PeekValue(ts, "{") && !PeekValue(ts, ":")
  }

  lemma SelectionStart(s: Selection, rest: seq<Token>)
    requires WfSelection(s)
    ensures Follows(PrintSelection(s) + rest) && !PeekValue(PrintSelection(s) + rest, "}")
    ensures PeekValue(PrintSelection(s) + rest, "...") <==> !s.Field?
  {
    assert Peek(PrintSelection(s) + rest) == PrintSelection(s)[0];
  }

  lemma {:induction false} SelectionSetRoundTrip(ss: seq<Selection>, rest: seq<Token>)
    requires WfSelections(ss)
    ensures ParseSelectionSet(PrintSelectionSet(ss) + rest) == Ok(ss, rest)
    decreases ss, 2
  {
    var after := [Punct("}")] + rest;
    Regroup3([Punct("{")], PrintSelections(ss), [Punct("}")], rest);
    SelectionsRoundTrip(ss, after, []);
    assert [] + ss == ss;
    SelectionSetStep(ss, PrintSelections(ss) + after, rest);
  }

  lemma SelectionSetStep(ss: seq<Selection>, inner: seq<Token>, rest: seq<Token>)
    requires ParseSelections(inner, []) == Ok(ss, [Punct("}")] + rest)
    ensures ParseSelectionSet([Punct("{")] + inner) == Ok(ss, rest)
  {
    assert Consume([Punct("{")] + inner) == inner;
    assert Consume([Punct("}")] + rest) == rest;
  }

  lemma {:induction false} SelectionsRoundTrip(ss: seq<Selection>, after: seq<Token>, acc: seq<Selection>)
    requires WfSelections(ss)
    requires PeekValue(after, "}")
    ensures ParseSelections(PrintSelections(ss) + after, acc) == Ok(acc + ss, after)
    decreases ss, 0
  {
    if ss == [] {
      assert PrintSelections(ss) + after == after && acc + ss == acc;
    } else {
      var rest := PrintSelections(ss[1..]) + after;
      SelectionsShape(ss, after);
      assert WfSelection(ss[0]);
      SelectionStart(ss[0], rest);
      SelectionsStart(ss[1..], after);
      SelectionRoundTrip(ss[0], rest);
      SelectionsStep(PrintSelection(ss[0]) + rest, ss[0], rest, acc);
      SelectionsRoundTrip(ss[1..], after, acc + [ss[0]]);
      Shift(acc, ss);
    }
  }

  lemma SelectionsShape(ss: seq<Selection>, after: seq<Token>)
    requires ss != []
    ensures PrintSelections(ss) + after == PrintSelection(ss[0]) + (PrintSelections(ss[1..]) + after)
  {
  }

  lemma SelectionsStart(ss: seq<Selection>, after: seq<Token>)
    requires WfSelections(ss) && PeekValue(after, "}")
    ensures Follows(PrintSelections(ss) + after)
  {
    if ss == [] {
      assert PrintSelections(ss) + after == after;
    } else {
      SelectionsShape(ss, after);
      assert WfSelection(ss[0]);
      SelectionStart(ss[0], PrintSelections(ss[1..]) + after);
    }
  }

  lemma SelectionsStep(ts: seq<Token>, s: Selection, rest: seq<Token>, acc: seq<Selection>)
    requires !PeekValue(ts, "}") && ParseSelection(ts) == Ok(s, rest)
    ensures ParseSelections(ts, acc) == ParseSelections(rest, acc + [s])
  {
  }

  lemma {:induction false} SelectionRoundTrip(s: Selection, rest: seq<Token>)
    requires WfSelection(s) && Follows(rest)
    ensures ParseSelection(PrintSelection(s) + rest) == Ok(s, rest)
    decreases s, 1
  {
    SelectionStart(s, rest);
    match s
    case Field(_, _, _, _, _) => FieldRoundTrip(s, rest);
    case FragmentSpread(_, _) => SpreadRoundTrip(s, rest);
    case InlineFragment(_, _, _) => InlineRoundTrip(s, rest);
  }

  lemma {:induction false} FieldRoundTrip(s: Selection, rest: seq<Token>)
    requires s.Field? && WfSelection(s) && Follows(rest)
    ensures ParseField(PrintSelection(s) + rest) == Ok(s, rest)
    decreases s, 0
  {
    var ts3 := PrintSub(s.selectionSet) + rest;
    SubStart(s.selectionSet, rest);
    match s.selectionSet {
      case Set(ss) => SelectionSetRoundTrip(ss, rest);
      case NoSet =>
    }
    FieldPrefix(s, rest, ts3);
  }

  lemma FieldPrefix(s: Selection, rest: seq<Token>, ts3: seq<Token>)
    requires s.Field? && WfSelection(s) && ts3 == PrintSub(s.selectionSet) + rest
    requires !PeekValue(ts3, "(") && !PeekValue(ts3, "@") && !PeekValue(ts3, ":")
    requires if s.selectionSet.NoSet? then ts3 == rest && !PeekValue(ts3, "{")
             else PeekValue(ts3, "{") && ParseSelectionSet(ts3) == Ok(s.selectionSet.selections, rest)
    ensures ParseField(PrintSelection(s) + rest) == Ok(s, rest)
  {
    var ts2 := PrintDirectives(s.directives) + ts3;
    var ts1 := PrintOptionalArguments(s.arguments) + ts2;
    FieldShape(s, rest);
    FieldParts(s, ts3);
    FieldStep(PrintFieldName(s.alias, s.name) + ts1, s, ts1, ts2, ts3, rest);
  }

  lemma FieldParts(s: Selection, ts3: seq<Token>)
    requires s.Field? && WfSelection(s)
    requires !PeekValue(ts3, "(") && !PeekValue(ts3, "@") && !PeekValue(ts3, ":")
    ensures var ts2 := PrintDirectives(s.directives) + ts3;
            var ts1 := PrintOptionalArguments(s.arguments) + ts2;
            && ParseFieldName(PrintFieldName(s.alias, s.name) + ts1) == Ok((s.alias, s.name), ts1)
            && ParseOptionalArguments(ts1) == Ok(s.arguments, ts2)
            && ParseDirectives(ts2, []) == Ok(s.directives, ts3)
  {
    var ts2 := PrintDirectives(s.directives) + ts3;
    var ts1 := PrintOptionalArguments(s.arguments) + ts2;
    DirectivesStart(s.directives, ts3);
    ArgumentsStart(s.arguments, ts2);
    FieldNameRoundTrip(s.alias, s.name, ts1);
    OptionalArgumentsRoundTrip(s.arguments, ts2);
    DirectivesRoundTrip(s.directives, ts3, []);
    assert [] + s.directives == s.directives;
  }

  lemma FieldShape(s: Selection, rest: seq<Token>)
    requires s.Field?
    ensures PrintSelection(s) + rest
         == PrintFieldName(s.alias, s.name)
          + (PrintOptionalArguments(s.arguments) + (PrintDirectives(s.directives) + (PrintSub(s.selectionSet) + rest)))
  {
    Regroup4(PrintFieldName(s.alias, s.name), PrintOptionalArguments(s.arguments), PrintDirectives(s.directives),
             PrintSub(s.selectionSet), rest);
  }

  lemma SubStart(set_: SubSelection, rest: seq<Token>)
    ensures if set_.NoSet? then PrintSub(set_) + rest == rest else Peek(PrintSub(set_) + rest) == Punct("{")
  {
  }

  lemma ArgumentsStart(args: seq<Argument>, rest: seq<Token>)
    ensures if args == [] then PrintOptionalArguments(args) + rest == rest
            else Peek(PrintOptionalArguments(args) + rest) == Punct("(")
  {
    if args != [] { assert (PrintOptionalArguments(args) + rest)[0] == PrintOptionalArguments(args)[0]; }
  }

  lemma FieldStep(ts: seq<Token>, s: Selection, ts1: seq<Token>, ts2: seq<Token>, ts3: seq<Token>, rest: seq<Token>)
    requires s.Field?
    requires ParseFieldName(ts) == Ok((s.alias, s.name), ts1)
    requires ParseOptionalArguments(ts1) == Ok(s.arguments, ts2)
    requires ParseDirectives(ts2, []) == Ok(s.directives, ts3)
    requires if s.selectionSet.NoSet? then ts3 == rest && !PeekValue(ts3, "{")
             else PeekValue(ts3, "{") && ParseSelectionSet(ts3) == Ok(s.selectionSet.selections, rest)
    ensures ParseField(ts) == Ok(s, rest)
  {
  }

  lemma FieldNameRoundTrip(alias: Option<string>, name: string, rest: seq<Token>)
    requires !PeekValue(rest, ":")
    ensures ParseFieldName(PrintFieldName(alias, name) + rest) == Ok((alias, name), rest)
  {
  }

  lemma SpreadRoundTrip(s: Selection, rest: seq<Token>)
    requires s.FragmentSpread? && WfSelection(s) && Follows(rest)
    ensures ParseFragmentSelection(PrintSelection(s) + rest) == Ok(s, rest)
  {
    SpreadShape(s, rest);
    DirectivesRoundTrip(s.directives, rest, []);
    assert [] + s.directives == s.directives;
    SpreadStep(PrintSelection(s) + rest, s, rest);
  }

  lemma SpreadShape(s: Selection, rest: seq<Token>)
    requires s.FragmentSpread?
    ensures Begins(PrintSelection(s) + rest, [Punct("..."), Name(s.name)], PrintDirectives(s.directives) + rest)
  {
    Regroup2([Punct("..."), Name(s.name)], PrintDirectives(s.directives), rest);
    BeginsConcat([Punct("..."), Name(s.name)], PrintDirectives(s.directives) + rest);
  }

  lemma {:induction false} SpreadStep(ts: seq<Token>, s: Selection, rest: seq<Token>)
    requires s.FragmentSpread? && s.name != "on"
    requires exists more :: Begins(ts, [Punct("..."), Name(s.name)], more)
              && ParseDirectives(more, []) == Ok(s.directives, rest)
    ensures ParseFragmentSelection(ts) == Ok(s, rest)
  {
    assert Consume(Consume(ts)) == ts[2..];
  }

  lemma {:induction false} InlineRoundTrip(s: Selection, rest: seq<Token>)
    requires s.InlineFragment? && WfSelection(s)
    ensures ParseFragmentSelection(PrintSelection(s) + rest) == Ok(s, rest)
    decreases s, 0
  {
    var inner := PrintSelectionSet(s.selections) + rest;
    InlineShape(s, rest);
    SubStart(Set(s.selections), rest);
    DirectivesRoundTrip(s.directives, inner, []);
    assert [] + s.directives == s.directives;
    SelectionSetRoundTrip(s.selections, rest);
    InlineStep(PrintSelection(s) + rest, s, inner, rest);
  }

  lemma InlineShape(s: Selection, rest: seq<Token>)
    requires s.InlineFragment? && s.typeCondition.Some?
    ensures Begins(PrintSelection(s) + rest, [Punct("..."), Name("on"), Name(s.typeCondition.value)],
                   PrintDirectives(s.directives) + (PrintSelectionSet(s.selections) + rest))
  {
    var t := s.typeCondition.value;
    var more := PrintDirectives(s.directives) + (PrintSelectionSet(s.selections) + rest);
    Regroup4([Punct("...")], [Name("on"), Name(t)], PrintDirectives(s.directives), PrintSelectionSet(s.selections),
        rest);
    assert [Punct("...")] + ([Name("on"), Name(t)] + more) == [Punct("..."), Name("on"), Name(t)] + more;
    BeginsConcat([Punct("..."), Name("on"), Name(t)], more);
  }

  lemma {:induction false} InlineStep(ts: seq<Token>, s: Selection, inner: seq<Token>, rest: seq<Token>)
    requires s.InlineFragment? && s.typeCondition.Some?
    requires exists more :: Begins(ts, [Punct("..."), Name("on"), Name(s.typeCondition.value)], more)
                         && ParseDirectives(more, []) == Ok(s.directives, inner)
    requires ParseSelectionSet(inner) == Ok(s.selections, rest)
    ensures ParseFragmentSelection(ts) == Ok(s, rest)
  {
    assert Consume(Consume(Consume(ts))) == ts[3..];
  }

  // ---------------------------------------------------------------- definitions

  lemma OperationBody(op: Operation, rest: seq<Token>)
    requires WfOperation(op)
    ensures var inner := PrintSelectionSet(op.selectionSet) + rest;
            && ParseDirectives(PrintDirectives(op.directives) + inner, []) == Ok(op.directives, inner)
            && ParseSelectionSet(inner) == Ok(op.selectionSet, rest)
  {
    SubStart(Set(op.selectionSet), rest);
    DirectivesRoundTrip(op.directives, PrintSelectionSet(op.selectionSet) + rest, []);
    assert [] + op.directives == op.directives;
    SelectionSetRoundTrip(op.selectionSet, rest);
  }

  lemma OperationRoundTrip(op: Operation, rest: seq<Token>)
    requires WfOperation(op)
    ensures ParseOperation(PrintOperation(op) + rest) == Ok(op, rest)
  {
    var inner := PrintSelectionSet(op.selectionSet) + rest;
    OperationBody(op, rest);
    OperationShape(op, rest);
    SubStart(Set(op.selectionSet), rest);
    DirectivesLead(op.directives, inner);
    OperationStep(PrintOperation(op) + rest, op, PrintDirectives(op.directives) + inner, inner, rest);
  }

  lemma DirectivesLead(ds: seq<Directive>, inner: seq<Token>)
    requires inner != [] && inner[0] == Punct("{")
    ensures var ts2 := PrintDirectives(ds) + inner; ts2 != [] && ts2[0].Punct? && !PeekValue(ts2, "(")
  {
    DirectivesStart(ds, inner);
  }

  function AfterKeyword(op: Operation, ts: seq<Token>): seq<Token> {
    if op.name.Some? then [Name(op.name.value)] + ts else ts
  }

  lemma OperationShape(op: Operation, rest: seq<Token>)
    ensures PrintOperation(op) + rest
         == [Name(op.operation)] + AfterKeyword(op, PrintDirectives(op.directives)
             + (PrintSelectionSet(op.selectionSet) + rest))
  {
    var named := if op.name.Some? then [Name(op.name.value)] else [];
    Regroup4([Name(op.operation)], named, PrintDirectives(op.directives), PrintSelectionSet(op.selectionSet), rest);
    var more := PrintDirectives(op.directives) + (PrintSelectionSet(op.selectionSet) + rest);
    assert op.name.None? ==> [] + more == more;
  }

  lemma OperationStep(ts: seq<Token>, op: Operation, ts2: seq<Token>, inner: seq<Token>, rest: seq<Token>)
    requires op.operation == "query" || op.operation == "mutation"
    requires ts == [Name(op.operation)] + AfterKeyword(op, ts2)
    requires ts2 != [] && ts2[0].Punct? && !PeekValue(ts2, "(")
    requires ParseDirectives(ts2, []) == Ok(op.directives, inner)
    requires ParseSelectionSet(inner) == Ok(op.selectionSet, rest)
    ensures ParseOperation(ts) == Ok(op, rest)
  {
    assert Consume(ts) == AfterKeyword(op, ts2);
    assert op.name.Some? ==> Consume(Consume(ts)) == ts2;
  }

  lemma FragmentRoundTrip(f: Fragment, rest: seq<Token>)
    requires WfFragment(f)
    ensures ParseFragment(PrintFragment(f) + rest) == Ok(f, rest)
  {
    var inner := PrintSelectionSet(f.selectionSet) + rest;
    SubStart(Set(f.selectionSet), rest);
    DirectivesRoundTrip(f.directives, inner, []);
    assert [] + f.directives == f.directives;
    SelectionSetRoundTrip(f.selectionSet, rest);
    FragmentShape(f, rest);
    FragmentStep(PrintFragment(f) + rest, f, inner, rest);
  }

  lemma FragmentShape(f: Fragment, rest: seq<Token>)
    ensures Begins(PrintFragment(f) + rest, [Name("fragment"), Name(f.name), Name("on"), Name(f.typeCondition)],
                   PrintDirectives(f.directives) + (PrintSelectionSet(f.selectionSet) + rest))
  {
    var start := [Name("fragment"), Name(f.name), Name("on"), Name(f.typeCondition)];
    Regroup3(start, PrintDirectives(f.directives), PrintSelectionSet(f.selectionSet), rest);
    BeginsConcat(start, PrintDirectives(f.directives) + (PrintSelectionSet(f.selectionSet) + rest));
  }

  lemma {:induction false} FragmentStep(ts: seq<Token>, f: Fragment, inner: seq<Token>, rest: seq<Token>)
    requires exists more :: Begins(ts, [Name("fragment"), Name(f.name), Name("on"), Name(f.typeCondition)], more)
                         && ParseDirectives(more, []) == Ok(f.directives, inner)
    requires ParseSelectionSet(inner) == Ok(f.selectionSet, rest)
    ensures ParseFragment(ts) == Ok(f, rest)
  {
    var t1, t2, t3 := ts[1..], ts[2..], ts[3..];
    assert ExpectNameValue(ts, "fragment") == Ok("fragment", t1);
    assert ExpectName(t1) == Ok(f.name, t2);
    assert ExpectNameValue(t2, "on") == Ok("on", t3);
    assert ExpectName(t3) == Ok(f.typeCondition, ts[4..]);
  }

  lemma {:induction false} PutFragmentNew(fragments: seq<Fragment>, f: Fragment)
    requires forall g | g in fragments :: g.name != f.name
    ensures PutFragment(fragments, f) == fragments + [f]
  {
    if fragments != [] { PutFragmentNew(fragments[1..], f); }
  }

  lemma {:induction false} FragmentsRoundTrip(fs: seq<Fragment>, acc: Definitions)
    requires forall f | f in fs :: WfFragment(f)
    requires DistinctFragments(acc.fragments + fs)
    ensures ParseDefinitions(PrintFragments(fs) + [Eof], acc) == Some(Definitions(acc.operations, acc.fragments + fs))
    decreases fs
  {
    if fs == [] {
      assert PrintFragments(fs) + [Eof] == [Eof] && acc.fragments + fs == acc.fragments;
    } else {
      Regroup2(PrintFragment(fs[0]), PrintFragments(fs[1..]), [Eof]);
      FragmentIsNew(acc.fragments, fs);
      assert WfFragment(fs[0]);
      FragmentDefinitionRoundTrip(fs[0], PrintFragments(fs[1..]) + [Eof], acc);
      Shift(acc.fragments, fs);
      FragmentsRoundTrip(fs[1..], acc.(fragments := acc.fragments + [fs[0]]));
    }
  }

  lemma FragmentIsNew(before: seq<Fragment>, fs: seq<Fragment>)
    requires fs != [] && DistinctFragments(before + fs)
    ensures forall g | g in before :: g.name != fs[0].name
  {
    assert (before + fs)[|before|] == fs[0];
    forall g | g in before ensures g.name != fs[0].name {
      var i :| 0 <= i < |before| && before[i] == g;
      assert (before + fs)[i] == g;
    }
  }

  lemma {:induction false} FragmentDefinitionRoundTrip(f: Fragment, rest: seq<Token>, acc: Definitions)
    requires WfFragment(f) && forall g | g in acc.fragments :: g.name != f.name
    ensures ParseDefinitions(PrintFragment(f) + rest, acc)
        == ParseDefinitions(rest, acc.(fragments := acc.fragments + [f]))
  {
    FragmentRoundTrip(f, rest);
    FragmentShape(f, rest);
    PutFragmentNew(acc.fragments, f);
    FragmentDefinitionStep(PrintFragment(f) + rest, f, rest, acc);
  }

  lemma OperationDefinitionRoundTrip(op: Operation, rest: seq<Token>, acc: Definitions)
    requires WfOperation(op)
    ensures ParseDefinitions(PrintOperation(op) + rest, acc)
        == ParseDefinitions(rest, acc.(operations := acc.operations + [op]))
  {
    OperationRoundTrip(op, rest);
    OperationShape(op, rest);
    OperationDefinitionStep(PrintOperation(op) + rest, op, rest, acc);
  }

  lemma FragmentDefinitionStep(ts: seq<Token>, f: Fragment, rest: seq<Token>, acc: Definitions)
    requires PeekName(ts, "fragment") && ParseFragment(ts) == Ok(f, rest)
    ensures ParseDefinitions(ts, acc) == ParseDefinitions(rest, acc.(fragments := PutFragment(acc.fragments, f)))
  {
  }

  lemma OperationDefinitionStep(ts: seq<Token>, op: Operation, rest: seq<Token>, acc: Definitions)
    requires PeekName(ts, "query") || PeekName(ts, "mutation")
    requires ParseOperation(ts) == Ok(op, rest)
    ensures ParseDefinitions(ts, acc) == ParseDefinitions(rest, acc.(operations := acc.operations + [op]))
  {
  }

  lemma {:induction false} OperationsRoundTrip(ops: seq<Operation>, after: seq<Token>, acc: seq<Operation>)
    requires forall op | op in ops :: WfOperation(op)
    ensures ParseDefinitions(PrintOperations(ops) + after, Definitions(acc, []))
         == ParseDefinitions(after, Definitions(acc + ops, []))
    decreases ops
  {
    if ops == [] {
      assert PrintOperations(ops) + after == after && acc + ops == acc;
    } else {
      Regroup2(PrintOperation(ops[0]), PrintOperations(ops[1..]), after);
      assert WfOperation(ops[0]);
      OperationDefinitionRoundTrip(ops[0], PrintOperations(ops[1..]) + after, Definitions(acc, []));
      Shift(acc, ops);
      OperationsRoundTrip(ops[1..], after, acc + [ops[0]]);
    }
  }

  lemma DocumentRoundTrip(d: Document)
    requires WfDocument(d)
    ensures ParseDocument(PrintDocument(d) + [Eof]) == Some(d)
  {
    var after := PrintFragments(d.fragments) + [Eof];
    assert [] + d.operations == d.operations && [] + d.fragments == d.fragments;
    Regroup2(PrintOperations(d.operations), PrintFragments(d.fragments), [Eof]);
    OperationsRoundTrip(d.operations, after, []);
    FragmentsRoundTrip(d.fragments, Definitions(d.operations, []));
  }
}
