/** Source texts: printing a document to text and parsing it gives the document back exactly when
    it is one the parser can produce, and every document the parser produces is such a one. */
module GraphqlNormalForm {
  import opened Options
  import opened Sequences
  import opened GraphqlSyntax
  import opened GraphqlRoundTrip

  // ---------------------------------------------------------------- text of a document

  function EscapeText(s: string): string {
    if s == "" then ""
    else (if s[0] == '"' || s[0] == '\\' then ['\\', s[0]] else [s[0]]) + EscapeText(s[1..])
  }

  function RenderToken(t: Token): string {
    if t.Text? then "\"" + EscapeText(t.text) + "\"" else t.Value()
  }

  function Render(ts: seq<Token>): string {
    if ts == [] then "" else RenderToken(ts[0]) + (" " + Render(ts[1..]))
  }

  function PrintGraphql(d: Document): string {
    Render(PrintDocument(d))
  }

  // ---------------------------------------------------------------- lexing undoes rendering

  predicate TokenOk(t: Token) {
    match t
    case Name(text) => IsName(text)
    case Number(text) => IsNumberText(text)
    case Punct(text) => text == "..." || (|text| == 1 && IsPunctChar(text[0]))
    case Text(_) => true
    case Eof => false
  }

  lemma {:induction false} ReadNameAll(name: string, rest: string)
    requires forall c | c in name :: IsNameChar(c)
    requires rest != "" && !IsNameChar(rest[0])
    ensures ReadName(name + rest) == |name|
  {
    if name == "" {
      assert name + rest == rest;
    } else {
      assert IsNameChar(name[0]) && (name + rest)[1..] == name[1..] + rest;
      ReadNameAll(name[1..], rest);
    }
  }

  lemma {:induction false} ReadNumberAll(number: string, rest: string)
    requires forall c | c in number :: IsNumberChar(c)
    requires rest != "" && !IsNumberChar(rest[0])
    ensures ReadNumber(number + rest) == |number|
  {
    if number == "" {
      assert number + rest == rest;
    } else {
      assert IsNumberChar(number[0]) && (number + rest)[1..] == number[1..] + rest;
      ReadNumberAll(number[1..], rest);
    }
  }

  lemma {:induction false} ReadStringAll(s: string, rest: string, value: string)
    ensures ReadString(EscapeText(s) + ("\"" + rest), value, false) == Some((value + s, rest))
    decreases s
  {
    var tail := "\"" + rest;
    if s == "" {
      assert EscapeText(s) + tail == tail && tail[1..] == rest && value + s == value;
    } else {
      var more := EscapeText(s[1..]) + tail;
      ReadStringAll(s[1..], rest, value + [s[0]]);
      Shift(value, s);
      ReadStringChar(s[0], more, value);
      EscapeTextStep(s, tail);
    }
  }

  lemma EscapeTextStep(s: string, tail: string)
    requires s != ""
    ensures EscapeText(s) + tail
         == (if s[0] == '"' || s[0] == '\\' then ['\\', s[0]] else [s[0]]) + (EscapeText(s[1..]) + tail)
  {
  }

  lemma ReadStringChar(c: char, more: string, value: string)
    ensures ReadString((if c == '"' || c == '\\' then ['\\', c] else [c]) + more, value, false)
         == ReadString(more, value + [c], false)
  {
    assert ([c] + more)[1..] == more;
    assert (['\\', c] + more)[1..] == [c] + more;
  }

  lemma LexOneToken(t: Token, rest: string)
    requires TokenOk(t) && rest != "" && rest[0] == ' '
    ensures LexOne(RenderToken(t) + rest) == Some(([t], rest))
  {
    match t
    case Name(text) => LexName(text, rest);
    case Number(text) => LexNumber(text, rest);
    case Punct(text) => LexPunct(text, rest);
    case Text(text) => LexText(text, rest);
  }

  lemma LexName(text: string, rest: string)
    requires IsName(text) && rest != "" && rest[0] == ' '
    ensures LexOne(text + rest) == Some(([Name(text)], rest))
  {
    var s := text + rest;
    assert s[0] == text[0];
    ReadNameAll(text, rest);
    assert s[..|text|] == text && s[|text|..] == rest;
  }

  lemma LexNumber(text: string, rest: string)
    requires IsNumberText(text) && rest != "" && rest[0] == ' '
    ensures LexOne(text + rest) == Some(([Number(text)], rest))
  {
    var s := text + rest;
    assert s[0] == text[0];
    ReadNumberAll(text, rest);
    assert s[..|text|] == text && s[|text|..] == rest;
  }

  lemma LexPunct(text: string, rest: string)
    requires TokenOk(Punct(text))
    ensures LexOne(text + rest) == Some(([Punct(text)], rest))
  {
    var s := text + rest;
    if text == "..." {
      assert s[0] == '.' && s[1] == '.' && s[2] == '.' && s[3..] == rest;
    } else {
      assert s[0] == text[0] && s[1..] == rest && [text[0]] == text;
    }
  }

  lemma LexText(text: string, rest: string)
    ensures LexOne("\"" + EscapeText(text) + "\"" + rest) == Some(([Text(text)], rest))
  {
    var s := "\"" + EscapeText(text) + "\"" + rest;
    assert s[0] == '"' && s[1..] == EscapeText(text) + ("\"" + rest);
    ReadStringAll(text, rest, "");
    assert "" + text == text;
  }

  lemma {:induction false} LexRender(ts: seq<Token>)
    requires forall t | t in ts :: TokenOk(t)
    ensures Lex(Render(ts)) == Some(ts)
  {
    if ts != [] {
      var rest := " " + Render(ts[1..]);
      LexOneToken(ts[0], rest);
      LexRender(ts[1..]);
      assert rest[1..] == Render(ts[1..]);
      assert LexOne(rest) == Some(([], Render(ts[1..])));
      assert [] + ts[1..] == ts[1..] && [ts[0]] + ts[1..] == ts;
      assert Lex(rest) == Some(ts[1..]);
      assert Render(ts) == RenderToken(ts[0]) + rest && Render(ts) != "";
    }
  }

  // ---------------------------------------------------------------- printed tokens

  predicate TokensOk(ts: seq<Token>) {
    forall t | t in ts :: TokenOk(t)
  }

  lemma IntTextIsNumber(v: Scalar)
    requires v.IntValue?
    ensures IsNumberText(PrintScalar(v).text)
  {
    NumberParses(v);
  }

  lemma {:induction false} PrintValueOk(v: ValueNode)
    requires WfValue(v)
    ensures TokensOk(PrintValue(v))
    decreases v, 1
  {
    match v
    case Literal(value) => if value.IntValue? { IntTextIsNumber(value); }
    case ListNode(values) => PrintValuesOk(values);
    case ObjectNode(fields) => PrintArgumentsOk(fields);
    case _ =>
  }

  lemma {:induction false} PrintValuesOk(values: seq<ValueNode>)
    requires forall x | x in values :: WfItem(x)
    ensures TokensOk(PrintValues(values))
    decreases values, 0
  {
    if values != [] {
      assert WfItem(values[0]);
      PrintValueOk(values[0]);
      PrintValuesOk(values[1..]);
    }
  }

  lemma {:induction false} PrintArgumentsOk(args: seq<Argument>)
    requires forall a | a in args :: IsName(a.name) && WfValue(a.value)
    ensures TokensOk(PrintArguments(args))
    decreases args, 0
  {
    if args != [] {
      assert WfValue(args[0].value);
      PrintValueOk(args[0].value);
      PrintArgumentsOk(args[1..]);
    }
  }

  lemma {:induction false} PrintDirectivesOk(ds: seq<Directive>)
    requires WfDirectives(ds)
    ensures TokensOk(PrintDirectives(ds))
  {
    if ds != [] {
      assert WfArguments(ds[0].arguments);
      PrintArgumentsOk(ds[0].arguments);
      PrintDirectivesOk(ds[1..]);
    }
  }

  lemma {:induction false} PrintSelectionsOk(ss: seq<Selection>)
    requires WfSelections(ss)
    ensures TokensOk(PrintSelections(ss)) && TokensOk(PrintSelectionSet(ss))
    decreases ss, 0
  {
    if ss != [] {
      assert WfSelection(ss[0]);
      PrintSelectionOk(ss[0]);
      PrintSelectionsOk(ss[1..]);
    }
  }

  lemma {:induction false} PrintSelectionOk(s: Selection)
    requires WfSelection(s)
    ensures TokensOk(PrintSelection(s))
    decreases s, 1
  {
    PrintDirectivesOk(s.directives);
    match s
    case Field(alias, name, args, ds, set_) =>
      if set_.Set? { PrintSelectionsOk(set_.selections); }
      PrintFieldOk(s);
    case FragmentSpread(_, _) =>
    case InlineFragment(_, _, ss) => PrintSelectionsOk(ss);
  }

  lemma PrintFieldOk(s: Selection)
    requires s.Field? && WfSelection(s) && TokensOk(PrintSub(s.selectionSet))
    ensures TokensOk(PrintSelection(s))
  {
    PrintArgumentsOk(s.arguments);
    PrintDirectivesOk(s.directives);
    var a, b, c := PrintFieldName(s.alias, s.name), PrintOptionalArguments(s.arguments), PrintDirectives(s.directives);
    assert TokensOk(a) && TokensOk(b) && TokensOk(c);
  }

  lemma PrintOperationOk(op: Operation)
    requires WfOperation(op)
    ensures TokensOk(PrintOperation(op))
  {
    PrintDirectivesOk(op.directives);
    PrintSelectionsOk(op.selectionSet);
    assert TokenOk(Name("query")) && TokenOk(Name("mutation"));
  }

  lemma {:induction false} PrintOperationsOk(ops: seq<Operation>)
    requires forall op | op in ops :: WfOperation(op)
    ensures TokensOk(PrintOperations(ops))
  {
    if ops != [] {
      assert WfOperation(ops[0]);
      PrintOperationOk(ops[0]);
      PrintOperationsOk(ops[1..]);
    }
  }

  lemma PrintFragmentOk(f: Fragment)
    requires WfFragment(f)
    ensures TokensOk(PrintFragment(f))
  {
    PrintDirectivesOk(f.directives);
    PrintSelectionsOk(f.selectionSet);
  }

  lemma {:induction false} PrintFragmentsOk(fs: seq<Fragment>)
    requires forall f | f in fs :: WfFragment(f)
    ensures TokensOk(PrintFragments(fs))
  {
    if fs != [] {
      assert WfFragment(fs[0]);
      PrintFragmentOk(fs[0]);
      PrintFragmentsOk(fs[1..]);
    }
  }

  // ---------------------------------------------------------------- what the lexer can produce

  lemma LexOneOk(s: string)
    requires s != "" && LexOne(s).Some?
    ensures TokensOk(LexOne(s).value.0)
  {
    if IsLetter(s[0]) {
      assert IsNameChar(s[0]);
      var n := ReadName(s);
      assert n >= 1 && s[..n][0] == s[0];
    }
    if s[0] == '-' || Decimal.IsDigit(s[0]) {
      assert IsNumberChar(s[0]);
      var n := ReadNumber(s);
      assert n >= 1 && s[..n][0] == s[0];
    }
  }

  lemma {:induction false} LexOk(s: string)
    requires Lex(s).Some?
    ensures TokensOk(Lex(s).value)
    decreases |s|
  {
    if s != "" {
      LexOneOk(s);
      LexOk(LexOne(s).value.1);
    }
  }

  // ---------------------------------------------------------------- what the parser can produce

  /** The tokens of some source, up to and including the end. */
  predicate Source(ts: seq<Token>) {
    forall t | t in ts :: t.Eof? || TokenOk(t)
  }

  lemma ConsumeSource(ts: seq<Token>)
    requires Source(ts)
    ensures Source(Consume(ts)) && (Peek(ts).Eof? || TokenOk(Peek(ts)))
  {
    if ts != [] { assert ts[0] in ts; }
  }

  lemma {:induction false} PutArgumentWf(record: seq<Argument>, name: string, value: ValueNode)
    requires WfArguments(record) && IsName(name) && WfValue(value)
    ensures WfArguments(PutArgument(record, name, value))
    ensures forall a | a in PutArgument(record, name, value) :: a.name == name
             || exists b | b in record :: b.name == a.name
  {
    if record != [] && record[0].name != name {
      var tail := record[1..];
      assert WfArguments(tail) by {
        forall a | a in tail ensures IsName(a.name) && WfValue(a.value) { assert a in record; }
      }
      PutArgumentWf(tail, name, value);
      var r := PutArgument(tail, name, value);
      forall i | 0 <= i < |r| ensures r[i].name != record[0].name {
        assert r[i] in r;
        if r[i].name != name {
          var b :| b in tail && b.name == r[i].name;
        }
      }
      assert WfValue(record[0].value);
    } else if record != [] {
      forall a | a in record[1..] ensures IsName(a.name) && WfValue(a.value) { assert a in record; }
    }
  }

  lemma {:induction false} ValueOutput(ts: seq<Token>)
    requires Source(ts) && ParseValue(ts).Ok?
    ensures WfValue(ParseValue(ts).node) && Source(ParseValue(ts).rest)
    ensures !PeekValue(ts, "]") ==> WfItem(ParseValue(ts).node)
    decreases |ts|, 1
  {
    ConsumeSource(ts);
    var token := Peek(ts);
    if token.Value() == "$" {
      ConsumeSource(Consume(ts));
    } else if token == Punct("[") {
      var inner := ParseValues(Consume(ts), []);
      ValuesOutput(Consume(ts), []);
      ConsumeSource(inner.rest);
    } else if token == Punct("{") {
      RecordOutput(ts, "{", "}");
    }
  }

  lemma {:induction false} ValuesOutput(ts: seq<Token>, acc: seq<ValueNode>)
    requires Source(ts) && ParseValues(ts, acc).Ok?
    requires forall x | x in acc :: WfItem(x)
    ensures forall x | x in ParseValues(ts, acc).node :: WfItem(x)
    ensures Source(ParseValues(ts, acc).rest)
    decreases |ts|, 2
  {
    if !PeekValue(ts, "]") {
      ValueOutput(ts);
      var v := ParseValue(ts);
      ValuesOutput(v.rest, acc + [v.node]);
    }
  }

  lemma {:induction false} RecordOutput(ts: seq<Token>, open: string, close: string)
    requires open != "<eof>" && close != "<eof>"
    requires Source(ts) && ParseRecord(ts, open, close).Ok?
    ensures WfArguments(ParseRecord(ts, open, close).node) && Source(ParseRecord(ts, open, close).rest)
    decreases |ts|, 0
  {
    ConsumeSource(ts);
    ArgumentsOutput(Consume(ts), close, []);
    ConsumeSource(ParseArguments(Consume(ts), close, []).rest);
  }

  lemma {:induction false} ArgumentsOutput(ts: seq<Token>, close: string, acc: seq<Argument>)
    requires Source(ts) && ParseArguments(ts, close, acc).Ok? && WfArguments(acc)
    ensures WfArguments(ParseArguments(ts, close, acc).node) && Source(ParseArguments(ts, close, acc).rest)
    decreases |ts|, 3
  {
    if !PeekValue(ts, close) {
      ArgumentOutput(ts);
      var a := ParseArgument(ts);
      PutArgumentWf(acc, a.node.name, a.node.value);
      ArgumentsOutput(a.rest, close, PutArgument(acc, a.node.name, a.node.value));
    }
  }

  lemma {:induction false} ArgumentOutput(ts: seq<Token>)
    requires Source(ts) && ParseArgument(ts).Ok?
    ensures IsName(ParseArgument(ts).node.name) && WfValue(ParseArgument(ts).node.value)
        && Source(ParseArgument(ts).rest)
    decreases |ts|, 2
  {
    ConsumeSource(ts);
    ConsumeSource(Consume(ts));
    ValueOutput(Consume(Consume(ts)));
  }

  lemma OptionalArgumentsOutput(ts: seq<Token>)
    requires Source(ts) && ParseOptionalArguments(ts).Ok?
    ensures WfArguments(ParseOptionalArguments(ts).node) && Source(ParseOptionalArguments(ts).rest)
  {
    if PeekValue(ts, "(") { RecordOutput(ts, "(", ")"); }
  }

  lemma {:induction false} DirectivesOutput(ts: seq<Token>, acc: seq<Directive>)
    requires Source(ts) && ParseDirectives(ts, acc).Ok? && WfDirectives(acc)
    ensures WfDirectives(ParseDirectives(ts, acc).node) && Source(ParseDirectives(ts, acc).rest)
    decreases |ts|
  {
    if PeekValue(ts, "@") {
      ConsumeSource(ts);
      ConsumeSource(Consume(ts));
      var rest := Consume(Consume(ts));
      OptionalArgumentsOutput(rest);
      var args := ParseOptionalArguments(rest);
      DirectivesOutput(args.rest, acc + [Directive(Peek(Consume(ts)).text, args.node)]);
    }
  }

  lemma {:induction false} SelectionSetOutput(ts: seq<Token>)
    requires Source(ts) && ParseSelectionSet(ts).Ok?
    ensures WfSelections(ParseSelectionSet(ts).node) && Source(ParseSelectionSet(ts).rest)
    decreases |ts|, 0
  {
    ConsumeSource(ts);
    SelectionsOutput(Consume(ts), []);
    ConsumeSource(ParseSelections(Consume(ts), []).rest);
  }

  lemma {:induction false} SelectionsOutput(ts: seq<Token>, acc: seq<Selection>)
    requires Source(ts) && ParseSelections(ts, acc).Ok? && WfSelections(acc)
    ensures WfSelections(ParseSelections(ts, acc).node) && Source(ParseSelections(ts, acc).rest)
    decreases |ts|, 2
  {
    if !PeekValue(ts, "}") {
      SelectionOutput(ts);
      var s := ParseSelection(ts);
      SelectionsOutput(s.rest, acc + [s.node]);
    }
  }

  lemma {:induction false} SelectionOutput(ts: seq<Token>)
    requires Source(ts) && ParseSelection(ts).Ok?
    ensures WfSelection(ParseSelection(ts).node) && Source(ParseSelection(ts).rest)
    decreases |ts|, 1
  {
    if !PeekValue(ts, "...") {
      FieldOutput(ts);
    } else {
      var rest := Consume(ts);
      ConsumeSource(ts);
      ConsumeSource(rest);
      if PeekName(rest, "on") {
        ConsumeSource(Consume(rest));
        var more := Consume(Consume(rest));
        DirectivesOutput(more, []);
        SelectionSetOutput(ParseDirectives(more, []).rest);
      } else {
        DirectivesOutput(Consume(rest), []);
      }
    }
  }

  lemma FieldNameOutput(ts: seq<Token>)
    requires Source(ts) && ParseFieldName(ts).Ok?
    ensures var (alias, name) := ParseFieldName(ts).node;
            IsName(name) && (alias.Some? ==> IsName(alias.value)) && Source(ParseFieldName(ts).rest)
  {
    ConsumeSource(ts);
    ConsumeSource(Consume(ts));
    ConsumeSource(Consume(Consume(ts)));
  }

  lemma {:induction false} FieldOutput(ts: seq<Token>)
    requires Source(ts) && ParseField(ts).Ok?
    ensures WfSelection(ParseField(ts).node) && Source(ParseField(ts).rest)
    decreases |ts|, 0
  {
    FieldNameOutput(ts);
    var ts1 := ParseFieldName(ts).rest;
    OptionalArgumentsOutput(ts1);
    var ts2 := ParseOptionalArguments(ts1).rest;
    DirectivesOutput(ts2, []);
    var ts3 := ParseDirectives(ts2, []).rest;
    if PeekValue(ts3, "{") { SelectionSetOutput(ts3); }
  }

  lemma {:induction false} SkipBalancedOutput(ts: seq<Token>, open: string, close: string, depth: nat)
    requires Source(ts) && SkipBalanced(ts, open, close, depth).Ok?
    ensures Source(SkipBalanced(ts, open, close, depth).rest)
    decreases |ts|
  {
    if depth > 0 {
      ConsumeSource(ts);
      var deeper := if PeekValue(ts, open) then depth + 1 else depth;
      SkipBalancedOutput(Consume(ts), open, close, if PeekValue(ts, close) then deeper - 1 else deeper);
    }
  }

  lemma OperationOutput(ts: seq<Token>)
    requires Source(ts) && ParseOperation(ts).Ok?
    ensures WfOperation(ParseOperation(ts).node) && Source(ParseOperation(ts).rest)
  {
    ConsumeSource(ts);
    if PeekValue(ts, "{") {
      SelectionSetOutput(ts);
    } else {
      var rest := Consume(ts);
      ConsumeSource(rest);
      var rest1 := if Peek(rest).Name? then Consume(rest) else rest;
      ConsumeSource(rest1);
      if PeekValue(rest1, "(") { SkipBalancedOutput(Consume(rest1), "(", ")", 1); }
      var rest2 := if PeekValue(rest1, "(") then SkipBalanced(Consume(rest1), "(", ")", 1).rest else rest1;
      DirectivesOutput(rest2, []);
      SelectionSetOutput(ParseDirectives(rest2, []).rest);
    }
  }

  lemma FragmentOutput(ts: seq<Token>)
    requires Source(ts) && ParseFragment(ts).Ok?
    ensures WfFragment(ParseFragment(ts).node) && Source(ParseFragment(ts).rest)
  {
    var t1 := Consume(ts);
    var t2 := Consume(t1);
    var t3 := Consume(t2);
    ConsumeSource(ts);
    ConsumeSource(t1);
    ConsumeSource(t2);
    ConsumeSource(t3);
    DirectivesOutput(Consume(t3), []);
    SelectionSetOutput(ParseDirectives(Consume(t3), []).rest);
  }

  lemma {:induction false} PutFragmentWf(fs: seq<Fragment>, f: Fragment)
    requires (forall g | g in fs :: WfFragment(g)) && DistinctFragments(fs) && WfFragment(f)
    ensures (forall g | g in PutFragment(fs, f) :: WfFragment(g)) && DistinctFragments(PutFragment(fs, f))
    ensures forall g | g in PutFragment(fs, f) :: g.name == f.name || exists h | h in fs :: h.name == g.name
  {
    if fs != [] && fs[0].name != f.name {
      PutFragmentWf(fs[1..], f);
      var r := PutFragment(fs[1..], f);
      forall i | 0 <= i < |r| ensures r[i].name != fs[0].name {
        assert r[i] in r;
        if r[i].name != f.name {
          var h :| h in fs[1..] && h.name == r[i].name;
        }
      }
    }
  }

  lemma {:induction false} DefinitionsOutput(ts: seq<Token>, acc: Definitions)
    requires Source(ts) && ParseDefinitions(ts, acc).Some? && WfDefinitions(acc)
    ensures WfDefinitions(ParseDefinitions(ts, acc).value)
    decreases |ts|
  {
    if PeekValue(ts, "<eof>") {
    } else if PeekName(ts, "fragment") {
      FragmentOutput(ts);
      var f := ParseFragment(ts);
      PutFragmentWf(acc.fragments, f.node);
      DefinitionsOutput(f.rest, acc.(fragments := PutFragment(acc.fragments, f.node)));
    } else {
      OperationOutput(ts);
      var op := ParseOperation(ts);
      DefinitionsOutput(op.rest, acc.(operations := acc.operations + [op.node]));
    }
  }

  // ---------------------------------------------------------------- main results

  /** Whatever source is parsed, the document is well formed. */
  lemma ParsedIsWellFormed(source: string)
    requires ParseGraphql(source).Some?
    ensures WfDocument(ParseGraphql(source).value)
  {
    LexOk(source);
    DefinitionsOutput(Tokenize(source).value, Definitions([], []));
  }

  /** Parsing undoes printing exactly on well-formed documents: those with valid distinct names,
      no spread of a fragment called `on`, and neither the string "$" nor, in a list, "]". */
  lemma ParseUndoesPrint(d: Document)
    ensures ParseGraphql(PrintGraphql(d)) == Some(d) <==> WfDocument(d)
  {
    if ParseGraphql(PrintGraphql(d)) == Some(d) {
      ParsedIsWellFormed(PrintGraphql(d));
    }
    if WfDocument(d) {
      PrintOperationsOk(d.operations);
      PrintFragmentsOk(d.fragments);
      LexRender(PrintDocument(d));
      DocumentRoundTrip(d);
    }
  }

  /** Every source has a normal form: printing what it parses to parses to the same document. */
  lemma PrintingIsNormalForm(source: string)
    requires ParseGraphql(source).Some?
    ensures ParseGraphql(PrintGraphql(ParseGraphql(source).value)) == ParseGraphql(source)
  {
    ParsedIsWellFormed(source);
    ParseUndoesPrint(ParseGraphql(source).value);
  }
}
