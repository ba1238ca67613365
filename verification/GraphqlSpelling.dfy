/** How a source text spells its tokens: white space, commas and comments between them, strings with
    escapes.  The lexer gives exactly the tokens that the text spells. */
module GraphqlSpelling {
  import opened Options
  import opened Sequences
  import opened Decimal
  import opened JsText
  import opened GraphqlSyntax
  import opened GraphqlRoundTrip
  import opened GraphqlNormalForm

  // ---------------------------------------------------------------- strings

  /** A character of a string literal, as it is or after a backslash. */
  datatype Spelt = Raw(c: char) | Escaped(c: char)

  const ESCAPES: map<char, char> := map['n' := '\n', 'r' := '\r', 't' := '\t', '"' := '"', '\\' := '\\', '/' := '/']

  predicate SpeltOk(p: Spelt) {
    p.Raw? ==> p.c != '"' && p.c != '\\'
  }

  /** An escape that is none of those stands for its own character. */
  function Meant(p: Spelt): char {
    if p.Escaped? && p.c in ESCAPES then ESCAPES[p.c] else p.c
  }

  function Meaning(ps: seq<Spelt>): (s: string)
    ensures |s| == |ps|
  {
    if ps == [] then "" else [Meant(ps[0])] + Meaning(ps[1..])
  }

  function Body(ps: seq<Spelt>): string {
    if ps == [] then "" else (if ps[0].Raw? then [ps[0].c] else ['\\', ps[0].c]) + Body(ps[1..])
  }

  predicate AllSpelt(ps: seq<Spelt>) {
    forall p | p in ps :: SpeltOk(p)
  }

  lemma ReadOne(p: Spelt, more: string, value: string)
    requires SpeltOk(p)
    ensures ReadString((if p.Raw? then [p.c] else ['\\', p.c]) + more, value, false)
         == ReadString(more, value + [Meant(p)], false)
  {
    assert ([p.c] + more)[1..] == more;
    assert (['\\', p.c] + more)[1..] == [p.c] + more;
  }

  lemma BodyStep(ps: seq<Spelt>, tail: string)
    requires ps != []
    ensures Body(ps) + tail == (if ps[0].Raw? then [ps[0].c] else ['\\', ps[0].c]) + (Body(ps[1..]) + tail)
  {
    Regroup(if ps[0].Raw? then [ps[0].c] else ['\\', ps[0].c], Body(ps[1..]), tail);
  }

  /** The reader gives what a literal means, in whatever way it is spelt. */
  lemma {:induction false} ReadsMeaning(ps: seq<Spelt>, rest: string, value: string)
    requires AllSpelt(ps)
    ensures ReadString(Body(ps) + ("\"" + rest), value, false) == Some((value + Meaning(ps), rest))
  {
    var tail := "\"" + rest;
    if ps == [] {
      assert Body(ps) + tail == tail && tail[1..] == rest && value + Meaning(ps) == value;
    } else {
      ReadOne(ps[0], Body(ps[1..]) + tail, value);
      ReadsMeaning(ps[1..], rest, value + [Meant(ps[0])]);
      BodyStep(ps, tail);
      Regroup(value, [Meant(ps[0])], Meaning(ps[1..]));
    }
  }

  /** And what it reads is a literal that is spelt so. */
  lemma {:induction false} ReadIsSpelt(s: string, value: string) returns (ps: seq<Spelt>)
    requires ReadString(s, value, false).Some?
    ensures AllSpelt(ps)
    ensures var (read, rest) := ReadString(s, value, false).value;
            s == Body(ps) + ("\"" + rest) && read == value + Meaning(ps)
    decreases |s|
  {
    var (read, rest) := ReadString(s, value, false).value;
    if s[0] == '"' {
      ps := [];
      assert Body(ps) + ("\"" + rest) == "\"" + rest && value + Meaning(ps) == value;
    } else {
      var p := if s[0] == '\\' then Escaped(s[1]) else Raw(s[0]);
      var one := if p.Raw? then [p.c] else ['\\', p.c];
      var more := s[|one|..];
      assert s == one + more;
      ReadOne(p, more, value);
      var qs := ReadIsSpelt(more, value + [Meant(p)]);
      ps := [p] + qs;
      assert ps[1..] == qs;
      BodyStep(ps, "\"" + rest);
      Regroup(value, [Meant(p)], Meaning(qs));
    }
  }

  // ---------------------------------------------------------------- a text in pieces

  datatype Piece = Blank(c: char) | Comment(line: string) | Lexeme(token: Token, text: string)

  function PieceText(p: Piece): string {
    match p case Blank(c) => [c] case Comment(line) => "#" + line case Lexeme(_, text) => text
  }

  ghost predicate Spells(text: string, t: Token) {
    if t.Text? then exists ps :: AllSpelt(ps) && text == "\"" + (Body(ps) + "\"") && t.text == Meaning(ps)
    else TokenOk(t) && text == t.Value()
  }

  ghost predicate PieceOk(p: Piece) {
    match p
    case Blank(c) => IsSpace(c) || c == ','
    case Comment(line) => '\n' !in line
    case Lexeme(t, text) => Spells(text, t)
  }

  /** A comment ends with its line, a name or number where no more of it follows. */
  predicate EndsBefore(p: Piece, rest: string) {
    rest == "" ||
    match p
    case Blank(_) => true
    case Comment(_) => rest[0] == '\n'
    case Lexeme(t, _) => (t.Name? ==> !IsNameChar(rest[0])) && (t.Number? ==> !IsNumberChar(rest[0]))
  }

  function TextOf(ps: seq<Piece>): string {
    if ps == [] then "" else PieceText(ps[0]) + TextOf(ps[1..])
  }

  function TokensOf(ps: seq<Piece>): seq<Token> {
    if ps == [] then [] else (if ps[0].Lexeme? then [ps[0].token] else []) + TokensOf(ps[1..])
  }

  ghost predicate SourceOk(ps: seq<Piece>) {
    ps == [] || (PieceOk(ps[0]) && EndsBefore(ps[0], TextOf(ps[1..])) && SourceOk(ps[1..]))
  }

  lemma {:induction false} NameEnds(name: string, rest: string)
    requires forall c | c in name :: IsNameChar(c)
    requires rest == "" || !IsNameChar(rest[0])
    ensures ReadName(name + rest) == |name|
  {
    if name == "" {
      assert name + rest == rest;
    } else {
      assert IsNameChar(name[0]) && (name + rest)[1..] == name[1..] + rest;
      NameEnds(name[1..], rest);
    }
  }

  lemma {:induction false} NumberEnds(number: string, rest: string)
    requires forall c | c in number :: IsNumberChar(c)
    requires rest == "" || !IsNumberChar(rest[0])
    ensures ReadNumber(number + rest) == |number|
  {
    if number == "" {
      assert number + rest == rest;
    } else {
      assert IsNumberChar(number[0]) && (number + rest)[1..] == number[1..] + rest;
      NumberEnds(number[1..], rest);
    }
  }

  lemma {:induction false} CommentEnds(line: string, rest: string)
    requires '\n' !in line && (rest == "" || rest[0] == '\n')
    ensures SkipLine(line + rest) == rest
  {
    if line == "" {
      assert line + rest == rest;
    } else {
      assert (line + rest)[0] == line[0] && line[0] in line && (line + rest)[1..] == line[1..] + rest;
      CommentEnds(line[1..], rest);
    }
  }

  lemma LexemeLexes(t: Token, text: string, rest: string)
    requires Spells(text, t) && EndsBefore(Lexeme(t, text), rest)
    ensures text != "" && LexOne(text + rest) == Some(([t], rest))
  {
    var s := text + rest;
    if t.Text? {
      var ps :| AllSpelt(ps) && text == "\"" + (Body(ps) + "\"") && t.text == Meaning(ps);
      assert s[0] == '"' && s[1..] == Body(ps) + ("\"" + rest);
      ReadsMeaning(ps, rest, "");
      assert "" + Meaning(ps) == Meaning(ps);
    } else if t.Punct? {
      LexPunct(text, rest);
    } else if t.Name? {
      NameEnds(text, rest);
      assert s[0] == text[0] && s[..|text|] == text && s[|text|..] == rest;
    } else {
      NumberEnds(text, rest);
      assert s[0] == text[0] && s[..|text|] == text && s[|text|..] == rest;
    }
  }

  lemma PieceLexes(p: Piece, rest: string)
    requires PieceOk(p) && EndsBefore(p, rest)
    ensures PieceText(p) != ""
    ensures LexOne(PieceText(p) + rest) == Some((if p.Lexeme? then [p.token] else [], rest))
  {
    match p
    case Blank(c) => assert ([c] + rest)[1..] == rest;
    case Comment(line) =>
      assert ("#" + line + rest)[1..] == line + rest;
      CommentEnds(line, rest);
    case Lexeme(t, text) => LexemeLexes(t, text, rest);
  }

  lemma {:induction false} SpeltTextLexes(ps: seq<Piece>)
    requires SourceOk(ps)
    ensures Lex(TextOf(ps)) == Some(TokensOf(ps))
  {
    if ps != [] {
      PieceLexes(ps[0], TextOf(ps[1..]));
      SpeltTextLexes(ps[1..]);
    }
  }

  // ---------------------------------------------------------------- every text that lexes is spelt so

  lemma {:induction false} LineSplits(s: string) returns (line: string)
    ensures '\n' !in line && s == line + SkipLine(s) && (SkipLine(s) == "" || SkipLine(s)[0] == '\n')
  {
    if s == "" || s[0] == '\n' {
      line := "";
    } else {
      line := LineSplits(s[1..]);
      line := [s[0]] + line;
    }
  }

  lemma {:induction false} NameIsLongest(s: string)
    ensures ReadName(s) < |s| ==> !IsNameChar(s[ReadName(s)])
  {
    if s != "" && IsNameChar(s[0]) { NameIsLongest(s[1..]); }
  }

  lemma {:induction false} NumberIsLongest(s: string)
    ensures ReadNumber(s) < |s| ==> !IsNumberChar(s[ReadNumber(s)])
  {
    if s != "" && IsNumberChar(s[0]) { NumberIsLongest(s[1..]); }
  }

  lemma {:induction false} OneIsSpelt(s: string) returns (p: Piece)
    requires s != "" && LexOne(s).Some?
    ensures PieceOk(p) && EndsBefore(p, LexOne(s).value.1) && s == PieceText(p) + LexOne(s).value.1
    ensures LexOne(s).value.0 == if p.Lexeme? then [p.token] else []
  {
    var (ts, rest) := LexOne(s).value;
    LexOneOk(s);
    if IsSpace(s[0]) || s[0] == ',' {
      p := Blank(s[0]);
    } else if s[0] == '#' {
      var line := LineSplits(s[1..]);
      p := Comment(line);
      assert s == "#" + s[1..] && "#" + (line + rest) == ("#" + line) + rest;
    } else if StartsWithSpread(s) {
      p := Lexeme(ts[0], "...");
      assert s == "..." + rest && TokenOk(ts[0]);
    } else if IsPunctChar(s[0]) {
      p := Lexeme(ts[0], [s[0]]);
      assert TokenOk(ts[0]);
    } else if s[0] == '"' {
      var qs := ReadIsSpelt(s[1..], "");
      p := Lexeme(ts[0], "\"" + (Body(qs) + "\""));
      assert "" + Meaning(qs) == Meaning(qs);
      assert s == "\"" + s[1..] && "\"" + (Body(qs) + ("\"" + rest)) == PieceText(p) + rest;
    } else if s[0] == '-' || IsDigit(s[0]) {
      NumberIsLongest(s);
      p := Lexeme(ts[0], s[..ReadNumber(s)]);
      assert TokenOk(ts[0]);
    } else {
      NameIsLongest(s);
      p := Lexeme(ts[0], s[..ReadName(s)]);
      assert TokenOk(ts[0]);
    }
  }

  lemma {:induction false} TextIsSpelt(s: string) returns (ps: seq<Piece>)
    requires Lex(s).Some?
    ensures SourceOk(ps) && TextOf(ps) == s && TokensOf(ps) == Lex(s).value
    decreases |s|
  {
    if s == "" {
      ps := [];
    } else {
      var p := OneIsSpelt(s);
      var qs := TextIsSpelt(LexOne(s).value.1);
      ps := [p] + qs;
      assert ps[1..] == qs;
    }
  }

  /** The tokens of a text are those it spells, and a text that spells none is refused. */
  lemma LexExactly(s: string, ts: seq<Token>)
    ensures Lex(s) == Some(ts) <==> exists ps :: SourceOk(ps) && TextOf(ps) == s && TokensOf(ps) == ts
  {
    if exists ps :: SourceOk(ps) && TextOf(ps) == s && TokensOf(ps) == ts {
      var ps :| SourceOk(ps) && TextOf(ps) == s && TokensOf(ps) == ts;
      SpeltTextLexes(ps);
    }
    if Lex(s) == Some(ts) { var ps := TextIsSpelt(s); }
  }

  /** However a well-formed document is spelt, its text parses to it. */
  lemma EverySpellingParses(d: Document, ps: seq<Piece>)
    requires WfDocument(d) && SourceOk(ps) && TokensOf(ps) == PrintDocument(d)
    ensures ParseGraphql(TextOf(ps)) == Some(d)
  {
    SpeltTextLexes(ps);
    DocumentRoundTrip(d);
  }

  // ---------------------------------------------------------------- other forms of an operation

  /** Parentheses pair up, and the source does not end inside. */
  predicate Balanced(ts: seq<Token>, depth: nat) {
    if ts == [] then depth == 0
    else if ts[0].Eof? then false
    else if ts[0].Value() == "(" then Balanced(ts[1..], depth + 1)
    else if ts[0].Value() == ")" then depth > 0 && Balanced(ts[1..], depth - 1)
    else Balanced(ts[1..], depth)
  }

  lemma {:induction false} BalancedIsSkipped(ts: seq<Token>, depth: nat, rest: seq<Token>)
    requires Balanced(ts, depth)
    ensures SkipBalanced(ts + ([Punct(")")] + rest), "(", ")", depth + 1) == Ok((), rest)
  {
    var all := ts + ([Punct(")")] + rest);
    if ts == [] {
      assert all == [Punct(")")] + rest && all[1..] == rest;
    } else {
      assert all[0] == ts[0] && all[1..] == ts[1..] + ([Punct(")")] + rest);
      var d := if ts[0].Value() == "(" then depth + 1 else if ts[0].Value() == ")" then depth - 1 else depth;
      BalancedIsSkipped(ts[1..], d, rest);
    }
  }

  /** An operation printed with variable definitions after its keyword and name. */
  function PrintWithVariables(op: Operation, definitions: seq<Token>): seq<Token> {
    [Name(op.operation)] + (match op.name case Some(n) => [Name(n)] case None => [])
    + ([Punct("(")] + definitions + [Punct(")")])
    + PrintDirectives(op.directives) + PrintSelectionSet(op.selectionSet)
  }

  lemma Regroup5(a: seq<Token>, b: seq<Token>, c: seq<Token>, d: seq<Token>, e: seq<Token>, rest: seq<Token>)
    ensures ((((a + b) + c) + d) + e) + rest == a + (b + (c + (d + (e + rest))))
  {
    Regroup4(a + b, c, d, e, rest);
    Regroup2(a, b, c + (d + (e + rest)));
  }

  lemma VariablesShape(op: Operation, definitions: seq<Token>, rest: seq<Token>)
    ensures PrintWithVariables(op, definitions) + rest
         == [Name(op.operation)] + AfterKeyword(op, [Punct("(")] + (definitions + ([Punct(")")]
              + (PrintDirectives(op.directives) + (PrintSelectionSet(op.selectionSet) + rest)))))
  {
    var more := PrintDirectives(op.directives) + (PrintSelectionSet(op.selectionSet) + rest);
    var group := [Punct("(")] + definitions + [Punct(")")];
    var named := if op.name.Some? then [Name(op.name.value)] else [];
    Regroup5([Name(op.operation)], named, group, PrintDirectives(op.directives), PrintSelectionSet(op.selectionSet),
             rest);
    Regroup3([], [Punct("(")], definitions, [Punct(")")] + more);
    Regroup3([Punct("(")], definitions, [Punct(")")], more);
    assert [] + (group + more) == group + more;
  }

  /** `ts` is the keyword and name of the operation, and then `more`. */
  predicate Headed(ts: seq<Token>, op: Operation, more: seq<Token>) {
    && Peek(ts) == Name(op.operation)
    && (if op.name.Some? then Peek(Consume(ts)) == Name(op.name.value) && Consume(Consume(ts)) == more
        else !Peek(Consume(ts)).Name? && Consume(ts) == more)
  }

  lemma KeywordHeads(op: Operation, more: seq<Token>)
    requires more != [] && more[0].Punct?
    ensures Headed([Name(op.operation)] + AfterKeyword(op, more), op, more)
  {
    var ts := [Name(op.operation)] + AfterKeyword(op, more);
    assert Consume(ts) == AfterKeyword(op, more);
  }

  lemma VariablesStep(ts: seq<Token>, op: Operation, group: seq<Token>, ts2: seq<Token>, inner: seq<Token>,
                      rest: seq<Token>)
    requires op.operation == "query" || op.operation == "mutation"
    requires Headed(ts, op, group) && PeekValue(group, "(") && SkipBalanced(Consume(group), "(", ")", 1) == Ok((), ts2)
    requires ParseDirectives(ts2, []) == Ok(op.directives, inner)
    requires ParseSelectionSet(inner) == Ok(op.selectionSet, rest)
    ensures ParseOperation(ts) == Ok(op, rest)
  {
  }

  lemma GroupParses(op: Operation, definitions: seq<Token>, ts2: seq<Token>, inner: seq<Token>, rest: seq<Token>)
    requires (op.operation == "query" || op.operation == "mutation") && Balanced(definitions, 0)
    requires ParseDirectives(ts2, []) == Ok(op.directives, inner)
    requires ParseSelectionSet(inner) == Ok(op.selectionSet, rest)
    ensures ParseOperation([Name(op.operation)] + AfterKeyword(op, [Punct("(")] + (definitions + ([Punct(")")] + ts2))))
         == Ok(op, rest)
  {
    var group := [Punct("(")] + (definitions + ([Punct(")")] + ts2));
    KeywordHeads(op, group);
    assert Consume(group) == definitions + ([Punct(")")] + ts2);
    BalancedIsSkipped(definitions, 0, ts2);
    VariablesStep([Name(op.operation)] + AfterKeyword(op, group), op, group, ts2, inner, rest);
  }

  /** Variable definitions between balanced parentheses are skipped. */
  lemma VariablesAreSkipped(op: Operation, definitions: seq<Token>, rest: seq<Token>)
    requires WfOperation(op) && Balanced(definitions, 0)
    ensures ParseOperation(PrintWithVariables(op, definitions) + rest) == Ok(op, rest)
  {
    var inner := PrintSelectionSet(op.selectionSet) + rest;
    OperationBody(op, rest);
    VariablesShape(op, definitions, rest);
    GroupParses(op, definitions, PrintDirectives(op.directives) + inner, inner, rest);
  }

  /** A selection set alone is a query without a name. */
  lemma ShortFormIsQuery(ss: seq<Selection>, rest: seq<Token>)
    requires WfSelections(ss)
    ensures ParseOperation(PrintSelectionSet(ss) + rest) == Ok(Operation("query", None, [], ss), rest)
  {
    SelectionSetRoundTrip(ss, rest);
    SubStart(Set(ss), rest);
  }

  /** A name as a value is the string it reads, but for the three words of JSON. */
  lemma NamesAreStrings(name: string, rest: seq<Token>)
    requires IsName(name)
    ensures ParseValue([Name(name)] + rest)
         == Ok(Literal(if name == "true" then BoolValue(true) else if name == "false" then BoolValue(false)
                       else if name == "null" then NullValue else StringValue(name)), rest)
  {
    assert ([Name(name)] + rest)[1..] == rest;
    NameIsNotPunct(name, "$");
  }

  // ---------------------------------------------------------------- every form of a document

  datatype Form = Full | WithVariables(definitions: seq<Token>) | Short

  /** A definition as it stands in a source: an operation in one of its forms, or a fragment. */
  datatype Written = Op(op: Operation, form: Form) | Frag(f: Fragment)

  predicate WrittenOk(w: Written) {
    match w
    case Frag(f) => WfFragment(f)
    case Op(op, Full) => WfOperation(op)
    case Op(op, WithVariables(definitions)) => WfOperation(op) && Balanced(definitions, 0)
    case Op(op, Short) => WfSelections(op.selectionSet) && op == Operation("query", None, [], op.selectionSet)
  }

  function PrintWritten(w: Written): seq<Token> {
    match w
    case Frag(f) => PrintFragment(f)
    case Op(op, Full) => PrintOperation(op)
    case Op(op, WithVariables(definitions)) => PrintWithVariables(op, definitions)
    case Op(op, Short) => PrintSelectionSet(op.selectionSet)
  }

  function PrintAll(ws: seq<Written>): seq<Token> {
    if ws == [] then [] else PrintWritten(ws[0]) + PrintAll(ws[1..])
  }

  function Operations(ws: seq<Written>): seq<Operation> {
    if ws == [] then [] else (if ws[0].Op? then [ws[0].op] else []) + Operations(ws[1..])
  }

  function Fragments(ws: seq<Written>): seq<Fragment> {
    if ws == [] then [] else (if ws[0].Frag? then [ws[0].f] else []) + Fragments(ws[1..])
  }

  lemma OperationDefinition(w: Written, rest: seq<Token>, acc: Definitions)
    requires WrittenOk(w) && w.Op?
    ensures ParseDefinitions(PrintWritten(w) + rest, acc)
         == ParseDefinitions(rest, acc.(operations := acc.operations + [w.op]))
  {
    match w.form
    case Full => OperationDefinitionRoundTrip(w.op, rest, acc);
    case WithVariables(definitions) =>
      VariablesAreSkipped(w.op, definitions, rest);
      VariablesShape(w.op, definitions, rest);
      OperationDefinitionStep(PrintWithVariables(w.op, definitions) + rest, w.op, rest, acc);
    case Short =>
      ShortFormIsQuery(w.op.selectionSet, rest);
      SubStart(Set(w.op.selectionSet), rest);
  }

  /** What the definitions `ws` come to when the source ends after them. */
  ghost predicate Parses(ws: seq<Written>, acc: Definitions) {
    ParseDefinitions(PrintAll(ws) + [Eof], acc)
    == Some(Definitions(acc.operations + Operations(ws), acc.fragments + Fragments(ws)))
  }

  lemma OperationFirst(ws: seq<Written>, acc: Definitions)
    requires ws != [] && ws[0].Op? && WrittenOk(ws[0])
    requires Parses(ws[1..], acc.(operations := acc.operations + [ws[0].op]))
    ensures Parses(ws, acc)
  {
    Regroup2(PrintWritten(ws[0]), PrintAll(ws[1..]), [Eof]);
    OperationDefinition(ws[0], PrintAll(ws[1..]) + [Eof], acc);
    Regroup(acc.operations, [ws[0].op], Operations(ws[1..]));
    assert [] + Fragments(ws[1..]) == Fragments(ws[1..]);
  }

  lemma FragmentFirst(ws: seq<Written>, acc: Definitions)
    requires ws != [] && ws[0].Frag? && WrittenOk(ws[0]) && forall g | g in acc.fragments :: g.name != ws[0].f.name
    requires Parses(ws[1..], acc.(fragments := acc.fragments + [ws[0].f]))
    ensures Parses(ws, acc)
  {
    Regroup2(PrintWritten(ws[0]), PrintAll(ws[1..]), [Eof]);
    FragmentDefinitionRoundTrip(ws[0].f, PrintAll(ws[1..]) + [Eof], acc);
    Regroup(acc.fragments, [ws[0].f], Fragments(ws[1..]));
    assert [] + Operations(ws[1..]) == Operations(ws[1..]);
  }

  lemma {:induction false} AllParse(ws: seq<Written>, acc: Definitions)
    requires forall w | w in ws :: WrittenOk(w)
    requires DistinctFragments(acc.fragments + Fragments(ws))
    ensures Parses(ws, acc)
    decreases |ws|
  {
    if ws == [] {
      assert PrintAll(ws) + [Eof] == [Eof];
      assert acc.operations + [] == acc.operations && acc.fragments + [] == acc.fragments;
    } else {
      assert WrittenOk(ws[0]);
      if ws[0].Op? {
        assert [] + Fragments(ws[1..]) == Fragments(ws[1..]);
        AllParse(ws[1..], acc.(operations := acc.operations + [ws[0].op]));
        OperationFirst(ws, acc);
      } else {
        Regroup(acc.fragments, [ws[0].f], Fragments(ws[1..]));
        forall g | g in acc.fragments ensures g.name != ws[0].f.name { FragmentNotBefore(acc.fragments, ws, g); }
        AllParse(ws[1..], acc.(fragments := acc.fragments + [ws[0].f]));
        FragmentFirst(ws, acc);
      }
    }
  }

  lemma FragmentNotBefore(before: seq<Fragment>, ws: seq<Written>, g: Fragment)
    requires ws != [] && ws[0].Frag? && DistinctFragments(before + Fragments(ws)) && g in before
    ensures g.name != ws[0].f.name
  {
    var all := before + Fragments(ws);
    var i :| 0 <= i < |before| && before[i] == g;
    assert all[i] == g && all[|before|] == ws[0].f;
  }

  /** A source made of operations, in short form, with variable definitions or without, and of fragments,
      in any order, spelt in any way, parses to its operations and fragments. */
  lemma EverySourceParses(ws: seq<Written>, ps: seq<Piece>)
    requires (forall w | w in ws :: WrittenOk(w)) && DistinctFragments(Fragments(ws))
    requires SourceOk(ps) && TokensOf(ps) == PrintAll(ws)
    ensures ParseGraphql(TextOf(ps)) == Some(MakeDocument(Definitions(Operations(ws), Fragments(ws))))
  {
    SpeltTextLexes(ps);
    assert [] + Operations(ws) == Operations(ws) && [] + Fragments(ws) == Fragments(ws);
    AllParse(ws, Definitions([], []));
  }
}
