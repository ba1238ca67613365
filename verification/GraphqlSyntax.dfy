/** The GraphQL subset of the server: tokens, syntax trees, the lexer and a recursive-descent
    parser, as functions on what is left of the input. */
module GraphqlSyntax {
  import opened Options
  import opened Decimal
  import opened JsText

  datatype Token = Name(text: string) | Number(text: string) | Punct(text: string) | Text(text: string) | Eof {
    /** `token.value`, the only thing `peekValue` and `expect` look at. */
    function Value(): string {
      if Eof? then "<eof>" else text
    }
  }

  /** A number token containing '.' is kept as its text: what `parseFloat` makes of it is not
      modelled. */
  datatype Scalar =
    | StringValue(s: string)
    | IntValue(n: int)
    | DecimalValue(text: string)
    | NaN
    | BoolValue(b: bool)
    | NullValue

  datatype ValueNode =
    | Variable(name: string)
    | Literal(value: Scalar)
    | ListNode(values: seq<ValueNode>)
    | ObjectNode(fields: seq<Argument>)

  /** One property of a record of values, in insertion order. */
  datatype Argument = Argument(name: string, value: ValueNode)

  datatype Directive = Directive(name: string, arguments: seq<Argument>)

  datatype Selection =
    | Field(alias: Option<string>, name: string, arguments: seq<Argument>, directives: seq<Directive>,
            selectionSet: SubSelection)
    | FragmentSpread(name: string, directives: seq<Directive>)
    | InlineFragment(typeCondition: Option<string>, directives: seq<Directive>, selections: seq<Selection>)

  /** The `{ … }` of a field, or null. */
  datatype SubSelection = NoSet | Set(selections: seq<Selection>)

  datatype Operation = Operation(operation: string, name: Option<string>, directives: seq<Directive>,
      selectionSet: seq<Selection>)

  datatype Fragment = Fragment(name: string, typeCondition: string, directives: seq<Directive>,
      selectionSet: seq<Selection>)

  datatype Document = Document(operation: string, name: Option<string>, selectionSet: seq<Selection>,
                               operations: seq<Operation>, fragments: seq<Fragment>)

  // ---------------------------------------------------------------- the lexer

  predicate IsPunctChar(c: char) {
    c == '{' || c == '}' || c == '(' || c == ')' || c == ':' || c == '[' || c == ']' || c == '!' || c == '$'
        || c == '=' || c == '@'
  }

  predicate IsNumberChar(c: char) {
    c == '-' || c == '.' || IsDigit(c)
  }

  predicate IsLetter(c: char) {
    'A' <= c <= 'Z' || 'a' <= c <= 'z' || c == '_'
  }

  predicate IsNameChar(c: char) {
    IsLetter(c) || IsDigit(c)
  }

  function SkipLine(s: string): (rest: string)
    ensures |rest| <= |s|
  {
    if s == "" || s[0] == '\n' then s else SkipLine(s[1..])
  }

  function DecodeEscape(c: char): char {
    if c == 'n' then '\n' else if c == 'r' then '\r' else if c == 't' then '\t' else c
  }

  /** The rest of a string literal, after its opening quote or what has been read of it. */
  function ReadString(s: string, value: string, escaping: bool): (r: Option<(string, string)>)
    ensures r.Some? ==> |r.value.1| < |s|
    decreases |s|
  {
    if s == "" then None
    else if escaping then ReadString(s[1..], value + [DecodeEscape(s[0])], false)
    else if s[0] == '\\' then ReadString(s[1..], value, true)
    else if s[0] == '"' then Some((value, s[1..]))
    else ReadString(s[1..], value + [s[0]], false)
  }

  function ReadNumber(s: string): (n: nat)
    ensures n <= |s| && forall i | 0 <= i < n :: IsNumberChar(s[i])
  {
    if s == "" || !IsNumberChar(s[0]) then 0
    else
      1 + ReadNumber(s[1..])
  }

  function ReadName(s: string): (n: nat)
    ensures n <= |s| && forall i | 0 <= i < n :: IsNameChar(s[i])
  {
    if s == "" || !IsNameChar(s[0]) then 0
    else
      1 + ReadName(s[1..])
  }

  predicate StartsWithSpread(s: string) {
    |s| >= 3 && s[0] == '.' && s[1] == '.' && s[2] == '.'
  }

  /** One turn of the loop: a token or nothing, and what is left; None is a thrown error. */
  function LexOne(s: string): (r: Option<(seq<Token>, string)>)
    requires s != ""
    ensures r.Some? ==> |r.value.1| < |s|
  {
    var c := s[0];
    if IsSpace(c) || c == ',' then Some(([], s[1..]))
    else if c == '#' then Some(([], SkipLine(s[1..])))
    else if StartsWithSpread(s) then Some(([Punct("...")], s[3..]))
    else if IsPunctChar(c) then Some(([Punct([c])], s[1..]))
    else if c == '"' then
      match ReadString(s[1..], "", false)
      case Some((value, rest)) => Some(([Text(value)], rest))
      case None => None
    else if c == '-' || IsDigit(c) then Some(([Number(s[..ReadNumber(s)])], s[ReadNumber(s)..]))
    else if IsLetter(c) then Some(([Name(s[..ReadName(s)])], s[ReadName(s)..]))
    else None
  }

  function Lex(s: string): Option<seq<Token>>
    decreases |s|
  {
    if s == "" then Some([])
    else
      match LexOne(s)
      case None => None
      case Some((token, rest)) =>
        match Lex(rest)
        case None => None
        case Some(tokens) => Some(token + tokens)
  }

  function Tokenize(source: string): Option<seq<Token>> {
    match Lex(source)
    case None => None
    case Some(tokens) => Some(tokens + [Eof])
  }

  // ---------------------------------------------------------------- the parser

  /** A parsed node and the tokens left, or a thrown error. */
  datatype Result<+T> = Ok(node: T, rest: seq<Token>) | Fail

  function Peek(ts: seq<Token>): Token {
    if ts == [] then Eof else ts[0]
  }

  function Consume(ts: seq<Token>): (rest: seq<Token>)
    ensures |rest| <= |ts| && (ts != [] ==> |rest| < |ts|)
  {
    if ts == [] then [] else ts[1..]
  }

  predicate PeekValue(ts: seq<Token>, value: string) {
    Peek(ts).Value() == value
  }

  predicate PeekName(ts: seq<Token>, name: string) {
    Peek(ts) == Name(name)
  }

  function Expect(ts: seq<Token>, value: string): (r: Result<Token>)
    ensures r.Ok? ==> |r.rest| <= |ts| && (value != "<eof>" ==> |r.rest| < |ts|)
  {
    if PeekValue(ts, value) then Ok(Peek(ts), Consume(ts)) else Fail
  }

  function ExpectName(ts: seq<Token>): (r: Result<string>)
    ensures r.Ok? ==> |r.rest| < |ts|
  {
    if Peek(ts).Name? then Ok(Peek(ts).text, Consume(ts)) else Fail
  }

  function ExpectNameValue(ts: seq<Token>, value: string): (r: Result<string>)
    ensures r.Ok? ==> |r.rest| < |ts|
  {
    var r := ExpectName(ts);
    if r.Ok? && r.node == value then r else Fail
  }

  /** `record[name] = value`. */
  function PutArgument(record: seq<Argument>, name: string, value: ValueNode): seq<Argument> {
    if record == [] then [Argument(name, value)]
    else if record[0].name == name then [Argument(name, value)] + record[1..]
    else [record[0]] + PutArgument(record[1..], name, value)
  }

  /** `parseInt(text, 10)`, or the text of a decimal. */
  function ParseNumber(text: string): Scalar {
    if '.' in text then DecimalValue(text)
    else
      var negative := text != "" && text[0] == '-';
      var digits := DigitPrefix(if negative then text[1..] else text);
      if digits == "" then NaN
      else IntValue(if negative then 0 - NatOf(digits) else NatOf(digits))
  }

  function ParseValue(ts: seq<Token>): (r: Result<ValueNode>)
    ensures r.Ok? ==> |r.rest| < |ts|
    decreases |ts|, 1
  {
    var token := Peek(ts);
    if token.Value() == "$" then
      match ExpectName(Consume(ts))
      case Ok(name, rest) => Ok(Variable(name), rest)
      case Fail => Fail
    else
      match token
      case Text(s) => Ok(Literal(StringValue(s)), Consume(ts))
      case Number(text) => Ok(Literal(ParseNumber(text)), Consume(ts))
      case Name(name) =>
        Ok(Literal(if name == "true" then BoolValue(true)
                   else if name == "false" then BoolValue(false)
                   else if name == "null" then NullValue
                   else StringValue(name)), Consume(ts))
      case Punct(p) =>
        if p == "[" then ParseList(ts)
        else if p == "{" then
          match ParseRecord(ts, "{", "}")
          case Ok(fields, rest) => Ok(ObjectNode(fields), rest)
          case Fail => Fail
        else Fail
      case Eof => Fail
  }

  function ParseList(ts: seq<Token>): (r: Result<ValueNode>)
    requires PeekValue(ts, "[") && ts != []
    ensures r.Ok? ==> |r.rest| < |ts|
    decreases |ts|, 0
  {
    match ParseValues(Consume(ts), [])
    case Fail => Fail
    case Ok(values, rest) =>
      match Expect(rest, "]")
      case Ok(_, rest') => Ok(ListNode(values), rest')
      case Fail => Fail
  }

  /** Values up to a "]", after the ones in `acc`. */
  function ParseValues(ts: seq<Token>, acc: seq<ValueNode>): (r: Result<seq<ValueNode>>)
    ensures r.Ok? ==> |r.rest| <= |ts|
    decreases |ts|, 2
  {
    if PeekValue(ts, "]") then Ok(acc, ts)
    else
      match ParseValue(ts)
      case Ok(v, rest) => ParseValues(rest, acc + [v])
      case Fail => Fail
  }

  /** An argument list or an object literal. */
  function ParseRecord(ts: seq<Token>, open: string, close: string): (r: Result<seq<Argument>>)
    requires open != "<eof>" && close != "<eof>"
    ensures r.Ok? ==> |r.rest| < |ts|
    decreases |ts|, 0
  {
    match Expect(ts, open)
    case Fail => Fail
    case Ok(_, rest) =>
      match ParseArguments(rest, close, [])
      case Fail => Fail
      case Ok(record, rest) =>
        match Expect(rest, close)
        case Ok(_, rest') => Ok(record, rest')
        case Fail => Fail
  }

  function ParseArguments(ts: seq<Token>, close: string, acc: seq<Argument>): (r: Result<seq<Argument>>)
    ensures r.Ok? ==> |r.rest| <= |ts|
    decreases |ts|, 2
  {
    if PeekValue(ts, close) then Ok(acc, ts)
    else
      match ParseArgument(ts)
      case Ok(a, rest) => ParseArguments(rest, close, PutArgument(acc, a.name, a.value))
      case Fail => Fail
  }

  function ParseArgument(ts: seq<Token>): (r: Result<Argument>)
    ensures r.Ok? ==> |r.rest| < |ts|
    decreases |ts|, 1
  {
    match ExpectName(ts)
    case Fail => Fail
    case Ok(name, rest) =>
      match Expect(rest, ":")
      case Fail => Fail
      case Ok(_, rest) =>
        match ParseValue(rest)
        case Ok(value, rest) => Ok(Argument(name, value), rest)
        case Fail => Fail
  }

  /** `this.peekValue('(') ? this.parseArguments() : {}`. */
  function ParseOptionalArguments(ts: seq<Token>): (r: Result<seq<Argument>>)
    ensures r.Ok? ==> |r.rest| <= |ts|
  {
    if PeekValue(ts, "(") then ParseRecord(ts, "(", ")") else Ok([], ts)
  }

  function ParseDirectives(ts: seq<Token>, acc: seq<Directive>): (r: Result<seq<Directive>>)
    ensures r.Ok? ==> |r.rest| <= |ts|
    decreases |ts|
  {
    if !PeekValue(ts, "@") then Ok(acc, ts)
    else
      match ExpectName(Consume(ts))
      case Fail => Fail
      case Ok(name, rest) =>
        match ParseOptionalArguments(rest)
        case Fail => Fail
        case Ok(args, rest) => ParseDirectives(rest, acc + [Directive(name, args)])
  }

  function ParseSelectionSet(ts: seq<Token>): (r: Result<seq<Selection>>)
    ensures r.Ok? ==> |r.rest| < |ts|
    decreases |ts|, 0
  {
    match Expect(ts, "{")
    case Fail => Fail
    case Ok(_, rest) =>
      match ParseSelections(rest, [])
      case Fail => Fail
      case Ok(selections, rest) =>
        match Expect(rest, "}")
        case Ok(_, rest') => Ok(selections, rest')
        case Fail => Fail
  }

  function ParseSelections(ts: seq<Token>, acc: seq<Selection>): (r: Result<seq<Selection>>)
    ensures r.Ok? ==> |r.rest| <= |ts|
    decreases |ts|, 2
  {
    if PeekValue(ts, "}") then Ok(acc, ts)
    else
      match ParseSelection(ts)
      case Ok(s, rest) => ParseSelections(rest, acc + [s])
      case Fail => Fail
  }

  function ParseSelection(ts: seq<Token>): (r: Result<Selection>)
    ensures r.Ok? ==> |r.rest| < |ts|
    decreases |ts|, 1
  {
    if PeekValue(ts, "...") then ParseFragmentSelection(ts) else ParseField(ts)
  }

  function ParseFragmentSelection(ts: seq<Token>): (r: Result<Selection>)
    requires PeekValue(ts, "...") && ts != []
    ensures r.Ok? ==> |r.rest| < |ts|
    decreases |ts|, 0
  {
    var rest := Consume(ts);
    if PeekName(rest, "on") then
      match ExpectName(Consume(rest))
      case Fail => Fail
      case Ok(typeCondition, rest) =>
        match ParseDirectives(rest, [])
        case Fail => Fail
        case Ok(directives, rest) =>
          match ParseSelectionSet(rest)
          case Ok(selections, rest) => Ok(InlineFragment(Some(typeCondition), directives, selections), rest)
          case Fail => Fail
    else
      match ExpectName(rest)
      case Fail => Fail
      case Ok(name, rest) =>
        match ParseDirectives(rest, [])
        case Ok(directives, rest) => Ok(FragmentSpread(name, directives), rest)
        case Fail => Fail
  }

  /** `name` or `alias: name`. */
  function ParseFieldName(ts: seq<Token>): (r: Result<(Option<string>, string)>)
    ensures r.Ok? ==> |r.rest| < |ts|
  {
    match ExpectName(ts)
    case Fail => Fail
    case Ok(first, rest) =>
      if PeekValue(rest, ":") then
        match ExpectName(Consume(rest))
        case Ok(name, rest) => Ok((Some(first), name), rest)
        case Fail => Fail
      else Ok((None, first), rest)
  }

  function ParseField(ts: seq<Token>): (r: Result<Selection>)
    ensures r.Ok? ==> |r.rest| < |ts|
    decreases |ts|, 0
  {
    match ParseFieldName(ts)
    case Fail => Fail
    case Ok((alias, name), rest) =>
      match ParseOptionalArguments(rest)
      case Fail => Fail
      case Ok(args, rest) =>
        match ParseDirectives(rest, [])
        case Fail => Fail
        case Ok(directives, rest) =>
          if PeekValue(rest, "{") then
            match ParseSelectionSet(rest)
            case Ok(selections, rest) => Ok(Field(alias, name, args, directives, Set(selections)), rest)
            case Fail => Fail
          else Ok(Field(alias, name, args, directives, NoSet), rest)
  }

  /** `skipBalanced`, after its opening token: everything up to the closing one of depth 1. */
  function SkipBalanced(ts: seq<Token>, open: string, close: string, depth: nat): (r: Result<()>)
    ensures r.Ok? ==> |r.rest| <= |ts|
    decreases |ts|
  {
    if depth == 0 then Ok((), ts)
    else if Peek(ts).Eof? then Fail
    else
      var deeper := if PeekValue(ts, open) then depth + 1 else depth;
      SkipBalanced(Consume(ts), open, close, if PeekValue(ts, close) then deeper - 1 else deeper)
  }

  function ParseOperation(ts: seq<Token>): (r: Result<Operation>)
    ensures r.Ok? ==> |r.rest| < |ts|
  {
    if PeekValue(ts, "{") then
      match ParseSelectionSet(ts)
      case Ok(selections, rest) => Ok(Operation("query", None, [], selections), rest)
      case Fail => Fail
    else if !PeekName(ts, "query") && !PeekName(ts, "mutation") then Fail
    else
      var rest := Consume(ts);
      var name := if Peek(rest).Name? then Some(Peek(rest).text) else None;
      var rest1 := if Peek(rest).Name? then Consume(rest) else rest;
      match (if PeekValue(rest1, "(") then SkipBalanced(Consume(rest1), "(", ")", 1) else Ok((), rest1))
      case Fail => Fail
      case Ok(_, rest) =>
        match ParseDirectives(rest, [])
        case Fail => Fail
        case Ok(directives, rest) =>
          match ParseSelectionSet(rest)
          case Ok(selections, rest) => Ok(Operation(Peek(ts).text, name, directives, selections), rest)
          case Fail => Fail
  }

  function ParseFragment(ts: seq<Token>): (r: Result<Fragment>)
    ensures r.Ok? ==> |r.rest| < |ts|
  {
    match ExpectNameValue(ts, "fragment")
    case Fail => Fail
    case Ok(_, rest) =>
      match ExpectName(rest)
      case Fail => Fail
      case Ok(name, rest) =>
        match ExpectNameValue(rest, "on")
        case Fail => Fail
        case Ok(_, rest) =>
          match ExpectName(rest)
          case Fail => Fail
          case Ok(typeCondition, rest) =>
            match ParseDirectives(rest, [])
            case Fail => Fail
            case Ok(directives, rest) =>
              match ParseSelectionSet(rest)
              case Ok(selections, rest) => Ok(Fragment(name, typeCondition, directives, selections), rest)
              case Fail => Fail
  }

  /** `fragments[fragment.name] = fragment`. */
  function PutFragment(fragments: seq<Fragment>, f: Fragment): seq<Fragment> {
    if fragments == [] then [f]
    else if fragments[0].name == f.name then [f] + fragments[1..]
    else [fragments[0]] + PutFragment(fragments[1..], f)
  }

  datatype Definitions = Definitions(operations: seq<Operation>, fragments: seq<Fragment>)

  function ParseDefinitions(ts: seq<Token>, acc: Definitions): Option<Definitions>
    decreases |ts|
  {
    if PeekValue(ts, "<eof>") then Some(acc)
    else if PeekName(ts, "fragment") then
      match ParseFragment(ts)
      case Ok(f, rest) => ParseDefinitions(rest, acc.(fragments := PutFragment(acc.fragments, f)))
      case Fail => None
    else
      match ParseOperation(ts)
      case Ok(op, rest) => ParseDefinitions(rest, acc.(operations := acc.operations + [op]))
      case Fail => None
  }

  function MakeDocument(d: Definitions): Document {
    var first := if d.operations == [] then Operation("query", None, [], []) else d.operations[0];
    Document(first.operation, first.name, first.selectionSet, d.operations, d.fragments)
  }

  function ParseDocument(ts: seq<Token>): Option<Document> {
    match ParseDefinitions(ts, Definitions([], []))
    case Some(d) => Some(MakeDocument(d))
    case None => None
  }

  function ParseGraphql(source: string): Option<Document> {
    match Tokenize(source)
    case Some(tokens) => ParseDocument(tokens)
    case None => None
  }
}
