/** The lexer's loops and the parser object that advances an index, each method tied to the
    function of module `GraphqlSyntax` it computes.  A `None` result stands for a thrown error. */
module GraphqlParser {
  import opened Options
  import opened JsText
  import opened GraphqlSyntax
  import S = GraphqlSyntax

  // ---------------------------------------------------------------- the lexer

  method ReadStringToken(source: string, start: nat) returns (r: Option<(string, nat)>)
    requires start < |source|
    ensures match S.ReadString(source[start + 1..], "", false)
            case None => r == None
            case Some((value, rest)) => r.Some? && r.value.0 == value && r.value.1 <= |source|
                                         && source[r.value.1..] == rest
  {
    var value, index, escaping := "", start + 1, false;
    while index < |source|
      invariant start < index <= |source|
      invariant S.ReadString(source[index..], value, escaping) == S.ReadString(source[start + 1..], "", false)
    {
      var c := source[index];
      assert source[index..][0] == c && source[index..][1..] == source[index + 1..];
      if escaping {
        value := value + [DecodeEscape(c)];
        escaping := false;
      } else if c == '\\' {
        escaping := true;
      } else if c == '"' {
        return Some((value, index + 1));
      } else {
        value := value + [c];
      }
      index := index + 1;
    }
    return None;
  }

  method ReadNumberToken(source: string, start: nat) returns (value: string, index: nat)
    requires start <= |source|
    ensures index == start + S.ReadNumber(source[start..]) && value == source[start..index]
  {
    index := start;
    while index < |source| && IsNumberChar(source[index])
      invariant start <= index <= |source|
      invariant index + S.ReadNumber(source[index..]) == start + S.ReadNumber(source[start..])
    {
      assert source[index..][1..] == source[index + 1..];
      index := index + 1;
    }
    value := source[start..index];
  }

  method ReadNameToken(source: string, start: nat) returns (value: string, index: nat)
    requires start <= |source|
    ensures index == start + S.ReadName(source[start..]) && value == source[start..index]
  {
    index := start;
    while index < |source| && IsNameChar(source[index])
      invariant start <= index <= |source|
      invariant index + S.ReadName(source[index..]) == start + S.ReadName(source[start..])
    {
      assert source[index..][1..] == source[index + 1..];
      index := index + 1;
    }
    value := source[start..index];
  }

  /** `before` is what is lexed already; None when the rest throws. */
  function Prepend(before: seq<Token>, rest: Option<seq<Token>>): Option<seq<Token>> {
    match rest case None => None case Some(tokens) => Some(before + tokens)
  }

  /** The inner loop over a comment. */
  method SkipComment(source: string, start: nat) returns (index: nat)
    requires start <= |source|
    ensures start <= index <= |source| && source[index..] == SkipLine(source[start..])
  {
    index := start;
    while index < |source| && source[index] != '\n'
      invariant start <= index <= |source| && SkipLine(source[index..]) == SkipLine(source[start..])
    {
      assert source[index..][1..] == source[index + 1..];
      index := index + 1;
    }
  }

  /** `r` is the token and the index that `LexOne` describes by the text left. */
  ghost predicate Reads(source: string, start: nat, spec: Option<(seq<Token>, string)>, r: Option<(seq<Token>, nat)>) {
    match spec
    case None => r == None
    case Some((token, rest)) =>
      r.Some? && r.value.0 == token && start < r.value.1 <= |source| && source[r.value.1..] == rest
  }

  lemma LexWord(s: string)
    requires s != ""
    ensures s[0] == '-' || Decimal.IsDigit(s[0])
        ==> LexOne(s) == Some(([Number(s[..ReadNumber(s)])], s[ReadNumber(s)..]))
    ensures IsLetter(s[0]) ==> LexOne(s) == Some(([Name(s[..ReadName(s)])], s[ReadName(s)..]))
  {
  }

  /** The branches for a number and a name. */
  method ReadWord(source: string, start: nat) returns (r: Option<(seq<Token>, nat)>)
    requires start < |source| && (source[start] == '-' || Decimal.IsDigit(source[start]) || IsLetter(source[start]))
    ensures Reads(source, start, LexOne(source[start..]), r)
  {
    var c := source[start];
    ghost var s := source[start..];
    LexWord(s);
    if c == '-' || Decimal.IsDigit(c) {
      var value, index := ReadNumberToken(source, start);
      assert value == s[..index - start] && source[index..] == s[index - start..];
      return Some(([Number(value)], index));
    }
    var value, index := ReadNameToken(source, start);
    assert value == s[..index - start] && source[index..] == s[index - start..];
    return Some(([Name(value)], index));
  }

  /** One turn of the loop of `tokenize`. */
  method ReadToken(source: string, start: nat) returns (r: Option<(seq<Token>, nat)>)
    requires start < |source|
    ensures Reads(source, start, LexOne(source[start..]), r)
  {
    var c := source[start];
    ghost var s := source[start..];
    assert s[0] == c && s[1..] == source[start + 1..];
    if IsSpace(c) || c == ',' {
      return Some(([], start + 1));
    }
    if c == '#' {
      var index := SkipComment(source, start + 1);
      return Some(([], index));
    }
    if start + 2 < |source| && c == '.' && source[start + 1] == '.' && source[start + 2] == '.' {
      assert s[3..] == source[start + 3..];
      return Some(([Punct("...")], start + 3));
    }
    if IsPunctChar(c) {
      return Some(([Punct([c])], start + 1));
    }
    if c == '"' {
      var result := ReadStringToken(source, start);
      return if result.None? then None else Some(([Text(result.value.0)], result.value.1));
    }
    if c == '-' || Decimal.IsDigit(c) || IsLetter(c) {
      r := ReadWord(source, start);
      return r;
    }
    return None;
  }

  method TokenizeSource(source: string) returns (r: Option<seq<Token>>)
    ensures r == Tokenize(source)
  {
    var tokens: seq<Token> := [];
    var index := 0;
    assert source[0..] == source;
    PrependNothing(Lex(source));
    while index < |source|
      invariant 0 <= index <= |source|
      invariant Prepend(tokens, Lex(source[index..])) == Lex(source)
    {
      var next := ReadToken(source, index);
      if next.None? {
        return None;
      }
      PrependTwice(tokens, next.value.0, Lex(source[next.value.1..]));
      tokens := tokens + next.value.0;
      index := next.value.1;
    }
    assert source[index..] == "" && tokens + [] == tokens;
    r := Some(tokens + [Eof]);
  }

  lemma PrependNothing(rest: Option<seq<Token>>)
    ensures Prepend([], rest) == rest
  {
    if rest.Some? { assert [] + rest.value == rest.value; }
  }

  lemma PrependTwice(a: seq<Token>, b: seq<Token>, rest: Option<seq<Token>>)
    ensures Prepend(a, Prepend(b, rest)) == Prepend(a + b, rest)
  {
    if rest.Some? { assert a + (b + rest.value) == (a + b) + rest.value; }
  }

  // ---------------------------------------------------------------- the parser

  /** A method that returned `r` and left `rest` did what the parsing function says. */
  ghost predicate Did<T>(spec: Result<T>, r: Option<T>, rest: seq<Token>) {
    match spec
    case Ok(node, left) => r == Some(node) && rest == left
    case Fail => r == None
  }

  class Parser {
    const tokens: seq<Token>
    var index: nat

    constructor (tokens: seq<Token>)
      ensures this.tokens == tokens && Rest() == tokens
    {
      this.tokens := tokens;
      index := 0;
    }

    /** The tokens not consumed yet; the index may run past the end. */
    function Rest(): seq<Token>
      reads this
    {
      if index <= |tokens| then tokens[index..] else []
    }

    method Peek() returns (t: Token)
      ensures t == S.Peek(Rest())
    {
      t := if index < |tokens| then tokens[index] else Eof;
    }

    method PeekValue(value: string) returns (b: bool)
      ensures b == S.PeekValue(Rest(), value)
    {
      var t := Peek();
      b := t.Value() == value;
    }

    method PeekName(name: string) returns (b: bool)
      ensures b == S.PeekName(Rest(), name)
    {
      var t := Peek();
      b := t.Name? && t.text == name;
    }

    method Consume() returns (t: Token)
      modifies this
      ensures t == S.Peek(old(Rest())) && Rest() == S.Consume(old(Rest()))
    {
      t := Peek();
      index := index + 1;
    }

    method Expect(value: string) returns (r: Option<Token>)
      modifies this
      ensures Did(S.Expect(old(Rest()), value), r, Rest())
    {
      var t := Consume();
      r := if t.Value() != value then None else Some(t);
    }

    method ExpectName() returns (r: Option<string>)
      modifies this
      ensures Did(S.ExpectName(old(Rest())), r, Rest())
    {
      var t := Consume();
      r := if !t.Name? then None else Some(t.text);
    }

    method ExpectNameValue(value: string) returns (r: Option<string>)
      modifies this
      ensures Did(S.ExpectNameValue(old(Rest()), value), r, Rest())
    {
      var name := ExpectName();
      r := if name != Some(value) then None else name;
    }

    method ParseValue() returns (r: Option<ValueNode>)
      modifies this
      ensures Did(S.ParseValue(old(Rest())), r, Rest())
      decreases |Rest()|, 1
    {
      var token := Peek();
      if token.Value() == "$" {
        var _ := Consume();
        var name := ExpectName();
        return if name.None? then None else Some(Variable(name.value));
      }
      match token {
        case Text(s) =>
          var _ := Consume();
          return Some(Literal(StringValue(s)));
        case Number(text) =>
          var _ := Consume();
          return Some(Literal(ParseNumber(text)));
        case Name(value) =>
          var _ := Consume();
          if value == "true" { return Some(Literal(BoolValue(true))); }
          if value == "false" { return Some(Literal(BoolValue(false))); }
          if value == "null" { return Some(Literal(NullValue)); }
          return Some(Literal(StringValue(value)));
        case _ =>
      }
      if token.Value() == "[" {
        r := ParseList();
        return;
      }
      if token.Value() == "{" {
        var fields := ParseRecord("{", "}");
        return if fields.None? then None else Some(ObjectNode(fields.value));
      }
      return None;
    }

    method ParseList() returns (r: Option<ValueNode>)
      requires S.PeekValue(Rest(), "[") && Rest() != []
      modifies this
      ensures Did(S.ParseList(old(Rest())), r, Rest())
      decreases |Rest()|, 0
    {
      var _ := Expect("[");
      ghost var start := Rest();
      var values: seq<ValueNode> := [];
      var close := PeekValue("]");
      while !close
        invariant S.ParseValues(Rest(), values) == S.ParseValues(start, [])
        invariant |Rest()| <= |start| && close == S.PeekValue(Rest(), "]")
        decreases |Rest()|
      {
        var v := ParseValue();
        if v.None? {
          return None;
        }
        values := values + [v.value];
        close := PeekValue("]");
      }
      var _ := Expect("]");
      return Some(ListNode(values));
    }

    /** The loops of `parseArguments` and `parseObject`, which differ in their brackets. */
    method ParseRecord(left: string, right: string) returns (r: Option<seq<Argument>>)
      requires left != "<eof>" && right != "<eof>"
      modifies this
      ensures Did(S.ParseRecord(old(Rest()), left, right), r, Rest())
      decreases |Rest()|, 0
    {
      var first := Expect(left);
      if first.None? {
        return None;
      }
      ghost var start := Rest();
      var record: seq<Argument> := [];
      var close := PeekValue(right);
      while !close
        invariant S.ParseArguments(Rest(), right, record) == S.ParseArguments(start, right, [])
        invariant |Rest()| <= |start| && close == S.PeekValue(Rest(), right)
        decreases |Rest()|
      {
        var name := ExpectName();
        if name.None? {
          return None;
        }
        var colon := Expect(":");
        if colon.None? {
          return None;
        }
        var value := ParseValue();
        if value.None? {
          return None;
        }
        record := PutArgument(record, name.value, value.value);
        close := PeekValue(right);
      }
      var _ := Expect(right);
      return Some(record);
    }

    method ParseOptionalArguments() returns (r: Option<seq<Argument>>)
      modifies this
      ensures Did(S.ParseOptionalArguments(old(Rest())), r, Rest())
    {
      var some := PeekValue("(");
      if some {
        r := ParseRecord("(", ")");
      } else {
        r := Some([]);
      }
    }

    method ParseDirectives() returns (r: Option<seq<Directive>>)
      modifies this
      ensures Did(S.ParseDirectives(old(Rest()), []), r, Rest())
    {
      ghost var start := Rest();
      var directives: seq<Directive> := [];
      var more := PeekValue("@");
      while more
        invariant S.ParseDirectives(Rest(), directives) == S.ParseDirectives(start, [])
        invariant |Rest()| <= |start| && more == S.PeekValue(Rest(), "@")
        decreases |Rest()|
      {
        var _ := Consume();
        var name := ExpectName();
        if name.None? {
          return None;
        }
        var args := ParseOptionalArguments();
        if args.None? {
          return None;
        }
        directives := directives + [Directive(name.value, args.value)];
        more := PeekValue("@");
      }
      return Some(directives);
    }

    method ParseSelectionSet() returns (r: Option<seq<Selection>>)
      modifies this
      ensures Did(S.ParseSelectionSet(old(Rest())), r, Rest())
      decreases |Rest()|, 0
    {
      var first := Expect("{");
      if first.None? {
        return None;
      }
      ghost var start := Rest();
      var selections: seq<Selection> := [];
      var close := PeekValue("}");
      while !close
        invariant S.ParseSelections(Rest(), selections) == S.ParseSelections(start, [])
        invariant |Rest()| <= |start| && close == S.PeekValue(Rest(), "}")
        decreases |Rest()|
      {
        var s := ParseSelection();
        if s.None? {
          return None;
        }
        selections := selections + [s.value];
        close := PeekValue("}");
      }
      var _ := Expect("}");
      return Some(selections);
    }

    method ParseSelection() returns (r: Option<Selection>)
      modifies this
      ensures Did(S.ParseSelection(old(Rest())), r, Rest())
      decreases |Rest()|, 1
    {
      var spread := PeekValue("...");
      if spread {
        r := ParseFragmentSelection();
      } else {
        r := ParseField();
      }
    }

    method ParseFragmentSelection() returns (r: Option<Selection>)
      requires S.PeekValue(Rest(), "...") && Rest() != []
      modifies this
      ensures Did(S.ParseFragmentSelection(old(Rest())), r, Rest())
      decreases |Rest()|, 0
    {
      var _ := Expect("...");
      var on := PeekName("on");
      if on {
        var _ := Consume();
        var typeCondition := ExpectName();
        if typeCondition.None? {
          return None;
        }
        var directives := ParseDirectives();
        if directives.None? {
          return None;
        }
        var selections := ParseSelectionSet();
        return if selections.None? then None
               else Some(InlineFragment(Some(typeCondition.value), directives.value, selections.value));
      }
      var name := ExpectName();
      if name.None? {
        return None;
      }
      var directives := ParseDirectives();
      return if directives.None? then None else Some(FragmentSpread(name.value, directives.value));
    }

    /** `name` or `alias: name`. */
    method ParseFieldName() returns (r: Option<(Option<string>, string)>)
      modifies this
      ensures Did(S.ParseFieldName(old(Rest())), r, Rest())
    {
      var first := ExpectName();
      if first.None? {
        return None;
      }
      var colon := PeekValue(":");
      if !colon {
        return Some((None, first.value));
      }
      var _ := Consume();
      var second := ExpectName();
      return if second.None? then None else Some((Some(first.value), second.value));
    }

    method ParseField() returns (r: Option<Selection>)
      modifies this
      ensures Did(S.ParseField(old(Rest())), r, Rest())
      decreases |Rest()|, 0
    {
      var names := ParseFieldName();
      if names.None? {
        return None;
      }
      var (alias, name) := names.value;
      var args := ParseOptionalArguments();
      if args.None? {
        return None;
      }
      var directives := ParseDirectives();
      if directives.None? {
        return None;
      }
      var some := PeekValue("{");
      if some {
        var selections := ParseSelectionSet();
        return if selections.None? then None
               else Some(Field(alias, name, args.value, directives.value, Set(selections.value)));
      }
      return Some(Field(alias, name, args.value, directives.value, NoSet));
    }

    /** After the opening token. */
    method SkipBalanced(left: string, right: string) returns (ok: bool)
      modifies this
      ensures Did(S.SkipBalanced(old(Rest()), left, right, 1), if ok then Some(()) else None, Rest())
    {
      ghost var start := Rest();
      var depth := 1;
      while depth > 0
        invariant depth >= 0 && S.SkipBalanced(Rest(), left, right, depth) == S.SkipBalanced(start, left, right, 1)
        decreases |Rest()|
      {
        var token := Consume();
        if token.Eof? {
          return false;
        }
        if token.Value() == left {
          depth := depth + 1;
        }
        if token.Value() == right {
          depth := depth - 1;
        }
      }
      return true;
    }

    method ParseOperationDefinition() returns (r: Option<Operation>)
      modifies this
      ensures Did(S.ParseOperation(old(Rest())), r, Rest())
    {
      var short := PeekValue("{");
      if short {
        var selections := ParseSelectionSet();
        return if selections.None? then None else Some(Operation("query", None, [], selections.value));
      }
      var query := PeekName("query");
      var mutation := PeekName("mutation");
      if !query && !mutation {
        return None;
      }
      var operation := Consume();
      var name: Option<string> := None;
      var t := Peek();
      if t.Name? {
        var _ := Consume();
        name := Some(t.text);
      }
      var variables := PeekValue("(");
      if variables {
        var _ := Expect("(");
        var ok := SkipBalanced("(", ")");
        if !ok {
          return None;
        }
      }
      var directives := ParseDirectives();
      if directives.None? {
        return None;
      }
      var selections := ParseSelectionSet();
      return if selections.None? then None
             else Some(Operation(operation.Value(), name, directives.value, selections.value));
    }

    method ParseFragmentDefinition() returns (r: Option<Fragment>)
      modifies this
      ensures Did(S.ParseFragment(old(Rest())), r, Rest())
    {
      var keyword := ExpectNameValue("fragment");
      if keyword.None? {
        return None;
      }
      var name := ExpectName();
      if name.None? {
        return None;
      }
      var on := ExpectNameValue("on");
      if on.None? {
        return None;
      }
      var typeCondition := ExpectName();
      if typeCondition.None? {
        return None;
      }
      var directives := ParseDirectives();
      if directives.None? {
        return None;
      }
      var selections := ParseSelectionSet();
      return if selections.None? then None
             else Some(Fragment(name.value, typeCondition.value, directives.value, selections.value));
    }

    method ParseDocument() returns (r: Option<Document>)
      modifies this
      ensures r == S.ParseDocument(old(Rest()))
    {
      ghost var start := Rest();
      var operations: seq<Operation> := [];
      var fragments: seq<Fragment> := [];
      var done := PeekValue("<eof>");
      while !done
        invariant S.ParseDefinitions(Rest(), Definitions(operations, fragments))
            == S.ParseDefinitions(start, Definitions([], []))
        invariant done == S.PeekValue(Rest(), "<eof>")
        decreases |Rest()|
      {
        var isFragment := PeekName("fragment");
        if isFragment {
          var fragment := ParseFragmentDefinition();
          if fragment.None? {
            return None;
          }
          fragments := PutFragment(fragments, fragment.value);
        } else {
          var operation := ParseOperationDefinition();
          if operation.None? {
            return None;
          }
          operations := operations + [operation.value];
        }
        done := PeekValue("<eof>");
      }
      var first := if |operations| > 0 then operations[0] else Operation("query", None, [], []);
      return Some(Document(first.operation, first.name, first.selectionSet, operations, fragments));
    }
  }

  method Parse(source: string) returns (r: Option<Document>)
    ensures r == ParseGraphql(source)
  {
    var tokens := TokenizeSource(source);
    if tokens.None? {
      return None;
    }
    var parser := new Parser(tokens.value);
    r := parser.ParseDocument();
  }
}
