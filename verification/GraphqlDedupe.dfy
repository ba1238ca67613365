/** Which GraphQL requests the client takes for reads (`isGraphqlDedupeSafe`), against what the parser
    and the executor make of them. */
module GraphqlDedupe {
  import opened Options
  import opened GraphqlSyntax
  import opened JsText
  import opened GraphqlRoundTrip
  import opened GraphqlNormalForm
  import E = GraphqlExecute
  import Json

  /** `/^word\b/`. */
  predicate StartsWithWord(s: string, word: string) {
    |s| >= |word| && s[..|word|] == word && (|s| == |word| || !IsNameChar(s[|word|]))
  }

  predicate IsDedupeSafe(query: string) {
    var s := TrimStart(query);
    !StartsWithWord(s, "mutation") && !StartsWithWord(s, "subscription")
  }

  /** Nothing the lexer skips, but white space, stands before the first token. */
  predicate StartsPlainly(query: string) {
    var s := TrimStart(query);
    s != "" ==> s[0] != ',' && s[0] != '#'
  }

  // ---------------------------------------------------------------- the first token

  lemma {:induction false} LexTrimmed(s: string)
    ensures Lex(TrimStart(s)) == Lex(s)
  {
    if s != "" && IsSpace(s[0]) {
      LexTrimmed(s[1..]);
      LexSkips(s, s[1..]);
    }
  }

  lemma LexSkips(s: string, rest: string)
    requires s != "" && LexOne(s) == Some(([], rest))
    ensures Lex(s) == Lex(rest)
  {
    if Lex(rest).Some? { assert [] + Lex(rest).value == Lex(rest).value; }
  }

  lemma {:induction false} TrimStartStops(s: string)
    ensures TrimStart(s) != "" ==> !IsSpace(TrimStart(s)[0])
  {
    if s != "" && IsSpace(s[0]) { TrimStartStops(s[1..]); }
  }

  lemma {:induction false} NameStops(s: string)
    ensures ReadName(s) < |s| ==> !IsNameChar(s[ReadName(s)])
  {
    if s != "" && IsNameChar(s[0]) { NameStops(s[1..]); }
  }

  lemma {:induction false} ReadNameAtLeast(s: string, n: nat)
    requires n <= |s| && forall c | c in s[..n] :: IsNameChar(c)
    ensures ReadName(s) >= n
  {
    if n > 0 {
      assert s[0] in s[..n] && s[..n][1..] == s[1..][..n - 1];
      ReadNameAtLeast(s[1..], n - 1);
    }
  }

  /** A text starts with a word exactly when its first name is that word. */
  lemma WordIsFirstName(s: string, word: string)
    requires forall c | c in word :: IsNameChar(c)
    ensures StartsWithWord(s, word) <==> s[..ReadName(s)] == word
  {
    NameStops(s);
    forall k | 0 <= k < ReadName(s) ensures IsNameChar(s[k]) { assert s[k] in s[..ReadName(s)]; }
    if StartsWithWord(s, word) { ReadNameAtLeast(s, |word|); }
  }

  lemma FirstCharDiffers(s: string, word: string)
    requires s != "" && word != "" && s[0] != word[0]
    ensures !StartsWithWord(s, word)
  {
    if |s| >= |word| { assert s[..|word|][0] == s[0]; }
  }

  lemma WordsAreNames()
    ensures forall c | c in "mutation" :: IsNameChar(c)
    ensures forall c | c in "subscription" :: IsNameChar(c)
  {
  }

  predicate IsWriteToken(t: Token) {
    t == Name("mutation") || t == Name("subscription")
  }

  /** For a text that lexes and starts plainly: it is safe exactly when its first token is neither
      `mutation` nor `subscription`. */
  lemma SafeByFirstToken(query: string)
    requires StartsPlainly(query) && Lex(query).Some?
    ensures IsDedupeSafe(query) <==> !IsWriteToken(Peek(Lex(query).value))
  {
    var s := TrimStart(query);
    LexTrimmed(query);
    TrimStartStops(query);
    WordsAreNames();
    if s != "" {
      FirstToken(s);
      if IsLetter(s[0]) {
        WordIsFirstName(s, "mutation");
        WordIsFirstName(s, "subscription");
      } else {
        FirstCharDiffers(s, "mutation");
        FirstCharDiffers(s, "subscription");
      }
    }
  }

  lemma FirstToken(s: string)
    requires s != "" && !IsSpace(s[0]) && s[0] != ',' && s[0] != '#' && Lex(s).Some?
    ensures Lex(s).value != [] && (Peek(Lex(s).value).Name? <==> IsLetter(s[0]))
    ensures IsLetter(s[0]) ==> Peek(Lex(s).value) == Name(s[..ReadName(s)])
  {
    var (token, rest) := LexOne(s).value;
    assert |token| == 1 && (token + Lex(rest).value)[0] == token[0];
  }

  // ---------------------------------------------------------------- the first definition

  lemma {:induction false} DefinitionsGrow(ts: seq<Token>, acc: Definitions)
    requires ParseDefinitions(ts, acc).Some?
    ensures acc.operations <= ParseDefinitions(ts, acc).value.operations
    ensures acc.fragments != [] ==> ParseDefinitions(ts, acc).value.fragments != []
    decreases |ts|
  {
    if !PeekValue(ts, "<eof>") {
      if PeekName(ts, "fragment") {
        var f := ParseFragment(ts);
        assert PutFragment(acc.fragments, f.node) != [];
        DefinitionsGrow(f.rest, acc.(fragments := PutFragment(acc.fragments, f.node)));
      } else {
        var op := ParseOperation(ts);
        DefinitionsGrow(op.rest, acc.(operations := acc.operations + [op.node]));
      }
    }
  }

  /** The keyword of an operation is its first token. */
  lemma OperationKeyword(ts: seq<Token>)
    requires ParseOperation(ts).Ok?
    ensures ParseOperation(ts).node.operation == "mutation" <==> Peek(ts) == Name("mutation")
    ensures Peek(ts) != Name("subscription")
  {
  }

  datatype Definition = OperationDefinition(op: Operation) | FragmentDefinition(f: Fragment)

  /** The definition a parsed text starts with, if it has any. */
  function FirstDefinition(query: string): Option<Definition> {
    match Tokenize(query)
    case None => None
    case Some(ts) =>
      if PeekValue(ts, "<eof>") then None
      else if PeekName(ts, "fragment") then
        (match ParseFragment(ts) case Ok(f, _) => Some(FragmentDefinition(f)) case Fail => None)
      else
        match ParseOperation(ts) case Ok(op, _) => Some(OperationDefinition(op)) case Fail => None
  }

  predicate FirstIsMutation(query: string) {
    match FirstDefinition(query)
    case Some(OperationDefinition(op)) => op.operation == "mutation"
    case _ => false
  }

  /** What a parsed text starts with shows in its first token. */
  lemma FirstByToken(query: string)
    requires ParseGraphql(query).Some?
    ensures FirstIsMutation(query) <==> Peek(Tokenize(query).value) == Name("mutation")
    ensures Peek(Tokenize(query).value) != Name("subscription")
  {
    var ts := Tokenize(query).value;
    if !PeekValue(ts, "<eof>") && !PeekName(ts, "fragment") { OperationKeyword(ts); }
  }

  /** A document of one operation and no fragments starts with that operation. */
  lemma OnlyDefinition(query: string, op: Operation)
    requires ParseGraphql(query).Some?
    requires ParseGraphql(query).value.operations == [op] && ParseGraphql(query).value.fragments == []
    ensures FirstDefinition(query) == Some(OperationDefinition(op))
  {
    var ts := Tokenize(query).value;
    var start := Definitions([], []);
    assert !PeekValue(ts, "<eof>");
    if PeekName(ts, "fragment") {
      var f := ParseFragment(ts);
      assert PutFragment([], f.node) != [];
      DefinitionsGrow(f.rest, start.(fragments := PutFragment([], f.node)));
    } else {
      var first := ParseOperation(ts);
      DefinitionsGrow(first.rest, start.(operations := [] + [first.node]));
      assert [first.node] <= [op] && [first.node][0] == first.node;
    }
  }

  // ---------------------------------------------------------------- reads change nothing

  /** Root fields change the database in mutations only. */
  ghost predicate ReadsOnly<Db(!new)>(server: E.Server<Db>) {
    forall db, operation, name, args :: operation != "mutation" ==> server.field(db, operation, name, args).0 == db
  }

  lemma {:induction false} SelectionsKeepDb<Db(!new)>(server: E.Server<Db>, db: Db, operation: string, c: E.Context,
                                                      rank: string -> nat, n: nat,
                                                ss: seq<Selection>, data: seq<Json.Field>)
    requires E.Acyclic(c.fragments, rank) && E.AllBelow(c.fragments, rank, ss, n)
    requires ReadsOnly(server) && operation != "mutation"
    ensures E.ExecuteSelections(server, db, operation, c, rank, n, ss, data).db == db
    decreases n, ss, 0
  {
    if ss != [] {
      var first := E.ExecuteSelection(server, db, operation, c, rank, n, ss[0], data);
      SelectionKeepsDb(server, db, operation, c, rank, n, ss[0], data);
      if first.data.Good? { SelectionsKeepDb(server, db, operation, c, rank, n, ss[1..], first.data.value); }
    }
  }

  lemma {:induction false} SelectionKeepsDb<Db(!new)>(server: E.Server<Db>, db: Db, operation: string, c: E.Context,
                                                      rank: string -> nat, n: nat,
                                               s: Selection, data: seq<Json.Field>)
    requires E.Acyclic(c.fragments, rank) && E.SpreadsBelow(c.fragments, rank, s, n)
    requires ReadsOnly(server) && operation != "mutation"
    ensures E.ExecuteSelection(server, db, operation, c, rank, n, s, data).db == db
    decreases n, s, 0
  {
    match s
    case FragmentSpread(name, _) =>
      if name in c.fragments {
        SelectionsKeepDb(server, db, operation, c, rank, rank(name), c.fragments[name].selectionSet, data);
      }
    case InlineFragment(_, _, ss) => SelectionsKeepDb(server, db, operation, c, rank, n, ss, data);
    case Field(_, name, args, _, _) => assert server.field(db, operation, name, args).0 == db;
  }

  /** Executing an operation that is not a mutation leaves the database as it was. */
  lemma QueryChangesNothing<Db(!new)>(server: E.Server<Db>, db: Db, d: Document, operationName: string,
                                      rank: string -> nat, n: nat)
    requires E.DocumentAcyclic(d, rank, n) && ReadsOnly(server)
    requires E.SelectOperation(d, operationName).Good?
        ==> E.SelectOperation(d, operationName).value.operation != "mutation"
    ensures E.ExecuteDocument(server, db, d, operationName, rank, n).db == db
  {
    match E.SelectOperation(d, operationName)
    case Bad(_) =>
    case Good(op) =>
      if operationName != "" { E.FoundOperation(E.OperationsOf(d), operationName); }
      assert op in E.OperationsOf(d);
      var c := E.Context(E.FragmentMap(d.fragments), Some("Query"), None, false);
      SelectionsKeepDb(server, db, op.operation, c, rank, n, op.selectionSet, []);
  }

  // ---------------------------------------------------------------- main results

  /** For every text that parses: the client takes it for a read exactly when it does not start, but
      for white space, with a definition that is a mutation. */
  lemma SafeExactly(query: string)
    requires ParseGraphql(query).Some?
    ensures IsDedupeSafe(query) <==> !StartsPlainly(query) || !FirstIsMutation(query)
    ensures IsDedupeSafe(query) <==> !StartsWithWord(TrimStart(query), "mutation")
  {
    FirstByToken(query);
    var ts := Tokenize(query).value;
    assert Peek(ts) == if Lex(query).value == [] then Eof else Peek(Lex(query).value);
    if StartsPlainly(query) {
      SafeByFirstToken(query);
    } else {
      FirstCharDiffers(TrimStart(query), "mutation");
    }
    NotSubscription(query);
  }

  lemma NotSubscription(query: string)
    requires ParseGraphql(query).Some?
    ensures !StartsWithWord(TrimStart(query), "subscription")
  {
    var s := TrimStart(query);
    FirstByToken(query);
    LexTrimmed(query);
    WordsAreNames();
    if s != "" && IsLetter(s[0]) {
      LetterIsPlain(s[0]);
      FirstToken(s);
      WordIsFirstName(s, "subscription");
    } else if s != "" {
      FirstCharDiffers(s, "subscription");
    }
  }

  lemma LetterIsPlain(c: char)
    requires IsLetter(c)
    ensures !IsSpace(c) && c != ',' && c != '#'
  {
  }

  /** For every text that parses and every operation name, by the operation that is selected.  A
      mutation passes for a read exactly when a comma or a comment stands in front, or the text starts
      with another definition; anything else is taken for a write exactly when the text starts with
      a mutation that is not the one selected. */
  lemma JudgedExactly(query: string, operationName: string)
    requires ParseGraphql(query).Some? && E.SelectOperation(ParseGraphql(query).value, operationName).Good?
    ensures var op := E.SelectOperation(ParseGraphql(query).value, operationName).value;
            && (op.operation == "mutation" ==>
                  (IsDedupeSafe(query) <==> !StartsPlainly(query) || !FirstIsMutation(query)))
            && (op.operation != "mutation" ==>
                  (!IsDedupeSafe(query) <==> StartsPlainly(query) && FirstIsMutation(query)))
            && (FirstDefinition(query) == Some(OperationDefinition(op)) && StartsPlainly(query) ==>
                  (IsDedupeSafe(query) <==> op.operation != "mutation"))
  {
    SafeExactly(query);
  }

  /** For a query text that starts plainly and holds one operation and nothing else: the client takes
      it for a read exactly when it is not a mutation. */
  lemma SafeExactlyForReads(query: string, op: Operation)
    requires StartsPlainly(query) && ParseGraphql(query).Some?
    requires ParseGraphql(query).value.operations == [op] && ParseGraphql(query).value.fragments == []
    ensures IsDedupeSafe(query) <==> op.operation != "mutation"
  {
    OnlyDefinition(query, op);
    SafeExactly(query);
  }

  /** A text that starts plainly, whose mutations are nowhere but in front, and that is taken for a
      read, changes nothing when it is executed, whatever operation of it is named. */
  lemma SafeChangesNothing<Db(!new)>(server: E.Server<Db>, db: Db, query: string, operationName: string,
                                     rank: string -> nat, n: nat)
    requires StartsPlainly(query) && IsDedupeSafe(query) && ParseGraphql(query).Some?
    requires forall op | op in ParseGraphql(query).value.operations ::
      op.operation == "mutation" ==> FirstDefinition(query) == Some(OperationDefinition(op))
    requires E.DocumentAcyclic(ParseGraphql(query).value, rank, n) && ReadsOnly(server)
    ensures E.ExecuteDocument(server, db, ParseGraphql(query).value, operationName, rank, n).db == db
  {
    var d := ParseGraphql(query).value;
    SafeExactly(query);
    if E.SelectOperation(d, operationName).Good? {
      var op := E.SelectOperation(d, operationName).value;
      if operationName != "" { E.FoundOperation(E.OperationsOf(d), operationName); }
      assert op in E.OperationsOf(d);
      if d.operations == [] { assert op.operation == "query"; }
    }
    QueryChangesNothing(server, db, d, operationName, rank, n);
  }

  /** Without that start the client can be wrong: an empty comment in front makes every text pass for
      a read, mutations included, and means nothing to the parser. */
  lemma CommentHidesMutation(query: string)
    ensures IsDedupeSafe("#\n" + query)
    ensures ParseGraphql("#\n" + query) == ParseGraphql(query)
  {
    var s := "#\n" + query;
    assert TrimStart(s) == s;
    FirstCharDiffers(s, "mutation");
    FirstCharDiffers(s, "subscription");
    assert s[1..] == "\n" + query && SkipLine(s[1..]) == s[1..];
    LexSkips(s, s[1..]);
    assert s[1..][1..] == query;
    LexSkips(s[1..], query);
  }

  /** A name in front is a plain start. */
  lemma NamePlain(ts: seq<Token>)
    requires TokensOk(ts) && ts != [] && ts[0].Name?
    ensures StartsPlainly(Render(ts))
  {
    assert TokenOk(ts[0]);
    LetterIsPlain(ts[0].text[0]);
    assert Render(ts)[0] == ts[0].text[0];
  }

  /** So can a fragment in front: the text starts plainly, parses to the mutation, and passes for a
      read. */
  lemma FragmentHidesMutation(f: Fragment, op: Operation)
    requires WfFragment(f) && WfOperation(op) && op.operation == "mutation"
    ensures var text := Render(PrintFragment(f) + PrintOperation(op));
            && ParseGraphql(text) == Some(MakeDocument(Definitions([op], [f])))
            && StartsPlainly(text) && IsDedupeSafe(text)
  {
    var ts := PrintFragment(f) + PrintOperation(op);
    var text := Render(ts);
    PrintFragmentOk(f);
    PrintOperationOk(op);
    assert ts[0] == Name("fragment");
    LexRender(ts);
    NamePlain(ts);
    FragmentThenOperation(f, op);
    SafeExactly(text);
  }

  lemma FragmentThenOperation(f: Fragment, op: Operation)
    requires WfFragment(f) && WfOperation(op)
    ensures ParseDefinitions(PrintFragment(f) + PrintOperation(op) + [Eof], Definitions([], []))
         == Some(Definitions([op], [f]))
  {
    Regroup2(PrintFragment(f), PrintOperation(op), [Eof]);
    FragmentDefinitionRoundTrip(f, PrintOperation(op) + [Eof], Definitions([], []));
    OperationDefinitionRoundTrip(op, [Eof], Definitions([], [] + [f]));
    assert [] + [f] == [f] && [] + [op] == [op];
  }

  /** ... and another operation in front, when the mutation is chosen by name. */
  lemma QueryHidesMutation(d: Document, operationName: string)
    requires WfDocument(d) && d.operations != [] && d.operations[0].operation != "mutation"
    requires E.SelectOperation(d, operationName).Good?
    requires E.SelectOperation(d, operationName).value.operation == "mutation"
    ensures ParseGraphql(PrintGraphql(d)) == Some(d) && StartsPlainly(PrintGraphql(d)) && IsDedupeSafe(PrintGraphql(d))
  {
    var ts := PrintDocument(d);
    ParseUndoesPrint(d);
    PrintOperationsOk(d.operations);
    PrintFragmentsOk(d.fragments);
    assert ts[0] == Name(d.operations[0].operation);
    LexRender(ts);
    NamePlain(ts);
    assert Peek(Tokenize(Render(ts)).value) == ts[0];
    FirstByToken(Render(ts));
    SafeExactly(Render(ts));
  }
}
