/** What stripping does to the tokens of a text: literals, marks, and words, which are the maximal runs
    of other characters. */
module JsoncTokens {
  import opened Sequences
  import opened JsText
  import opened Jsonc
  import Json

  datatype Token = Lit(quote: char, body: string) | Mark(c: char) | Word(text: string)

  predicate IsMark(c: char) {
    c == '{' || c == '}' || c == '[' || c == ']' || c == ':' || c == ','
  }

  predicate InWord(p: Piece) {
    p.Plain? && !IsSpace(p.c) && !IsMark(p.c)
  }

  function Flush(w: string): seq<Token> {
    if w == "" then [] else [Word(w)]
  }

  function Own(p: Piece): seq<Token> {
    match p
    case Literal(quote, body) => [Lit(quote, body)]
    case Plain(c) => if IsMark(c) then [Mark(c)] else []
    case _ => []
  }

  /** The tokens of the pieces, `w` being the part of a word that stands right before them.  White space
      and comments end a word. */
  function TokensAfter(w: string, ps: seq<Piece>): seq<Token>
    decreases |ps|
  {
    if ps == [] then Flush(w)
    else if InWord(ps[0]) then TokensAfter(w + [ps[0].c], ps[1..])
    else Flush(w) + (Own(ps[0]) + TokensAfter("", ps[1..]))
  }

  function Tokens(ps: seq<Piece>): seq<Token> {
    TokensAfter("", ps)
  }

  predicate Closes(ts: seq<Token>) {
    ts != [] && (ts[0] == Mark('}') || ts[0] == Mark(']'))
  }

  /** The commas right before closers dropped. */
  function DropCommas(ts: seq<Token>): seq<Token> {
    if ts == [] then []
    else (if ts[0] == Mark(',') && Closes(ts[1..]) then [] else [ts[0]]) + DropCommas(ts[1..])
  }

  // ---------------------------------------------------------------- pieces and texts

  /** The pieces of a text without comments can be told from the text. */
  lemma {:induction false} TextDeterminesPieces(a: seq<Piece>, b: seq<Piece>)
    requires AllOk(a) && AllOk(b) && (forall p | p in a :: !IsComment(p)) && (forall p | p in b :: !IsComment(p))
    requires Text(a) == Text(b)
    ensures a == b
    decreases |a|
  {
    if a != [] && b != [] {
      assert a[0] in a && b[0] in b;
      PieceSplits(a[0], Text(a[1..]), b[0], Text(b[1..]));
      assert (forall p | p in a[1..] :: p in a) && (forall p | p in b[1..] :: p in b);
      TextDeterminesPieces(a[1..], b[1..]);
      assert a == [a[0]] + a[1..] && b == [b[0]] + b[1..];
    }
  }

  lemma PieceSplits(p: Piece, x: string, q: Piece, y: string)
    requires PieceOk(p) && PieceOk(q) && !IsComment(p) && !IsComment(q)
    requires PieceText(p) + x == PieceText(q) + y
    ensures p == q && x == y
  {
    var l, r := PieceText(p) + x, PieceText(q) + y;
    assert l[0] == PieceText(p)[0] && r[0] == PieceText(q)[0];
    if p.Literal? {
      LiteralShape(p, x);
      LiteralShape(q, y);
      assert l[1..] == p.body + ([p.quote] + x) && r[1..] == q.body + ([q.quote] + y);
      BodySplits(p.body, x, q.body, y, p.quote);
    } else {
      assert l[1..] == x && r[1..] == y;
    }
  }

  lemma BodyFirst(a: string, x: string, quote: char)
    requires IsQuote(quote) && BodyOk(a, quote)
    ensures (a + ([quote] + x))[0] == (if a == "" then quote else a[0]) && (a != "" ==> a[0] != quote)
  {
  }

  lemma HeadsAgree(c: char, x: string, d: char, y: string)
    requires [c] + x == [d] + y
    ensures c == d && x == y
  {
    assert ([c] + x)[0] == c && ([d] + y)[0] == d;
    assert ([c] + x)[1..] == x && ([d] + y)[1..] == y;
  }

  /** A literal ends where it ends. */
  lemma {:induction false} BodySplits(a: string, x: string, b: string, y: string, quote: char)
    requires IsQuote(quote) && BodyOk(a, quote) && BodyOk(b, quote) && a + ([quote] + x) == b + ([quote] + y)
    ensures a == b && x == y
    decreases |a|
  {
    BodyFirst(a, x, quote);
    BodyFirst(b, y, quote);
    if a == "" && b == "" {
      assert "" + ([quote] + x) == [quote] + x && "" + ([quote] + y) == [quote] + y;
      HeadsAgree(quote, x, quote, y);
    } else if a != "" && b != "" {
      Front1(a, [quote] + x);
      Front1(b, [quote] + y);
      HeadsAgree(a[0], a[1..] + ([quote] + x), b[0], b[1..] + ([quote] + y));
      if a[0] == '\\' {
        Front2(a, [quote] + x);
        Front2(b, [quote] + y);
        HeadsAgree(a[0], [a[1]] + (a[2..] + ([quote] + x)), b[0], [b[1]] + (b[2..] + ([quote] + y)));
        HeadsAgree(a[1], a[2..] + ([quote] + x), b[1], b[2..] + ([quote] + y));
        BodySplits(a[2..], x, b[2..], y, quote);
        assert a == [a[0], a[1]] + a[2..] && b == [b[0], b[1]] + b[2..];
      } else {
        BodySplits(a[1..], x, b[1..], y, quote);
        assert a == [a[0]] + a[1..] && b == [b[0]] + b[1..];
      }
    }
  }

  // ---------------------------------------------------------------- commas

  lemma {:induction false} WordComesFirst(w: string, ps: seq<Piece>)
    requires w != ""
    ensures TokensAfter(w, ps) != [] && TokensAfter(w, ps)[0].Word?
    decreases |ps|
  {
    if ps != [] && InWord(ps[0]) { WordComesFirst(w + [ps[0].c], ps[1..]); }
  }

  /** Where no word goes on, the word before ends. */
  lemma NoWordGoesOn(w: string, ps: seq<Piece>)
    requires ps == [] || !InWord(ps[0])
    ensures TokensAfter(w, ps) == Flush(w) + Tokens(ps)
  {
    if ps == [] {
      assert Flush(w) + [] == Flush(w);
    } else {
      assert [] + (Own(ps[0]) + TokensAfter("", ps[1..])) == Own(ps[0]) + TokensAfter("", ps[1..]);
    }
  }

  lemma {:induction false} CloserIsFirst(ps: seq<Piece>)
    requires forall p | p in ps :: !IsComment(p)
    ensures CloserAhead(ps) == Closes(Tokens(ps))
    decreases |ps|
  {
    if ps != [] {
      assert !IsComment(ps[0]);
      assert forall p | p in ps[1..] :: p in ps;
      if InWord(ps[0]) {
        assert "" + [ps[0].c] == [ps[0].c];
        WordComesFirst([ps[0].c], ps[1..]);
      } else {
        NoWordGoesOn("", ps);
        CloserIsFirst(ps[1..]);
        assert [] + (Own(ps[0]) + Tokens(ps[1..])) == Own(ps[0]) + Tokens(ps[1..]);
        assert Own(ps[0]) == [] ==> Own(ps[0]) + Tokens(ps[1..]) == Tokens(ps[1..]);
      }
    }
  }

  lemma DropOne(t: Token, rest: seq<Token>)
    ensures DropCommas([t] + rest) == (if t == Mark(',') && Closes(rest) then [] else [t]) + DropCommas(rest)
  {
    assert ([t] + rest)[1..] == rest;
  }

  lemma DropAfterFlush(w: string, rest: seq<Token>)
    ensures DropCommas(Flush(w) + rest) == Flush(w) + DropCommas(rest)
  {
    if w == "" {
      assert [] + rest == rest && [] + DropCommas(rest) == DropCommas(rest);
    } else {
      DropOne(Word(w), rest);
    }
  }

  lemma DropAfterOwn(p: Piece, rest: seq<Token>)
    ensures DropCommas(Own(p) + rest)
         == (if p == Plain(',') && Closes(rest) then [] else Own(p)) + DropCommas(rest)
  {
    if Own(p) == [] {
      assert [] + rest == rest && [] + DropCommas(rest) == DropCommas(rest);
    } else {
      DropOne(Own(p)[0], rest);
      assert Own(p) == [Own(p)[0]];
    }
  }

  /** Dropping the commas of the pieces drops them from the tokens, and changes no other token. */
  lemma {:induction false} CommasOfTokens(w: string, ps: seq<Piece>)
    requires forall p | p in ps :: !IsComment(p)
    ensures TokensAfter(w, WithoutCommas(ps)) == DropCommas(TokensAfter(w, ps))
    decreases |ps|
  {
    if ps == [] {
      DropAfterFlush(w, []);
      assert Flush(w) + [] == Flush(w);
    } else {
      assert !IsComment(ps[0]);
      assert forall p | p in ps[1..] :: p in ps;
      var rest := WithoutCommas(ps[1..]);
      if InWord(ps[0]) {
        CommasOfTokens(w + [ps[0].c], ps[1..]);
        assert ([ps[0]] + rest)[1..] == rest;
      } else {
        CommasOfTokens("", ps[1..]);
        CloserIsFirst(ps[1..]);
        NoWordGoesOn(w, ps);
        NoWordGoesOn("", ps);
        DropAfterFlush(w, Own(ps[0]) + Tokens(ps[1..]));
        DropAfterOwn(ps[0], Tokens(ps[1..]));
        if ps[0] == Plain(',') && CloserAhead(ps[1..]) {
          CloserStays(ps[1..]);
          NoWordGoesOn(w, rest);
          assert [] + rest == rest && [] + DropCommas(Tokens(ps[1..])) == DropCommas(Tokens(ps[1..]));
        } else {
          assert ([ps[0]] + rest)[1..] == rest;
        }
      }
    }
  }

  lemma CloserStays(ps: seq<Piece>)
    requires CloserAhead(ps)
    ensures WithoutCommas(ps) != [] && !InWord(WithoutCommas(ps)[0])
  {
  }

  // ---------------------------------------------------------------- comments

  const EMPTY_BLOCK := BlockComment("")

  /** A word is cut by empty block comments and nothing else. */
  predicate Glued(ps: seq<Piece>) {
    exists i, j | 0 <= i < |ps| && 0 <= j < |ps| :: GluedAt(ps, i, j)
  }

  predicate GluedAt(ps: seq<Piece>, i: nat, j: nat)
    requires i < |ps| && j < |ps|
  {
    i + 1 < j && InWord(ps[i]) && InWord(ps[j]) && AllEmpty(ps[i + 1..j])
  }

  predicate AllEmpty(ps: seq<Piece>) {
    forall p | p in ps :: p == EMPTY_BLOCK
  }

  /** After some empty blocks, or none, a word goes on. */
  predicate WordAhead(ps: seq<Piece>) {
    ps != [] && (InWord(ps[0]) || (ps[0] == EMPTY_BLOCK && WordAhead(ps[1..])))
  }

  /** The same as `Glued`, from left to right; `inside` says that a word stands right before `ps`. */
  predicate Melts(inside: bool, ps: seq<Piece>)
    decreases |ps|
  {
    ps != []
    && if InWord(ps[0]) then Melts(true, ps[1..])
       else (inside && ps[0] == EMPTY_BLOCK && WordAhead(ps[1..])) || Melts(false, ps[1..])
  }

  function Words(ts: seq<Token>): nat {
    if ts == [] then 0 else (if ts[0].Word? then 1 else 0) + Words(ts[1..])
  }

  lemma {:induction false} WordsConcat(a: seq<Token>, b: seq<Token>)
    ensures Words(a + b) == Words(a) + Words(b)
  {
    if a == [] {
      assert a + b == b;
    } else {
      assert (a + b)[1..] == a[1..] + b;
      WordsConcat(a[1..], b);
    }
  }

  lemma FlushWords(w: string)
    ensures Words(Flush(w)) == if w == "" then 0 else 1
  {
    if w != "" { assert [Word(w)][1..] == []; }
  }

  /** How a word began does not matter for the number of words. */
  lemma {:induction false} SameWords(v: string, w: string, ps: seq<Piece>)
    requires v != "" && w != ""
    ensures Words(TokensAfter(v, ps)) == Words(TokensAfter(w, ps))
    decreases |ps|
  {
    FlushWords(v);
    FlushWords(w);
    if ps != [] {
      if InWord(ps[0]) {
        SameWords(v + [ps[0].c], w + [ps[0].c], ps[1..]);
      } else {
        WordsConcat(Flush(v), Own(ps[0]) + TokensAfter("", ps[1..]));
        WordsConcat(Flush(w), Own(ps[0]) + TokensAfter("", ps[1..]));
      }
    }
  }

  /** The tokens once comments are blanks. */
  function Stripped1(w: string, ps: seq<Piece>): seq<Token> {
    TokensAfter(w, WithoutComments(ps))
  }

  lemma {:induction false} BlanksEndWord(w: string, body: string, rest: seq<Piece>)
    requires body != ""
    ensures TokensAfter(w, Blanks(body) + rest) == Flush(w) + Tokens(rest)
    decreases |body|
  {
    var first := Blanks(body)[0];
    assert first == Plain(' ') || first == Plain('\n');
    assert Blanks(body) + rest == [first] + (Blanks(body[1..]) + rest);
    assert ([first] + (Blanks(body[1..]) + rest))[1..] == Blanks(body[1..]) + rest;
    assert Own(first) == [];
    if body[1..] == "" {
      assert Blanks(body[1..]) + rest == rest;
    } else {
      BlanksEndWord("", body[1..], rest);
      assert Flush("") + Tokens(rest) == Tokens(rest);
    }
    assert [] + Tokens(rest) == Tokens(rest);
  }

  /** One piece, its comment turned into blanks: a word goes on, or ends, or goes on over an empty
      block. */
  lemma StrippedStep(w: string, ps: seq<Piece>)
    requires ps != []
    ensures Stripped1(w, ps)
         == if InWord(ps[0]) then Stripped1(w + [ps[0].c], ps[1..])
            else if ps[0] == EMPTY_BLOCK then Stripped1(w, ps[1..])
            else Flush(w) + (Own(ps[0]) + Stripped1("", ps[1..]))
  {
    var p, rest := ps[0], WithoutComments(ps[1..]);
    assert Flush(w) + ([] + Stripped1("", ps[1..])) == Flush(w) + Stripped1("", ps[1..]);
    match p
    case LineComment(_) =>
      assert ([Plain('\n')] + rest)[1..] == rest && Own(Plain('\n')) == [];
    case BlockComment(body) =>
      if body == "" { assert [] + rest == rest; } else { BlanksEndWord(w, body, rest); }
    case _ => assert ([p] + rest)[1..] == rest;
  }

  /** Whether a word goes on over the blocks in front decides what becomes of it. */
  lemma {:induction false} WordBefore(w: string, ps: seq<Piece>)
    requires w != ""
    ensures if WordAhead(ps) then Words(Stripped1(w, ps)) == Words(Stripped1("", ps))
            else Stripped1(w, ps) == Flush(w) + Stripped1("", ps)
    decreases |ps|
  {
    if ps == [] {
      assert Flush(w) + [] == Flush(w);
    } else {
      StrippedStep(w, ps);
      StrippedStep("", ps);
      if InWord(ps[0]) {
        assert "" + [ps[0].c] == [ps[0].c];
        SameWords(w + [ps[0].c], [ps[0].c], WithoutComments(ps[1..]));
      } else if ps[0] == EMPTY_BLOCK {
        WordBefore(w, ps[1..]);
      } else {
        assert [] + (Own(ps[0]) + Stripped1("", ps[1..])) == Own(ps[0]) + Stripped1("", ps[1..]);
      }
    }
  }

  /** Turning comments into blanks keeps the tokens exactly when no word melts with the next, and
      otherwise leaves fewer words. */
  lemma {:induction false} CommentsOfTokens(w: string, ps: seq<Piece>)
    ensures if Melts(w != "", ps) then Words(Stripped1(w, ps)) < Words(TokensAfter(w, ps))
            else Stripped1(w, ps) == TokensAfter(w, ps)
    decreases |ps|
  {
    if ps != [] {
      StrippedStep(w, ps);
      if InWord(ps[0]) {
        CommentsOfTokens(w + [ps[0].c], ps[1..]);
      } else {
        CommentsOfTokens("", ps[1..]);
        OtherPiece(w, ps);
      }
    }
  }

  lemma OtherPiece(w: string, ps: seq<Piece>)
    requires ps != [] && !InWord(ps[0])
    requires if Melts(false, ps[1..]) then Words(Stripped1("", ps[1..])) < Words(Tokens(ps[1..]))
             else Stripped1("", ps[1..]) == Tokens(ps[1..])
    ensures if Melts(w != "", ps) then Words(Stripped1(w, ps)) < Words(TokensAfter(w, ps))
            else Stripped1(w, ps) == TokensAfter(w, ps)
  {
    var own, src, out := Own(ps[0]), Tokens(ps[1..]), Stripped1("", ps[1..]);
    StrippedStep(w, ps);
    FlushWords(w);
    WordsConcat(own, src);
    WordsConcat(own, out);
    WordsConcat(Flush(w), own + src);
    WordsConcat(Flush(w), own + out);
    WordsConcat(Flush(w), out);
    if ps[0] == EMPTY_BLOCK {
      assert own == [] && [] + src == src;
      if w == "" {
        assert [] + src == src;
      } else {
        WordBefore(w, ps[1..]);
      }
    }
  }

  /** Left to right or all at once. */
  lemma {:induction false} MeltsIsGlued(inside: bool, ps: seq<Piece>)
    ensures Melts(inside, ps) <==> Glued(ps) || (inside && ps != [] && ps[0] == EMPTY_BLOCK && WordAhead(ps))
    decreases |ps|
  {
    if ps != [] {
      MeltsIsGlued(InWord(ps[0]), ps[1..]);
      GluedStep(ps);
    }
  }

  lemma {:induction false} WordAheadExactly(ps: seq<Piece>)
    ensures WordAhead(ps) <==> exists j | 0 <= j < |ps| :: InWord(ps[j]) && AllEmpty(ps[..j])
    decreases |ps|
  {
    if ps != [] {
      WordAheadExactly(ps[1..]);
      if WordAhead(ps) {
        if InWord(ps[0]) {
          assert AllEmpty(ps[..0]);
        } else {
          var j :| 0 <= j < |ps[1..]| && InWord(ps[1..][j]) && AllEmpty(ps[1..][..j]);
          assert ps[..j + 1] == [ps[0]] + ps[1..][..j];
          assert InWord(ps[j + 1]) && AllEmpty(ps[..j + 1]);
        }
      }
      if j :| 0 <= j < |ps| && InWord(ps[j]) && AllEmpty(ps[..j]) {
        if j > 0 {
          assert ps[..j][0] == ps[0] && ps[..j][0] in ps[..j];
          assert ps[1..][..j - 1] == ps[..j][1..] && InWord(ps[1..][j - 1]);
          assert forall p | p in ps[..j][1..] :: p in ps[..j];
        }
      }
    }
  }

  lemma GluedTail(ps: seq<Piece>, i: nat, j: nat)
    requires 0 < i < |ps| && 0 < j < |ps|
    ensures GluedAt(ps, i, j) <==> GluedAt(ps[1..], i - 1, j - 1)
  {
    if i + 1 < j { assert ps[1..][i..j - 1] == ps[i + 1..j]; }
  }

  lemma GluedHead(ps: seq<Piece>, j: nat)
    requires ps != [] && 0 < j < |ps|
    ensures GluedAt(ps, 0, j) <==> j > 1 && InWord(ps[0]) && InWord(ps[1..][j - 1]) && AllEmpty(ps[1..][..j - 1])
  {
    if j > 1 { assert ps[1..][..j - 1] == ps[1..j]; }
  }

  lemma GluedStep(ps: seq<Piece>)
    requires ps != []
    ensures Glued(ps)
       <==> Glued(ps[1..]) || (InWord(ps[0]) && ps[1..] != [] && ps[1] == EMPTY_BLOCK && WordAhead(ps[1..]))
  {
    if Glued(ps) {
      var i, j :| 0 <= i < |ps| && 0 <= j < |ps| && GluedAt(ps, i, j);
      if i > 0 { GluedTail(ps, i, j); } else { HeadGlued(ps, j); }
    }
    if Glued(ps[1..]) {
      var i, j :| 0 <= i < |ps[1..]| && 0 <= j < |ps[1..]| && GluedAt(ps[1..], i, j);
      GluedTail(ps, i + 1, j + 1);
    }
    if InWord(ps[0]) && ps[1..] != [] && ps[1] == EMPTY_BLOCK && WordAhead(ps[1..]) {
      WordAheadExactly(ps[1..]);
      var j :| 0 <= j < |ps[1..]| && InWord(ps[1..][j]) && AllEmpty(ps[1..][..j]);
      GluedHead(ps, j + 1);
    }
  }

  lemma HeadGlued(ps: seq<Piece>, j: nat)
    requires ps != [] && j < |ps| && GluedAt(ps, 0, j)
    ensures InWord(ps[0]) && ps[1..] != [] && ps[1] == EMPTY_BLOCK && WordAhead(ps[1..])
  {
    GluedHead(ps, j);
    WordAheadExactly(ps[1..]);
    assert ps[1..][..j - 1][0] == ps[1] && ps[1] in ps[1..][..j - 1];
  }

  // ---------------------------------------------------------------- main results

  lemma {:induction false} DropKeepsWords(ts: seq<Token>)
    ensures Words(DropCommas(ts)) == Words(ts)
  {
    if ts != [] {
      DropKeepsWords(ts[1..]);
      if ts[0] == Mark(',') && Closes(ts[1..]) {
        assert [] + DropCommas(ts[1..]) == DropCommas(ts[1..]);
      } else {
        WordsConcat([ts[0]], DropCommas(ts[1..]));
        assert [ts[0]][1..] == [];
      }
    }
  }

  /** For every text of literals, other characters and comments: the output has the tokens of the
      source, less the commas before closers, exactly when no word is cut by empty block comments
      alone. */
  lemma TokensKeptExactly(ps: seq<Piece>, bom: bool)
    requires AllOk(ps) && (bom || ps == [] || ps[0] != Plain('\U{FEFF}'))
    ensures var out := WithoutCommas(WithoutComments(ps));
            && Stripped((if bom then ['\U{FEFF}'] else "") + Text(ps)) == Text(out)
            && (Tokens(out) == DropCommas(Tokens(ps)) <==> !Glued(ps))
  {
    StrippedKeepsJson(ps, bom);
    CommentsGo(ps);
    CommasOfTokens("", WithoutComments(ps));
    CommentsOfTokens("", ps);
    MeltsIsGlued(false, ps);
    DropKeepsWords(Tokens(ps));
    DropKeepsWords(Stripped1("", ps));
  }

  predicate WordsApart(ts: seq<Token>) {
    forall i | 0 <= i < |ts| - 1 :: !(ts[i].Word? && ts[i + 1].Word?)
  }

  lemma {:induction false} AheadIsWord(ps: seq<Piece>)
    requires WordAhead(ps)
    ensures Tokens(ps) != [] && Tokens(ps)[0].Word?
    decreases |ps|
  {
    if InWord(ps[0]) {
      assert "" + [ps[0].c] == [ps[0].c];
      WordComesFirst([ps[0].c], ps[1..]);
    } else {
      AheadIsWord(ps[1..]);
      assert Flush("") + (Own(ps[0]) + Tokens(ps[1..])) == Tokens(ps[1..]);
    }
  }

  lemma ApartTail(a: seq<Token>, b: seq<Token>)
    requires WordsApart(a + b)
    ensures WordsApart(b)
  {
    forall i | 0 <= i < |b| - 1 ensures !(b[i].Word? && b[i + 1].Word?) {
      assert (a + b)[|a| + i] == b[i] && (a + b)[|a| + i + 1] == b[i + 1];
    }
  }

  lemma WordThenWord(w: string, ps: seq<Piece>)
    requires w != "" && ps != [] && ps[0] == EMPTY_BLOCK && WordAhead(ps[1..])
    ensures !WordsApart(TokensAfter(w, ps))
  {
    AheadIsWord(ps[1..]);
    var ts := TokensAfter(w, ps);
    assert ts == [Word(w)] + ([] + Tokens(ps[1..]));
    assert ts[0].Word? && ts[1].Word?;
  }

  lemma {:induction false} ApartNeverMelts(w: string, ps: seq<Piece>)
    requires WordsApart(TokensAfter(w, ps))
    ensures !Melts(w != "", ps)
    decreases |ps|
  {
    if ps != [] {
      if InWord(ps[0]) {
        ApartNeverMelts(w + [ps[0].c], ps[1..]);
      } else {
        var rest := Tokens(ps[1..]);
        ApartTail(Flush(w), Own(ps[0]) + rest);
        ApartTail(Own(ps[0]), rest);
        ApartNeverMelts("", ps[1..]);
        if w != "" && ps[0] == EMPTY_BLOCK && WordAhead(ps[1..]) { WordThenWord(w, ps); }
      }
    }
  }

  /** The tokens of a JSON value.  A string here is the body of its literal, in whatever way it is spelt, so
      that a quote in it is two characters. */
  function JsonTokens(v: Json.Value): seq<Token>
    decreases v
  {
    match v
    case Str(t) => [Lit('"', t)]
    case Num(text) => [Word(text)]
    case Bool(b) => [Word(if b then "true" else "false")]
    case Arr(items) => [Mark('[')] + (ItemTokens(items) + [Mark(']')])
    case Obj(fields) => [Mark('{')] + (FieldTokens(fields) + [Mark('}')])
    case _ => [Word("null")]
  }

  function ItemTokens(items: seq<Json.Value>): seq<Token>
    decreases items
  {
    if items == [] then []
    else if |items| == 1 then JsonTokens(items[0])
    else JsonTokens(items[0]) + ([Mark(',')] + ItemTokens(items[1..]))
  }

  function FieldTokens(fields: seq<Json.Field>): seq<Token>
    decreases fields
  {
    if fields == [] then []
    else
      var first := [Lit('"', fields[0].key), Mark(':')] + JsonTokens(fields[0].val);
      if |fields| == 1 then first else first + ([Mark(',')] + FieldTokens(fields[1..]))
  }

  /** Two runs of tokens with a mark or a literal in between. */
  lemma ApartJoin(a: seq<Token>, t: Token, b: seq<Token>)
    requires WordsApart(a) && WordsApart(b) && !t.Word?
    ensures WordsApart(a + ([t] + b))
  {
    var c := a + ([t] + b);
    forall i | 0 <= i < |c| - 1 ensures !(c[i].Word? && c[i + 1].Word?) {
      if i < |a| - 1 {
        assert c[i] == a[i] && c[i + 1] == a[i + 1];
      } else if i > |a| {
        assert c[i] == b[i - |a| - 1] && c[i + 1] == b[i - |a|];
      }
    }
  }

  lemma {:induction false} JsonWordsApart(v: Json.Value)
    ensures WordsApart(JsonTokens(v))
    decreases v
  {
    match v
    case Arr(items) =>
      ItemsApart(items);
      ApartJoin(ItemTokens(items), Mark(']'), []);
      ApartJoin([], Mark('['), ItemTokens(items) + [Mark(']')]);
      assert [] + ([Mark('[')] + (ItemTokens(items) + [Mark(']')])) == JsonTokens(v);
      assert [Mark(']')] + [] == [Mark(']')];
    case Obj(fields) =>
      FieldsApart(fields);
      ApartJoin(FieldTokens(fields), Mark('}'), []);
      ApartJoin([], Mark('{'), FieldTokens(fields) + [Mark('}')]);
      assert [] + ([Mark('{')] + (FieldTokens(fields) + [Mark('}')])) == JsonTokens(v);
      assert [Mark('}')] + [] == [Mark('}')];
    case _ =>
  }

  lemma {:induction false} ItemsApart(items: seq<Json.Value>)
    ensures WordsApart(ItemTokens(items))
    decreases items
  {
    if items != [] {
      JsonWordsApart(items[0]);
      if |items| > 1 {
        ItemsApart(items[1..]);
        ApartJoin(JsonTokens(items[0]), Mark(','), ItemTokens(items[1..]));
      }
    }
  }

  lemma {:induction false} FieldsApart(fields: seq<Json.Field>)
    ensures WordsApart(FieldTokens(fields))
    decreases fields
  {
    if fields != [] {
      JsonWordsApart(fields[0].val);
      ApartJoin([Lit('"', fields[0].key)], Mark(':'), JsonTokens(fields[0].val));
      var first := [Lit('"', fields[0].key), Mark(':')] + JsonTokens(fields[0].val);
      assert [Lit('"', fields[0].key)] + ([Mark(':')] + JsonTokens(fields[0].val)) == first;
      if |fields| > 1 {
        FieldsApart(fields[1..]);
        ApartJoin(first, Mark(','), FieldTokens(fields[1..]));
      }
    }
  }

  lemma AdjacentStay(ts: seq<Token>)
    requires |ts| > 1 && ts[0].Word? && ts[1].Word?
    ensures !WordsApart(DropCommas(ts))
  {
    var d := DropCommas(ts);
    assert DropCommas(ts[1..]) == [ts[1]] + DropCommas(ts[1..][1..]);
    assert d[0] == ts[0] && d[1] == ts[1];
  }

  lemma {:induction false} DropApart(ts: seq<Token>)
    requires WordsApart(DropCommas(ts))
    ensures WordsApart(ts)
    decreases |ts|
  {
    if ts != [] {
      var rest := DropCommas(ts[1..]);
      ApartTail(if ts[0] == Mark(',') && Closes(ts[1..]) then [] else [ts[0]], rest);
      DropApart(ts[1..]);
      if |ts| > 1 && ts[0].Word? && ts[1].Word? { AdjacentStay(ts); }
      forall i | 0 <= i < |ts| - 1 ensures !(ts[i].Word? && ts[i + 1].Word?) {
        if i > 0 { assert ts[1..][i - 1] == ts[i] && ts[1..][i] == ts[i + 1]; }
      }
    }
  }

  /** For every JSON value, however its strings are spelt, and white space and comments, empty ones
      included, stand between its tokens, and whatever commas stand before its closers: the output has
      exactly its tokens. */
  lemma JsonKeepsItsTokens(v: Json.Value, ps: seq<Piece>, bom: bool)
    requires AllOk(ps) && (bom || ps == [] || ps[0] != Plain('\U{FEFF}'))
    requires DropCommas(Tokens(ps)) == JsonTokens(v)
    ensures var out := WithoutCommas(WithoutComments(ps));
            && Stripped((if bom then ['\U{FEFF}'] else "") + Text(ps)) == Text(out)
            && Tokens(out) == JsonTokens(v)
  {
    JsonWordsApart(v);
    DropApart(Tokens(ps));
    ApartNeverMelts("", ps);
    MeltsIsGlued(false, ps);
    TokensKeptExactly(ps, bom);
  }
}
