/** JSON with comments to JSON: `stripComments`, `stripTrailingCommas`, `stripJsonc`. */
module Jsonc {
  import opened Sequences
  import opened JsText

  /** Where the scan is: outside a string, or in one opened by `quote`, after a backslash or not. */
  datatype Mode = Outside | InString(quote: char, escaping: bool)

  predicate IsQuote(c: char) {
    c == '"' || c == '\''
  }

  function AfterStringChar(m: Mode, c: char): Mode
    requires m.InString?
  {
    if m.escaping then InString(m.quote, false)
    else if c == '\\' then InString(m.quote, true)
    else if c == m.quote then Outside
    else m
  }

  predicate Starts(s: string, c: char, d: char) {
    |s| >= 2 && s[0] == c && s[1] == d
  }

  // ---------------------------------------------------------------- comments

  /** What is left after a line comment, its line feed included. */
  function AfterLine(s: string): (rest: string)
    ensures |rest| <= |s|
  {
    if s == "" then "" else if s[0] == '\n' then s[1..] else AfterLine(s[1..])
  }

  /** The body of a block comment as blanks, and what is left after its end. */
  function Block(s: string): (r: (string, string))
    ensures |r.1| <= |s|
  {
    if s == "" then ("", "")
    else if Starts(s, '*', '/') then ("", s[2..])
    else
      var (blanks, rest) := Block(s[1..]);
      ([if s[0] == '\n' then '\n' else ' '] + blanks, rest)
  }

  function ModeAfter(m: Mode, c: char): Mode {
    if m.InString? then AfterStringChar(m, c) else if IsQuote(c) then InString(c, false) else Outside
  }

  predicate CommentStarts(s: string, m: Mode) {
    m.Outside? && (Starts(s, '/', '/') || Starts(s, '/', '*'))
  }

  /** The comment at the start of `s`: what stands for it in the output, and what follows it. */
  function Comment(s: string): (r: (string, string))
    requires CommentStarts(s, Outside)
    ensures |r.1| < |s|
  {
    if s[1] == '/' then ("\n", AfterLine(s[1..])) else Block(s[2..])
  }

  function Uncommented(s: string, m: Mode): string
    decreases |s|
  {
    if s == "" then ""
    else if CommentStarts(s, m) then Comment(s).0 + Uncommented(Comment(s).1, Outside)
    else [s[0]] + Uncommented(s[1..], ModeAfter(m, s[0]))
  }

  // ---------------------------------------------------------------- trailing commas

  /** The next character that is not white space closes an object or an array. */
  predicate CloserNext(s: string) {
    s != "" && (s[0] == '}' || s[0] == ']' || (IsSpace(s[0]) && CloserNext(s[1..])))
  }

  function Untrailed(s: string, m: Mode): string {
    if s == "" then ""
    else if m.Outside? && s[0] == ',' && CloserNext(s[1..]) then Untrailed(s[1..], Outside)
    else [s[0]] + Untrailed(s[1..], ModeAfter(m, s[0]))
  }

  function Stripped(text: string): string {
    var withoutBom := if text != "" && text[0] == '\U{FEFF}' then text[1..] else text;
    Untrailed(Uncommented(withoutBom, Outside), Outside)
  }

  // ---------------------------------------------------------------- the loops

  function ModeOf(inString: bool, quote: char, escaping: bool): Mode {
    if inString then InString(quote, escaping) else Outside
  }

  /** The inner loop of a line comment: the index of the line feed, or of the end. */
  method FindLineEnd(text: string, start: nat) returns (index: nat)
    requires start <= |text|
    ensures start <= index <= |text|
    ensures AfterLine(text[start..]) == if index < |text| then text[index + 1..] else ""
  {
    index := start;
    while index < |text| && text[index] != '\n'
      invariant start <= index <= |text| && AfterLine(text[index..]) == AfterLine(text[start..])
    {
      assert text[index..][1..] == text[index + 1..];
      index := index + 1;
    }
    if index < |text| { assert text[index..][1..] == text[index + 1..]; }
  }

  /** The inner loop of a block comment: its blanks, and the index of its end, or of the end. */
  method BlankBlock(text: string, start: nat) returns (blanks: string, index: nat)
    requires start <= |text|
    ensures start <= index <= |text|
    ensures Block(text[start..]) == (blanks, if index + 2 <= |text| then text[index + 2..] else "")
  {
    blanks, index := "", start;
    assert "" + Block(text[start..]).0 == Block(text[start..]).0;
    while index < |text| && !(text[index] == '*' && index + 1 < |text| && text[index + 1] == '/')
      invariant start <= index <= |text|
      invariant blanks + Block(text[index..]).0 == Block(text[start..]).0
      invariant Block(text[index..]).1 == Block(text[start..]).1
    {
      assert text[index..][1..] == text[index + 1..];
      var blank := [if text[index] == '\n' then '\n' else ' '];
      Regroup(blanks, blank, Block(text[index + 1..]).0);
      blanks := blanks + blank;
      index := index + 1;
    }
    assert blanks + "" == blanks;
    if index < |text| { assert text[index..][2..] == text[index + 2..]; }
  }

  method StripComments(text: string) returns (output: string)
    ensures output == Uncommented(text, Outside)
  {
    output := "";
    var inString, quote, escaping := false, ' ', false;
    var index := 0;
    while index < |text|
      invariant 0 <= index <= |text|
      invariant escaping ==> inString
      invariant output + Uncommented(text[index..], ModeOf(inString, quote, escaping)) == Uncommented(text, Outside)
    {
      var c := text[index];
      var piece := [c];
      ghost var s, m := text[index..], ModeOf(inString, quote, escaping);
      assert s[0] == c && s[1..] == text[index + 1..];
      if inString {
        if escaping {
          escaping := false;
        } else if c == '\\' {
          escaping := true;
        } else if c == quote {
          inString := false;
        }
        index := index + 1;
      } else if c == '"' || c == '\'' {
        inString := true;
        quote := c;
        index := index + 1;
      } else if c == '/' && index + 1 < |text| && text[index + 1] == '/' {
        var end := FindLineEnd(text, index);
        piece := "\n";
        index := if end < |text| then end + 1 else |text|;
      } else if c == '/' && index + 1 < |text| && text[index + 1] == '*' {
        assert text[index + 2..] == s[2..];
        var end;
        piece, end := BlankBlock(text, index + 2);
        index := if end + 2 <= |text| then end + 2 else |text|;
      } else {
        index := index + 1;
      }
      assert Uncommented(s, m) == piece + Uncommented(text[index..], ModeOf(inString, quote, escaping));
      Regroup(output, piece, Uncommented(text[index..], ModeOf(inString, quote, escaping)));
      output := output + piece;
    }
    assert text[index..] == "" && output + "" == output;
  }

  /** The look-ahead after a comma. */
  method CloserFollows(text: string, start: nat) returns (b: bool)
    requires start <= |text|
    ensures b == CloserNext(text[start..])
  {
    var cursor := start;
    while cursor < |text| && IsSpace(text[cursor])
      invariant start <= cursor <= |text| && CloserNext(text[cursor..]) == CloserNext(text[start..])
    {
      assert text[cursor..][1..] == text[cursor + 1..];
      cursor := cursor + 1;
    }
    b := cursor < |text| && (text[cursor] == '}' || text[cursor] == ']');
  }

  method StripTrailingCommas(text: string) returns (output: string)
    ensures output == Untrailed(text, Outside)
  {
    output := "";
    var inString, quote, escaping := false, ' ', false;
    for index := 0 to |text|
      invariant escaping ==> inString
      invariant output + Untrailed(text[index..], ModeOf(inString, quote, escaping)) == Untrailed(text, Outside)
    {
      var c := text[index];
      var piece := [c];
      ghost var s, m := text[index..], ModeOf(inString, quote, escaping);
      assert s[0] == c && s[1..] == text[index + 1..];
      if inString {
        if escaping {
          escaping := false;
        } else if c == '\\' {
          escaping := true;
        } else if c == quote {
          inString := false;
        }
      } else if c == '"' || c == '\'' {
        inString := true;
        quote := c;
      } else if c == ',' {
        var closer := CloserFollows(text, index + 1);
        if closer {
          piece := "";
        }
      }
      ghost var rest := Untrailed(text[index + 1..], ModeOf(inString, quote, escaping));
      assert "" + rest == rest;
      assert Untrailed(s, m) == piece + rest;
      Regroup(output, piece, rest);
      output := output + piece;
    }
    assert text[|text|..] == "" && output + "" == output;
  }

  method StripJsonc(text: string) returns (output: string)
    ensures output == Stripped(text)
  {
    var withoutBom := if text != "" && text[0] == '\U{FEFF}' then text[1..] else text;
    var uncommented := StripComments(withoutBom);
    output := StripTrailingCommas(uncommented);
  }

  // ---------------------------------------------------------------- stripping comments is idempotent

  predicate IsBlank(c: char) {
    c == ' ' || c == '\n'
  }

  lemma {:induction false} BlanksStay(blanks: string, rest: string)
    requires forall c | c in blanks :: IsBlank(c)
    ensures Uncommented(blanks + rest, Outside) == blanks + Uncommented(rest, Outside)
  {
    if blanks == "" {
      assert blanks + rest == rest;
    } else {
      var s := blanks + rest;
      assert s[0] == blanks[0] && IsBlank(blanks[0]) && s[1..] == blanks[1..] + rest;
      BlanksStay(blanks[1..], rest);
    }
  }

  lemma {:induction false} BlockIsBlank(s: string)
    ensures forall c | c in Block(s).0 :: IsBlank(c)
  {
    if s != "" && !Starts(s, '*', '/') { BlockIsBlank(s[1..]); }
  }

  /** For every text, comments included, unterminated or not. */
  lemma {:induction false} UncommentedTwice(s: string, m: Mode)
    ensures Uncommented(Uncommented(s, m), m) == Uncommented(s, m)
    decreases |s|
  {
    if s != "" {
      var c := s[0];
      if m.InString? {
        KeptFirst(c, s[1..], AfterStringChar(m, c));
      } else if IsQuote(c) {
        KeptFirst(c, s[1..], InString(c, false));
      } else if Starts(s, '/', '/') {
        UncommentedTwice(AfterLine(s), Outside);
        assert ("\n" + Uncommented(AfterLine(s), Outside))[1..] == Uncommented(AfterLine(s), Outside);
      } else if Starts(s, '/', '*') {
        BlockIsBlank(s[2..]);
        UncommentedTwice(Block(s[2..]).1, Outside);
        BlanksStay(Block(s[2..]).0, Uncommented(Block(s[2..]).1, Outside));
      } else {
        KeptFirst(c, s[1..], Outside);
        if c == '/' && s[1..] != "" {
          // The character after a kept '/' opens no comment with it, and is itself kept.
          assert !Starts(s, '/', '/') && !Starts(s, '/', '*');
          assert s[1..][0] == s[1];
          assert Uncommented(s[1..], Outside)[0] == s[1];
        }
      }
    }
  }

  lemma {:induction false} KeptFirst(c: char, rest: string, m: Mode)
    ensures ([c] + Uncommented(rest, m))[0] == c && ([c] + Uncommented(rest, m))[1..] == Uncommented(rest, m)
    ensures Uncommented(Uncommented(rest, m), m) == Uncommented(rest, m)
    decreases |rest| + 1, 1
  {
    UncommentedTwice(rest, m);
  }

  // ---------------------------------------------------------------- every kept character stays on its line

  function Lines(s: string): nat {
    if s == "" then 0 else (if s[0] == '\n' then 1 else 0) + Lines(s[1..])
  }

  /** The characters outside comments, each with the line of the source it stands on. */
  function Source(s: string, m: Mode, line: nat): seq<(char, nat)>
    decreases |s|
  {
    if s == "" then []
    else if CommentStarts(s, m) then
      Source(Comment(s).1, Outside, line + Lines(s[..|s| - |Comment(s).1|]))
    else [(s[0], line)] + Source(s[1..], ModeAfter(m, s[0]), line + Lines([s[0]]))
  }

  /** Which characters of the output come from outside comments. */
  function Mask(s: string, m: Mode): seq<bool>
    decreases |s|
  {
    if s == "" then []
    else if CommentStarts(s, m) then Unkept(|Comment(s).0|) + Mask(Comment(s).1, Outside)
    else [true] + Mask(s[1..], ModeAfter(m, s[0]))
  }

  function Unkept(n: nat): seq<bool> {
    if n == 0 then [] else [false] + Unkept(n - 1)
  }

  /** The characters of `out` picked by `mask`, each with its line in `out`. */
  function Picked(out: string, mask: seq<bool>, line: nat): seq<(char, nat)> {
    if out == "" || mask == [] then []
    else (if mask[0] then [(out[0], line)] else []) + Picked(out[1..], mask[1..], line + Lines([out[0]]))
  }

  lemma {:induction false} LinesConcat(a: string, b: string)
    ensures Lines(a + b) == Lines(a) + Lines(b)
  {
    if a == "" {
      assert a + b == b;
    } else {
      assert (a + b)[1..] == a[1..] + b;
      LinesConcat(a[1..], b);
    }
  }

  lemma {:induction false} BlockLines(s: string)
    ensures Lines(Block(s).0) == Lines(s[..|s| - |Block(s).1|])
  {
    var k := |s| - |Block(s).1|;
    if s == "" {
    } else if Starts(s, '*', '/') {
      assert s[..k] == "*/";
      assert "*/"[1..] == "/" && "/"[1..] == "";
    } else {
      BlockLines(s[1..]);
      assert s[..k][0] == s[0] && s[..k][1..] == s[1..][..k - 1];
      var blank := [if s[0] == '\n' then '\n' else ' '];
      LinesConcat(blank, Block(s[1..]).0);
      assert blank[1..] == "";
    }
  }

  lemma {:induction false} LineLines(s: string)
    ensures AfterLine(s) != "" ==> Lines(s[..|s| - |AfterLine(s)|]) == 1
  {
    if s != "" && AfterLine(s) != "" {
      var k := |s| - |AfterLine(s)|;
      if s[0] == '\n' {
        assert s[..k] == "\n" && "\n"[1..] == "";
      } else {
        LineLines(s[1..]);
        assert s[..k][0] == s[0] && s[..k][1..] == s[1..][..k - 1];
      }
    }
  }

  lemma {:induction false} PickNone(blanks: string, out: string, mask: seq<bool>, line: nat)
    ensures |Unkept(|blanks|) + mask| == |blanks| + |mask|
    ensures Picked(blanks + out, Unkept(|blanks|) + mask, line) == Picked(out, mask, line + Lines(blanks))
  {
    var none := Unkept(|blanks|);
    if blanks == "" {
      assert blanks + out == out && none + mask == mask;
    } else {
      var b := blanks[0];
      PickNone(blanks[1..], out, mask, line + Lines([b]));
      PickSkip(b, blanks[1..] + out, Unkept(|blanks[1..]|) + mask, line);
      Front1(blanks, out);
      Regroup([false], Unkept(|blanks[1..]|), mask);
      assert [b][1..] == "";
    }
  }

  lemma PickSkip(c: char, out: string, mask: seq<bool>, line: nat)
    ensures Picked([c] + out, [false] + mask, line) == Picked(out, mask, line + Lines([c]))
  {
    assert ([c] + out)[1..] == out && ([false] + mask)[1..] == mask;
    assert [] + Picked(out, mask, line + Lines([c])) == Picked(out, mask, line + Lines([c]));
  }

  lemma PickOne(c: char, out: string, mask: seq<bool>, line: nat)
    ensures Picked([c] + out, [true] + mask, line) == [(c, line)] + Picked(out, mask, line + Lines([c]))
  {
    assert ([c] + out)[1..] == out && ([true] + mask)[1..] == mask;
  }

  /** A comment is replaced by as many line feeds as it holds, unless it is cut off by the end. */
  lemma CommentLines(s: string)
    requires CommentStarts(s, Outside)
    ensures Comment(s).1 != "" || s[1] == '*' ==> Lines(Comment(s).0) == Lines(s[..|s| - |Comment(s).1|])
  {
    var rest := Comment(s).1;
    if s[1] == '/' {
      assert AfterLine(s) == AfterLine(s[1..]);
      LineLines(s);
      assert "\n"[1..] == "";
    } else {
      BlockLines(s[2..]);
      assert s[..|s| - |rest|] == "/*" + s[2..][..|s[2..]| - |rest|];
      LinesConcat("/*", s[2..][..|s[2..]| - |rest|]);
      assert "/*"[1..] == "*" && "*"[1..] == "";
    }
  }

  predicate BlankUnlessKept(out: string, mask: seq<bool>) {
    |out| == |mask| && forall i | 0 <= i < |out| :: mask[i] || IsBlank(out[i])
  }

  lemma {:induction false} UnkeptBlank(blanks: string)
    requires forall c | c in blanks :: IsBlank(c)
    ensures BlankUnlessKept(blanks, Unkept(|blanks|))
  {
    if blanks != "" { UnkeptBlank(blanks[1..]); }
  }

  lemma BlankConcat(a: string, ma: seq<bool>, b: string, mb: seq<bool>)
    requires BlankUnlessKept(a, ma) && BlankUnlessKept(b, mb)
    ensures BlankUnlessKept(a + b, ma + mb)
  {
  }

  /** What the output has besides the kept characters is spaces and line feeds. */
  lemma {:induction false} RestIsBlank(s: string, m: Mode)
    ensures BlankUnlessKept(Uncommented(s, m), Mask(s, m))
    decreases |s|
  {
    if s != "" {
      if CommentStarts(s, m) {
        var (blanks, rest) := Comment(s);
        BlockIsBlank(s[2..]);
        UnkeptBlank(blanks);
        RestIsBlank(rest, Outside);
        BlankConcat(blanks, Unkept(|blanks|), Uncommented(rest, Outside), Mask(rest, Outside));
      } else {
        RestIsBlank(s[1..], ModeAfter(m, s[0]));
        BlankConcat([s[0]], [true], Uncommented(s[1..], ModeAfter(m, s[0])), Mask(s[1..], ModeAfter(m, s[0])));
      }
    }
  }

  ghost predicate Kept(s: string, m: Mode, line: nat) {
    && |Mask(s, m)| == |Uncommented(s, m)|
    && Picked(Uncommented(s, m), Mask(s, m), line) == Source(s, m, line)
  }

  lemma CommentKept(s: string, line: nat)
    requires s != "" && CommentStarts(s, Outside) && Kept(Comment(s).1, Outside, line + Lines(Comment(s).0))
    ensures Kept(s, Outside, line)
  {
    var (blanks, rest) := Comment(s);
    PickNone(blanks, Uncommented(rest, Outside), Mask(rest, Outside), line);
    SourceAfterComment(s, line);
    CommentUnfolds(s);
  }

  lemma CommentUnfolds(s: string)
    requires s != "" && CommentStarts(s, Outside)
    ensures Uncommented(s, Outside) == Comment(s).0 + Uncommented(Comment(s).1, Outside)
    ensures Mask(s, Outside) == Unkept(|Comment(s).0|) + Mask(Comment(s).1, Outside)
  {
  }

  lemma SourceAfterComment(s: string, line: nat)
    requires s != "" && CommentStarts(s, Outside)
    ensures Source(s, Outside, line) == Source(Comment(s).1, Outside, line + Lines(Comment(s).0))
  {
    CommentLines(s);
  }

  lemma CharKept(s: string, m: Mode, line: nat)
    requires s != "" && !CommentStarts(s, m) && Kept(s[1..], ModeAfter(m, s[0]), line + Lines([s[0]]))
    ensures Kept(s, m, line)
  {
    PickOne(s[0], Uncommented(s[1..], ModeAfter(m, s[0])), Mask(s[1..], ModeAfter(m, s[0])), line);
  }

  /** In the output every character from outside the comments stands on its source line. */
  lemma {:induction false} LinesAreKept(s: string, m: Mode, line: nat)
    ensures |Mask(s, m)| == |Uncommented(s, m)|
    ensures Picked(Uncommented(s, m), Mask(s, m), line) == Source(s, m, line)
    decreases |s|
  {
    if s != "" {
      if CommentStarts(s, m) {
        LinesAreKept(Comment(s).1, Outside, line + Lines(Comment(s).0));
        CommentKept(s, line);
      } else {
        LinesAreKept(s[1..], ModeAfter(m, s[0]), line + Lines([s[0]]));
        CharKept(s, m, line);
      }
    }
  }

  // ---------------------------------------------------------------- JSON with comments, piece by piece

  /** A string literal without its quotes, a character outside strings, or a comment. */
  datatype Piece =
    | Literal(quote: char, body: string)
    | Plain(c: char)
    | LineComment(body: string)
    | BlockComment(body: string)

  function PieceText(p: Piece): string {
    match p
    case Literal(quote, body) => [quote] + (body + [quote])
    case Plain(c) => [c]
    case LineComment(body) => "//" + body + "\n"
    case BlockComment(body) => "/*" + body + "*/"
  }

  /** The body of a literal: its quote only after a backslash. */
  predicate BodyOk(body: string, quote: char) {
    body == ""
    || (body[0] == '\\' && |body| >= 2 && BodyOk(body[2..], quote))
    || (body[0] != '\\' && body[0] != quote && BodyOk(body[1..], quote))
  }

  predicate PieceOk(p: Piece) {
    match p
    case Literal(quote, body) => IsQuote(quote) && BodyOk(body, quote)
    case Plain(c) => !IsQuote(c) && c != '/'
    case LineComment(body) => '\n' !in body
    case BlockComment(body) => forall i | 0 <= i < |body| - 1 :: !(body[i] == '*' && body[i + 1] == '/')
  }

  function Text(ps: seq<Piece>): string {
    if ps == [] then "" else PieceText(ps[0]) + Text(ps[1..])
  }

  predicate AllOk(ps: seq<Piece>) {
    forall p | p in ps :: PieceOk(p)
  }

  predicate IsComment(p: Piece) {
    p.LineComment? || p.BlockComment?
  }

  function Blanks(s: string): seq<Piece> {
    if s == "" then [] else [Plain(if s[0] == '\n' then '\n' else ' ')] + Blanks(s[1..])
  }

  function WithoutComment(p: Piece): seq<Piece> {
    match p
    case LineComment(_) => [Plain('\n')]
    case BlockComment(body) => Blanks(body)
    case _ => [p]
  }

  function WithoutComments(ps: seq<Piece>): seq<Piece> {
    if ps == [] then [] else WithoutComment(ps[0]) + WithoutComments(ps[1..])
  }

  predicate CloserAhead(ps: seq<Piece>) {
    ps != [] && ps[0].Plain? && (ps[0].c == '}' || ps[0].c == ']' || (IsSpace(ps[0].c) && CloserAhead(ps[1..])))
  }

  function WithoutCommas(ps: seq<Piece>): seq<Piece> {
    if ps == [] then []
    else (if ps[0] == Plain(',') && CloserAhead(ps[1..]) then [] else [ps[0]]) + WithoutCommas(ps[1..])
  }

  /** What JSON is made of: literals and the characters that are not white space. */
  predicate Counts(p: Piece) {
    p.Literal? || (p.Plain? && !IsSpace(p.c))
  }

  function Significant(ps: seq<Piece>): seq<Piece> {
    if ps == [] then [] else (if Counts(ps[0]) then [ps[0]] else []) + Significant(ps[1..])
  }

  predicate ClosesNext(ts: seq<Piece>) {
    ts != [] && (ts[0] == Plain('}') || ts[0] == Plain(']'))
  }

  /** Commas right before a closer dropped. */
  function Untrailing(ts: seq<Piece>): seq<Piece> {
    if ts == [] then []
    else (if ts[0] == Plain(',') && ClosesNext(ts[1..]) then [] else [ts[0]]) + Untrailing(ts[1..])
  }

  lemma {:induction false} TextConcat(a: seq<Piece>, b: seq<Piece>)
    ensures Text(a + b) == Text(a) + Text(b)
  {
    if a == [] {
      assert a + b == b;
    } else {
      assert (a + b)[1..] == a[1..] + b;
      TextConcat(a[1..], b);
    }
  }

  lemma StringStep(c: char, rest: string, m: Mode)
    requires m.InString?
    ensures Uncommented([c] + rest, m) == [c] + Uncommented(rest, AfterStringChar(m, c))
    ensures Untrailed([c] + rest, m) == [c] + Untrailed(rest, AfterStringChar(m, c))
  {
    assert ([c] + rest)[1..] == rest;
  }

  /** Both passes copy the body of a literal and its closing quote. */
  lemma {:induction false} LiteralKept(body: string, quote: char, rest: string)
    requires IsQuote(quote) && BodyOk(body, quote)
    ensures Uncommented(body + ([quote] + rest), InString(quote, false))
        == body + ([quote] + Uncommented(rest, Outside))
    ensures Untrailed(body + ([quote] + rest), InString(quote, false)) == body + ([quote] + Untrailed(rest, Outside))
    decreases body
  {
    var tail, m := [quote] + rest, InString(quote, false);
    if body == "" {
      StringStep(quote, rest, m);
      assert body + tail == tail;
      assert body + ([quote] + Uncommented(rest, Outside)) == [quote] + Uncommented(rest, Outside);
      assert body + ([quote] + Untrailed(rest, Outside)) == [quote] + Untrailed(rest, Outside);
    } else if body[0] == '\\' {
      LiteralKept(body[2..], quote, rest);
      StringStep(body[1], body[2..] + tail, InString(quote, true));
      StringStep(body[0], [body[1]] + (body[2..] + tail), m);
      Front2(body, tail);
      Front2(body, [quote] + Uncommented(rest, Outside));
      Front2(body, [quote] + Untrailed(rest, Outside));
    } else {
      LiteralKept(body[1..], quote, rest);
      StringStep(body[0], body[1..] + tail, m);
      Front1(body, tail);
      Front1(body, [quote] + Uncommented(rest, Outside));
      Front1(body, [quote] + Untrailed(rest, Outside));
    }
  }

  lemma {:induction false} LineSkipped(body: string, rest: string)
    requires '\n' !in body
    ensures AfterLine(body + ("\n" + rest)) == rest
  {
    if body == "" {
      assert body + ("\n" + rest) == "\n" + rest && ("\n" + rest)[1..] == rest;
    } else {
      Front1(body, "\n" + rest);
      assert body[0] in body;
      assert forall c | c in body[1..] :: c in body;
      LineSkipped(body[1..], rest);
      assert ([body[0]] + (body[1..] + ("\n" + rest)))[1..] == body[1..] + ("\n" + rest);
    }
  }

  lemma {:induction false} BlockSkipped(body: string, rest: string)
    requires PieceOk(BlockComment(body))
    ensures Block(body + ("*/" + rest)) == (Text(Blanks(body)), rest)
  {
    var s := body + ("*/" + rest);
    if body == "" {
      assert s == "*/" + rest && s[0] == '*' && s[1] == '/' && s[2..] == rest;
    } else {
      assert s[0] == body[0] && s[1] == (if |body| > 1 then body[1] else '*') && s[1..] == body[1..] + ("*/" + rest);
      forall i | 0 <= i < |body[1..]| - 1 ensures !(body[1..][i] == '*' && body[1..][i + 1] == '/') {
        assert body[1..][i] == body[i + 1] && body[1..][i + 1] == body[i + 2];
      }
      BlockSkipped(body[1..], rest);
      assert Blanks(body)[1..] == Blanks(body[1..]);
    }
  }

  /** `stripComments` replaces every comment by blanks, piece by piece. */
  lemma {:induction false} CommentsGo(ps: seq<Piece>)
    requires AllOk(ps)
    ensures Uncommented(Text(ps), Outside) == Text(WithoutComments(ps))
    ensures AllOk(WithoutComments(ps)) && forall p | p in WithoutComments(ps) :: !IsComment(p)
  {
    if ps != [] {
      assert PieceOk(ps[0]) && AllOk(ps[1..]);
      CommentsGo(ps[1..]);
      PieceUncommented(ps[0], Text(ps[1..]));
      TextConcat(WithoutComment(ps[0]), WithoutComments(ps[1..]));
      WithoutCommentOk(ps[0]);
    }
  }

  /** A line comment may also run to the end of the text. */
  lemma {:induction false} LastLineComment(ps: seq<Piece>, body: string)
    requires AllOk(ps) && '\n' !in body
    ensures Uncommented(Text(ps) + ("//" + body), Outside) == Uncommented(Text(ps + [LineComment(body)]), Outside)
  {
    var last := LineComment(body);
    if ps == [] {
      LineUncommented(body, "");
      assert "//" + body + "\n" + "" == PieceText(last);
      TextOne(last);
      TextOne(Plain('\n'));
      NoLineFeed("//" + body);
      assert Text(ps) + ("//" + body) == "//" + body;
    } else {
      assert PieceOk(ps[0]);
      LastLineComment(ps[1..], body);
      PieceUncommented(ps[0], Text(ps[1..]) + ("//" + body));
      PieceUncommented(ps[0], Text(ps[1..] + [last]));
      assert (ps + [last])[1..] == ps[1..] + [last];
      Regroup(PieceText(ps[0]), Text(ps[1..]), "//" + body);
    }
  }

  lemma {:induction false} NoLineFeed(s: string)
    requires '\n' !in s
    ensures AfterLine(s) == ""
  {
    if s != "" { NoLineFeed(s[1..]); }
  }

  lemma WithoutCommentOk(p: Piece)
    requires PieceOk(p)
    ensures AllOk(WithoutComment(p)) && forall q | q in WithoutComment(p) :: !IsComment(q)
  {
    if p.BlockComment? { BlanksOk(p.body); }
  }

  lemma {:induction false} BlanksOk(s: string)
    ensures AllOk(Blanks(s)) && forall q | q in Blanks(s) :: q == Plain(' ') || q == Plain('\n')
  {
    if s != "" { BlanksOk(s[1..]); }
  }

  lemma TextOne(p: Piece)
    ensures Text([p]) == PieceText(p)
  {
    assert Text([p]) == PieceText(p) + Text([]) && PieceText(p) + "" == PieceText(p);
  }

  lemma PieceUncommented(p: Piece, rest: string)
    requires PieceOk(p)
    ensures Uncommented(PieceText(p) + rest, Outside) == Text(WithoutComment(p)) + Uncommented(rest, Outside)
  {
    match p
    case Literal(quote, body) => LiteralUncommented(p, rest);
    case Plain(c) =>
      assert ([c] + rest)[1..] == rest;
      TextOne(p);
    case LineComment(body) => LineUncommented(body, rest);
    case BlockComment(body) => BlockUncommented(body, rest);
  }

  lemma LiteralShape(p: Piece, rest: string)
    requires p.Literal?
    ensures PieceText(p) + rest == [p.quote] + (p.body + ([p.quote] + rest))
  {
  }

  lemma StringOpens(c: char, rest: string)
    requires IsQuote(c)
    ensures Uncommented([c] + rest, Outside) == [c] + Uncommented(rest, InString(c, false))
    ensures Untrailed([c] + rest, Outside) == [c] + Untrailed(rest, InString(c, false))
  {
    assert ([c] + rest)[1..] == rest;
  }

  lemma LiteralUncommented(p: Piece, rest: string)
    requires p.Literal? && PieceOk(p)
    ensures Uncommented(PieceText(p) + rest, Outside) == Text([p]) + Uncommented(rest, Outside)
  {
    LiteralShape(p, rest);
    LiteralKept(p.body, p.quote, rest);
    StringOpens(p.quote, p.body + ([p.quote] + rest));
    LiteralShape(p, Uncommented(rest, Outside));
    TextOne(p);
  }

  lemma LineUncommented(body: string, rest: string)
    requires '\n' !in body
    ensures Uncommented("//" + body + "\n" + rest, Outside) == Text([Plain('\n')]) + Uncommented(rest, Outside)
  {
    var s := "//" + body + "\n" + rest;
    assert s == ("//" + body) + ("\n" + rest);
    LineSkipped("//" + body, rest);
    TextOne(Plain('\n'));
  }

  lemma BlockUncommented(body: string, rest: string)
    requires PieceOk(BlockComment(body))
    ensures Uncommented("/*" + body + "*/" + rest, Outside) == Text(Blanks(body)) + Uncommented(rest, Outside)
  {
    var s := "/*" + body + "*/" + rest;
    assert s[0] == '/' && s[1] == '*' && s[2..] == body + ("*/" + rest);
    BlockSkipped(body, rest);
  }

  /** A piece that is not a comment, before anything: kept, unless it is a comma before a closer. */
  lemma PieceUntrailed(p: Piece, rest: string)
    requires PieceOk(p) && !IsComment(p)
    ensures Untrailed(PieceText(p) + rest, Outside)
         == (if p == Plain(',') && CloserNext(rest) then "" else PieceText(p)) + Untrailed(rest, Outside)
  {
    if p.Literal? {
      LiteralShape(p, rest);
      LiteralKept(p.body, p.quote, rest);
      StringOpens(p.quote, p.body + ([p.quote] + rest));
      LiteralShape(p, Untrailed(rest, Outside));
    } else {
      assert ([p.c] + rest)[1..] == rest;
      assert "" + Untrailed(rest, Outside) == Untrailed(rest, Outside);
    }
  }

  lemma {:induction false} CloserInText(ps: seq<Piece>)
    requires AllOk(ps) && forall p | p in ps :: !IsComment(p)
    ensures CloserNext(Text(ps)) == CloserAhead(ps)
  {
    if ps != [] {
      assert PieceOk(ps[0]) && !IsComment(ps[0]);
      assert Text(ps)[0] == PieceText(ps[0])[0];
      CloserInText(ps[1..]);
      if ps[0].Plain? { assert Text(ps)[1..] == Text(ps[1..]); }
    }
  }

  /** `stripTrailingCommas` drops the commas with only white space before a closer. */
  lemma {:induction false} CommasGo(ps: seq<Piece>)
    requires AllOk(ps) && forall p | p in ps :: !IsComment(p)
    ensures Untrailed(Text(ps), Outside) == Text(WithoutCommas(ps))
  {
    if ps != [] {
      assert PieceOk(ps[0]) && !IsComment(ps[0]) && AllOk(ps[1..]);
      CommasGo(ps[1..]);
      CloserInText(ps[1..]);
      PieceUntrailed(ps[0], Text(ps[1..]));
      var kept := if ps[0] == Plain(',') && CloserAhead(ps[1..]) then [] else [ps[0]];
      TextConcat(kept, WithoutCommas(ps[1..]));
      TextOne(ps[0]);
    }
  }

  // ---------------------------------------------------------------- what is left is the JSON

  lemma {:induction false} SignificantConcat(a: seq<Piece>, b: seq<Piece>)
    ensures Significant(a + b) == Significant(a) + Significant(b)
  {
    if a == [] {
      assert a + b == b;
    } else {
      assert (a + b)[1..] == a[1..] + b;
      SignificantConcat(a[1..], b);
      Regroup(if Counts(a[0]) then [a[0]] else [], Significant(a[1..]), Significant(b));
    }
  }

  lemma {:induction false} NothingSignificant(ps: seq<Piece>)
    requires forall p | p in ps :: !Counts(p)
    ensures Significant(ps) == []
  {
    if ps != [] { NothingSignificant(ps[1..]); }
  }

  lemma {:induction false} CommentsCountNothing(ps: seq<Piece>)
    ensures Significant(WithoutComments(ps)) == Significant(ps)
  {
    if ps != [] {
      CommentsCountNothing(ps[1..]);
      SignificantConcat(WithoutComment(ps[0]), WithoutComments(ps[1..]));
      if IsComment(ps[0]) {
        if ps[0].BlockComment? { BlanksOk(ps[0].body); }
        NothingSignificant(WithoutComment(ps[0]));
      } else {
        assert Significant([ps[0]]) == (if Counts(ps[0]) then [ps[0]] else []) + Significant([ps[0]][1..]);
      }
    }
  }

  lemma {:induction false} CloserIsNext(ps: seq<Piece>)
    requires forall p | p in ps :: !IsComment(p)
    ensures CloserAhead(ps) == ClosesNext(Significant(ps))
  {
    if ps != [] {
      assert !IsComment(ps[0]);
      CloserIsNext(ps[1..]);
    }
  }

  lemma SignificantOne(p: Piece)
    ensures Significant([p]) == if Counts(p) then [p] else []
  {
    assert [p][1..] == [];
    assert (if Counts(p) then [p] else []) + [] == if Counts(p) then [p] else [];
  }

  lemma {:induction false} CommasOfSignificant(ps: seq<Piece>)
    requires forall p | p in ps :: !IsComment(p)
    ensures Significant(WithoutCommas(ps)) == Untrailing(Significant(ps))
  {
    if ps != [] {
      CommasOfSignificant(ps[1..]);
      CloserIsNext(ps[1..]);
      var rest := Significant(ps[1..]);
      var kept := if ps[0] == Plain(',') && CloserAhead(ps[1..]) then [] else [ps[0]];
      SignificantConcat(kept, WithoutCommas(ps[1..]));
      SignificantOne(ps[0]);
      if Counts(ps[0]) {
        UntrailingStep(ps[0], rest);
      } else {
        assert [] + rest == rest && [] + Untrailing(rest) == Untrailing(rest);
      }
    }
  }

  lemma UntrailingStep(t: Piece, rest: seq<Piece>)
    ensures Untrailing([t] + rest) == (if t == Plain(',') && ClosesNext(rest) then [] else [t]) + Untrailing(rest)
  {
    assert ([t] + rest)[1..] == rest;
  }

  /** For every text made of literals, other characters and comments, with or without a byte order
      mark: the output is made of the same literals and the same characters in the same order, with
      the comments and the commas before closers gone. */
  lemma StrippedKeepsJson(ps: seq<Piece>, bom: bool)
    requires AllOk(ps) && (bom || ps == [] || ps[0] != Plain('\U{FEFF}'))
    ensures var out := WithoutCommas(WithoutComments(ps));
            && Stripped((if bom then ['\U{FEFF}'] else "") + Text(ps)) == Text(out)
            && Significant(out) == Untrailing(Significant(ps))
  {
    var text := (if bom then ['\U{FEFF}'] else "") + Text(ps);
    assert bom ==> text[0] == '\U{FEFF}' && text[1..] == Text(ps);
    if !bom && ps != [] {
      assert PieceOk(ps[0]);
      assert text == Text(ps) && text[0] == PieceText(ps[0])[0];
    }
    CommentsGo(ps);
    CommasGo(WithoutComments(ps));
    CommentsCountNothing(ps);
    CommasOfSignificant(WithoutComments(ps));
  }

  lemma {:induction false} NothingToDrop(ps: seq<Piece>)
    requires forall p | p in ps :: !IsComment(p)
    requires Untrailing(Significant(ps)) == Significant(ps)
    ensures WithoutComments(ps) == ps && WithoutCommas(ps) == ps
  {
    if ps != [] {
      assert !IsComment(ps[0]);
      CloserIsNext(ps[1..]);
      UntrailingShrinks(Significant(ps[1..]));
      var rest := Significant(ps[1..]);
      if Counts(ps[0]) {
        UntrailingStep(ps[0], rest);
        SameTail(ps[0], Untrailing(rest), rest);
      } else {
        assert [] + rest == rest;
      }
      NothingToDrop(ps[1..]);
    }
  }

  lemma SameTail(t: Piece, a: seq<Piece>, b: seq<Piece>)
    requires |a| <= |b|
    ensures [t] + a == [t] + b ==> a == b
    ensures a != [t] + b
  {
    assert ([t] + a)[1..] == a && ([t] + b)[1..] == b;
  }

  lemma {:induction false} UntrailingShrinks(ts: seq<Piece>)
    ensures |Untrailing(ts)| <= |ts|
  {
    if ts != [] { UntrailingShrinks(ts[1..]); }
  }

  /** Plain JSON, without comments and trailing commas, comes out as it went in. */
  lemma {:induction false} PlainJsonUnchanged(ps: seq<Piece>)
    requires AllOk(ps) && (ps == [] || ps[0] != Plain('\U{FEFF}'))
    requires forall p | p in ps :: !IsComment(p)
    requires Untrailing(Significant(ps)) == Significant(ps)
    ensures Stripped(Text(ps)) == Text(ps)
  {
    StrippedKeepsJson(ps, false);
    NothingToDrop(ps);
    assert "" + Text(ps) == Text(ps);
  }

  /** An empty block comment leaves no blank: it does not keep apart the words around it. */
  lemma {:induction false} EmptyBlockJoinsWords(word: string, rest: string)
    requires forall c | c in word :: PieceOk(Plain(c))
    ensures Uncommented(word + ("/**/" + rest), Outside) == word + Uncommented(rest, Outside)
  {
    BlockUncommented("", rest);
    assert "/*" + "" + "*/" + rest == "/**/" + rest;
    assert Text(Blanks("")) + Uncommented(rest, Outside) == Uncommented(rest, Outside);
    PlainStays(word, "/**/" + rest);
  }

  lemma {:induction false} PlainStays(word: string, rest: string)
    requires forall c | c in word :: PieceOk(Plain(c))
    ensures Uncommented(word + rest, Outside) == word + Uncommented(rest, Outside)
  {
    if word == "" {
      assert word + rest == rest;
    } else {
      assert PieceOk(Plain(word[0]));
      PieceUncommented(Plain(word[0]), word[1..] + rest);
      TextOne(Plain(word[0]));
      PlainStays(word[1..], rest);
      Front1(word, rest);
      Front1(word, Uncommented(rest, Outside));
    }
  }
}
