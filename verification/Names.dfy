/** Resource names and their aliases (`words`, `camelCase`, `kebabCase`, `resolveResource`,
    `resourceAliasCollisions`). */
module Names {
  import opened JsText
  import opened Sequences

  predicate IsUpper(c: char) {
    'A' <= c <= 'Z'
  }

  predicate IsLower(c: char) {
    'a' <= c <= 'z' || '0' <= c <= '9'
  }

  function Lower(c: char): char {
    if IsUpper(c) then (c as int + 32) as char else c
  }

  /** A space put between a lower-case letter or digit and the capital after it. */
  function Spaced(s: string): string {
    if |s| < 2 then s
    else if IsLower(s[0]) && IsUpper(s[1]) then [s[0], ' ', s[1]] + Spaced(s[2..])
    else [s[0]] + Spaced(s[1..])
  }

  /** The runs of letters and digits, in lower case; `part` is the run begun before `s`. */
  function Split(s: string, part: string): seq<string>
    decreases |s|
  {
    var done := if part == "" then [] else [part];
    if s == "" then done
    else if IsLower(s[0]) || IsUpper(s[0]) then Split(s[1..], part + [Lower(s[0])])
    else done + Split(s[1..], "")
  }

  function Words(s: string): seq<string> {
    Split(Spaced(s), "")
  }

  function Capital(w: string): string {
    if w == "" then "" else [Upper(w[0])] + w[1..]
  }

  function CamelTail(ws: seq<string>): string {
    if ws == [] then "" else Capital(ws[0]) + CamelTail(ws[1..])
  }

  function CamelCase(s: string): string {
    var ws := Words(s);
    if ws == [] then "" else ws[0] + CamelTail(ws[1..])
  }

  function Hyphened(ws: seq<string>): string {
    if ws == [] then "" else if |ws| == 1 then ws[0] else ws[0] + ("-" + Hyphened(ws[1..]))
  }

  function KebabCase(s: string): string {
    Hyphened(Words(s))
  }

  function RoutePath(name: string): string {
    "/" + KebabCase(name)
  }

  function Unique(xs: seq<string>): (r: seq<string>)
    ensures forall x :: x in r <==> x in xs
  {
    if xs == [] then [] else if xs[|xs| - 1] in xs[..|xs| - 1] then Unique(xs[..|xs| - 1])
    else Unique(xs[..|xs| - 1]) + [xs[|xs| - 1]]
  }

  function Candidates(name: string): (r: seq<string>)
    ensures forall x :: x in r <==> x == name || x == CamelCase(name) || x == KebabCase(name)
  {
    Unique([name, CamelCase(name), KebabCase(name)])
  }

  // ---------------------------------------------------------------- a kebab-case name has the same words

  predicate Plain(w: string) {
    w != "" && forall c | c in w :: IsLower(c)
  }

  predicate AllPlain(ws: seq<string>) {
    forall w | w in ws :: Plain(w)
  }

  lemma {:induction false} SplitIsPlain(s: string, part: string)
    requires forall c | c in part :: IsLower(c)
    ensures AllPlain(Split(s, part))
    decreases |s|
  {
    if s != "" {
      if IsLower(s[0]) || IsUpper(s[0]) {
        SplitIsPlain(s[1..], part + [Lower(s[0])]);
      } else {
        SplitIsPlain(s[1..], "");
      }
    }
  }

  lemma {:induction false} SplitWord(w: string, part: string, rest: string)
    requires forall c | c in w :: IsLower(c)
    ensures Split(w + rest, part) == Split(rest, part + w)
    decreases |w|
  {
    if w == "" {
      assert w + rest == rest && part + w == part;
    } else {
      assert IsLower(w[0]) && (w + rest)[0] == w[0] && (w + rest)[1..] == w[1..] + rest;
      SplitWord(w[1..], part + [w[0]], rest);
      assert (part + [w[0]]) + w[1..] == part + w;
    }
  }

  lemma {:induction false} SplitHyphened(ws: seq<string>)
    requires AllPlain(ws)
    ensures Split(Hyphened(ws), "") == ws
  {
    if ws != [] {
      var w := ws[0];
      assert Plain(w);
      var rest := if |ws| == 1 then "" else "-" + Hyphened(ws[1..]);
      assert w + "" == w && "" + w == w;
      SplitWord(w, "", rest);
      if |ws| > 1 {
        assert rest[1..] == Hyphened(ws[1..]);
        SplitHyphened(ws[1..]);
        assert [w] + ws[1..] == ws;
      }
    }
  }

  predicate NoCapitals(s: string) {
    forall c | c in s :: !IsUpper(c)
  }

  lemma {:induction false} SpacedStays(s: string)
    requires NoCapitals(s)
    ensures Spaced(s) == s
  {
    if |s| >= 2 {
      assert !IsUpper(s[1]);
      SpacedStays(s[1..]);
    }
  }

  lemma {:induction false} HyphenedNoCapitals(ws: seq<string>)
    requires AllPlain(ws)
    ensures NoCapitals(Hyphened(ws))
  {
    if ws != [] {
      assert Plain(ws[0]);
      forall c | c in ws[0] ensures !IsUpper(c) { assert IsLower(c); }
      HyphenedNoCapitals(ws[1..]);
    }
  }

  /** Splitting a kebab-case name gives back the words it was made of. */
  lemma KebabWords(name: string)
    ensures Words(KebabCase(name)) == Words(name)
  {
    SplitIsPlain(Spaced(name), "");
    HyphenedNoCapitals(Words(name));
    SpacedStays(KebabCase(name));
    SplitHyphened(Words(name));
  }

  /** Camel case is not like that: a word that starts with a digit melts into the word before. */
  lemma CamelMeltsDigits()
    ensures CamelCase("a-1") == "a1" && Words("a-1") == ["a", "1"] && Words("a1") == ["a1"]
  {
    assert Spaced("1") == "1" && "a-1"[1..] == "-1" && "-1"[1..] == "1" && "1"[1..] == "";
    assert Spaced("-1") == ['-'] + Spaced("1");
    assert Spaced("a-1") == ['a'] + Spaced("-1");
    assert Split("", "1") == ["1"];
    assert "" + ['1'] == "1" && "" + ['a'] == "a" && "a" + ['1'] == "a1";
    assert Split("1", "") == ["1"];
    assert Split("-1", "a") == ["a"] + Split("1", "");
    assert Words("a-1") == ["a", "1"];
    assert ["a", "1"][1..] == ["1"] && ["1"][1..] == [] && "1"[1..] == "";
    assert CamelTail(["1"]) == Capital("1") + "";
    assert Spaced("a1") == ['a'] + Spaced("1") && "a1"[1..] == "1";
    assert Split("a1", "") == Split("1", "a") == Split("", "a1") == ["a1"];
  }

  // ---------------------------------------------------------------- when camel case keeps the words

  /** The last character of a word in camel case is a lower-case letter or a digit. */
  predicate EndsLow(w: string)
    requires w != ""
  {
    |w| > 1 || !('a' <= w[0] <= 'z')
  }

  predicate LetterFirst(w: string) {
    w != "" && 'a' <= w[0] <= 'z'
  }

  /** The words that the camel case of `part` and then `ws` splits into; `low` says that what stands
      for `part` so far ends in a lower-case letter or a digit. */
  function Melted(part: string, low: bool, ws: seq<string>): seq<string>
    decreases |ws|
  {
    if ws == [] then [part]
    else if ws[0] == "" then Melted(part, low, ws[1..])
    else if low && LetterFirst(ws[0]) then [part] + Melted(ws[0], EndsLow(ws[0]), ws[1..])
    else Melted(part + ws[0], EndsLow(ws[0]), ws[1..])
  }

  /** A run of letters and digits with no capital after its first character, and then more. */
  lemma {:induction false} SpacedPiece(p: string, rest: string)
    requires p != "" && (forall i | 0 < i < |p| :: IsLower(p[i]))
    ensures Spaced(p + rest)
         == p + ((if IsLower(p[|p| - 1]) && rest != "" && IsUpper(rest[0]) then " " else "") + Spaced(rest))
  {
    if |p| == 1 {
      assert p == [p[0]];
      SpacedChar(p[0], rest);
    } else {
      var more := p[1..] + rest;
      assert IsLower(p[1]) && more[0] == p[1];
      Front1(p, rest);
      SpacedChar(p[0], more);
      SpacedPiece(p[1..], rest);
      assert p == [p[0]] + p[1..] && "" + Spaced(more) == Spaced(more);
      Regroup([p[0]], p[1..], (if IsLower(p[|p| - 1]) && rest != "" && IsUpper(rest[0]) then " " else "")
          + Spaced(rest));
    }
  }

  /** One character, and whether a space comes after it. */
  lemma SpacedChar(c: char, rest: string)
    ensures Spaced([c] + rest) == [c] + ((if IsLower(c) && rest != "" && IsUpper(rest[0]) then " " else "")
        + Spaced(rest))
  {
    var s := [c] + rest;
    assert s[0] == c && s[1..] == rest && "" + Spaced(rest) == Spaced(rest);
    if rest == "" {
      assert s == [c] && [c] + "" == [c];
    } else if IsLower(c) && IsUpper(rest[0]) {
      assert s[2..] == rest[1..] && s[1] == rest[0];
      UpperFirst(rest);
      assert [c, ' ', rest[0]] + Spaced(rest[1..]) == [c] + (" " + ([rest[0]] + Spaced(rest[1..])));
    } else {
      assert s[1] == rest[0];
    }
  }

  lemma UpperFirst(s: string)
    requires s != "" && IsUpper(s[0])
    ensures Spaced(s) == [s[0]] + Spaced(s[1..])
  {
  }

  /** Splitting goes over letters and digits, in lower case. */
  lemma {:induction false} SplitPiece(p: string, w: string, part: string, rest: string)
    requires |p| == |w| && forall i | 0 <= i < |p| :: (IsLower(p[i]) || IsUpper(p[i])) && Lower(p[i]) == w[i]
    ensures Split(p + rest, part) == Split(rest, part + w)
    decreases |p|
  {
    if p == "" {
      assert p + rest == rest && part + w == part;
    } else {
      assert (p + rest)[0] == p[0] && (p + rest)[1..] == p[1..] + rest;
      SplitPiece(p[1..], w[1..], part + [w[0]], rest);
      Shift(part, w);
    }
  }

  lemma CapitalPiece(w: string)
    requires Plain(w)
    ensures var p := Capital(w);
            && |p| == |w| && (forall i | 0 <= i < |p| :: (IsLower(p[i]) || IsUpper(p[i])) && Lower(p[i]) == w[i])
            && (forall i | 0 < i < |p| :: IsLower(p[i]))
            && (IsLower(p[|p| - 1]) <==> EndsLow(w))
            && (IsUpper(p[0]) <==> LetterFirst(w))
  {
    forall i | 0 <= i < |w| ensures IsLower(w[i]) { assert w[i] in w; }
  }

  lemma {:induction false} TailMelts(part: string, low: bool, ws: seq<string>)
    requires AllPlain(ws) && part != ""
    ensures Split((if low && ws != [] && LetterFirst(ws[0]) then " " else "") + Spaced(CamelTail(ws)), part)
         == Melted(part, low, ws)
    decreases |ws|
  {
    if ws == [] {
      assert "" + Spaced("") == "";
    } else {
      var w, rest := ws[0], CamelTail(ws[1..]);
      assert Plain(w);
      CapitalPiece(w);
      SpacedPiece(Capital(w), rest);
      TailStarts(ws[1..]);
      var gap := if EndsLow(w) && ws[1..] != [] && LetterFirst(ws[1..][0]) then " " else "";
      var more := gap + Spaced(rest);
      assert Spaced(CamelTail(ws)) == Capital(w) + more;
      if low && LetterFirst(w) {
        assert (" " + (Capital(w) + more))[1..] == Capital(w) + more;
        SplitPiece(Capital(w), w, "", more);
        assert "" + w == w;
        TailMelts(w, EndsLow(w), ws[1..]);
      } else {
        assert "" + (Capital(w) + more) == Capital(w) + more;
        SplitPiece(Capital(w), w, part, more);
        TailMelts(part + w, EndsLow(w), ws[1..]);
      }
    }
  }

  lemma TailStarts(ws: seq<string>)
    requires AllPlain(ws)
    ensures if ws == [] then CamelTail(ws) == ""
            else CamelTail(ws) != "" && (IsUpper(CamelTail(ws)[0]) <==> LetterFirst(ws[0]))
  {
    if ws != [] {
      assert Plain(ws[0]);
      CapitalPiece(ws[0]);
    }
  }

  lemma CamelMelts(name: string)
    requires Words(name) != []
    ensures Words(CamelCase(name)) == Melted(Words(name)[0], true, Words(name)[1..])
  {
    var ws := Words(name);
    SplitIsPlain(Spaced(name), "");
    assert Plain(ws[0]);
    forall i | 0 <= i < |ws[0]| ensures IsLower(ws[0][i]) { assert ws[0][i] in ws[0]; }
    var rest := CamelTail(ws[1..]);
    SpacedPiece(ws[0], rest);
    TailStarts(ws[1..]);
    SplitPiece(ws[0], ws[0], "", (if ws[1..] != [] && IsUpper(rest[0]) then " " else "") + Spaced(rest));
    assert "" + ws[0] == ws[0];
    TailMelts(ws[0], true, ws[1..]);
  }

  /** The boundary before `ws[i]` is kept. */
  predicate Parted(low: bool, ws: seq<string>, i: nat)
    requires i < |ws| && AllPlain(ws)
  {
    assert Plain(ws[i]) && (i > 0 ==> Plain(ws[i - 1]));
    LetterFirst(ws[i]) && if i == 0 then low else EndsLow(ws[i - 1])
  }

  lemma {:induction false} MeltedExactly(part: string, low: bool, ws: seq<string>)
    requires AllPlain(ws)
    ensures |Melted(part, low, ws)| <= 1 + |ws|
    ensures |Melted(part, low, ws)| == 1 + |ws| <==> forall i | 0 <= i < |ws| :: Parted(low, ws, i)
    ensures |Melted(part, low, ws)| == 1 + |ws| ==> Melted(part, low, ws) == [part] + ws
    decreases |ws|
  {
    if ws != [] {
      var w := ws[0];
      assert Plain(w) && AllPlain(ws[1..]);
      MeltedExactly(w, EndsLow(w), ws[1..]);
      MeltedExactly(part + w, EndsLow(w), ws[1..]);
      forall i | 0 <= i < |ws| - 1 ensures Parted(low, ws, i + 1) <==> Parted(EndsLow(w), ws[1..], i) {
        assert ws[1..][i] == ws[i + 1] && (i > 0 ==> ws[1..][i - 1] == ws[i]);
      }
      if forall i | 0 <= i < |ws| :: Parted(low, ws, i) {
        assert Parted(low, ws, 0);
        forall i | 0 <= i < |ws[1..]| ensures Parted(EndsLow(w), ws[1..], i) { assert Parted(low, ws, i + 1); }
      }
      if Parted(low, ws, 0) && forall i | 0 <= i < |ws[1..]| :: Parted(EndsLow(w), ws[1..], i) {
        forall i | 0 <= i < |ws| ensures Parted(low, ws, i) {
          if i > 0 { assert Parted(EndsLow(w), ws[1..], i - 1); }
        }
      }
      assert [w] + ws[1..] == ws;
    }
  }

  /** The camel case of a name has the words of the name exactly when every word after the first
      starts with a letter, and every word between the first and the last has two characters. */
  lemma CamelWordsExactly(name: string)
    ensures Words(CamelCase(name)) == Words(name)
       <==> && (forall i | 1 <= i < |Words(name)| :: LetterFirst(Words(name)[i]))
            && forall i | 1 <= i < |Words(name)| - 1 :: |Words(name)[i]| >= 2
  {
    var ws := Words(name);
    SplitIsPlain(Spaced(name), "");
    if ws != [] {
      var tail := ws[1..];
      CamelMelts(name);
      MeltedExactly(ws[0], true, tail);
      assert [ws[0]] + tail == ws;
      forall i | 1 <= i < |ws| ensures Plain(ws[i]) { assert ws[i] in ws; }
      if forall i | 0 <= i < |tail| :: Parted(true, tail, i) {
        forall i | 1 <= i < |ws| ensures LetterFirst(ws[i]) { assert Parted(true, tail, i - 1); }
        forall i | 1 <= i < |ws| - 1 ensures |ws[i]| >= 2 { assert Parted(true, tail, i) && tail[i - 1] == ws[i]; }
      }
      if (forall i | 1 <= i < |ws| :: LetterFirst(ws[i])) && forall i | 1 <= i < |ws| - 1 :: |ws[i]| >= 2 {
        forall i | 0 <= i < |tail| ensures Parted(true, tail, i) {
          assert tail[i] == ws[i + 1] && (i > 0 ==> tail[i - 1] == ws[i]);
        }
      }
    }
  }

  // ---------------------------------------------------------------- who answers to a name

  predicate Collide(a: string, b: string) {
    a != b && exists alias | alias in Candidates(a) :: alias in Candidates(b)
  }

  /** Some requested name has both among its candidates. */
  ghost predicate Ambiguous(a: string, b: string) {
    a != b && exists requested: string :: a in Candidates(requested) && b in Candidates(requested)
  }

  /** Two resources can both match one request exactly when one of them is an alias of the other. */
  lemma AmbiguousExactly(a: string, b: string)
    ensures Ambiguous(a, b) <==> a != b && (a in Candidates(b) || b in Candidates(a))
  {
    if Ambiguous(a, b) {
      var q: string :| a in Candidates(q) && b in Candidates(q);
      KebabWords(q);
      assert CamelCase(KebabCase(q)) == CamelCase(q);
    }
    if a in Candidates(b) { assert b in Candidates(b); }
    if b in Candidates(a) { assert a in Candidates(a); }
  }

  ghost predicate NoCollisions(names: set<string>) {
    forall a, b | a in names && b in names :: !Collide(a, b)
  }

  function Matching(names: set<string>, requested: string): set<string> {
    set n | n in names && n in Candidates(requested)
  }

  /** Without collisions every requested name matches at most one resource. */
  lemma NoCollisionsNoAmbiguity(names: set<string>, requested: string)
    requires NoCollisions(names)
    ensures |Matching(names, requested)| <= 1
    ensures forall a, b | a in Matching(names, requested) && b in Matching(names, requested) :: a == b
  {
    var m := Matching(names, requested);
    forall a, b | a in m && b in m ensures a == b {
      if a != b {
        assert Ambiguous(a, b);
        AmbiguousExactly(a, b);
        assert a in Candidates(a) && b in Candidates(b);
        assert Collide(a, b);
      }
    }
    if m != {} {
      var a :| a in m;
      assert m == {a};
    }
  }

  lemma WordsOfTwo(s: string)
    requires s == "a b" || s == "a_b"
    ensures Words(s) == ["a", "b"]
  {
    assert s[1..][1..] == "b" && "b"[1..] == "";
    assert Spaced(s[1..]) == [s[1]] + Spaced("b") && Spaced(s) == ['a'] + Spaced(s[1..]);
    assert Spaced(s) == s;
    assert "" + ['a'] == "a" && "" + ['b'] == "b";
    assert Split("b", "") == Split("", "b") == ["b"];
    assert Split(s[1..], "a") == ["a"] + Split("b", "");
  }

  /** Collisions are stricter than ambiguity: these two share an alias, but no request means both. */
  lemma CollisionWithoutAmbiguity()
    ensures Collide("a b", "a_b") && !Ambiguous("a b", "a_b")
  {
    WordsOfTwo("a b");
    WordsOfTwo("a_b");
    var kebab, camel := KebabCase("a b"), CamelCase("a b");
    assert kebab in Candidates("a b") && kebab in Candidates("a_b");
    assert ["a", "b"][1..] == ["b"] && ["b"][1..] == [];
    assert kebab == "a" + ("-" + "b") && kebab[1] == '-';
    assert camel == "a" + (Capital("b") + "") && |camel| == 2;
    assert "a b"[1] == ' ' && "a_b"[1] == '_';
    AmbiguousExactly("a b", "a_b");
  }

  /** Without collisions no two resources have one route. */
  lemma RoutesAreDistinct(names: set<string>, a: string, b: string)
    requires NoCollisions(names) && a in names && b in names && a != b
    ensures RoutePath(a) != RoutePath(b)
  {
    assert !Collide(a, b) && KebabCase(a) in Candidates(a) && KebabCase(b) in Candidates(b);
    assert RoutePath(a)[1..] == KebabCase(a) && RoutePath(b)[1..] == KebabCase(b);
  }

  lemma {:induction false} UniqueKeepsFirst(xs: seq<string>)
    requires xs != []
    ensures Unique(xs) != [] && Unique(xs)[0] == xs[0]
  {
    if |xs| > 1 { UniqueKeepsFirst(xs[..|xs| - 1]); } else { assert xs[..0] == []; }
  }

  datatype Match = NoMatch | Match(name: string)

  /** The first candidate that names a resource. */
  method ResolveResource(names: set<string>, requested: string) returns (r: Match)
    ensures r.NoMatch? <==> Matching(names, requested) == {}
    ensures r.Match? ==> r.name in Matching(names, requested)
    ensures requested in names ==> r == Match(requested)
    ensures NoCollisions(names) ==> Matching(names, requested) == if r.Match? then {r.name} else {}
  {
    var candidates := Candidates(requested);
    UniqueKeepsFirst([requested, CamelCase(requested), KebabCase(requested)]);
    ghost var matching := Matching(names, requested);
    if NoCollisions(names) { NoCollisionsNoAmbiguity(names, requested); }
    r := NoMatch;
    for i := 0 to |candidates|
      invariant forall k | 0 <= k < i :: candidates[k] !in names
    {
      if candidates[i] in names {
        assert candidates[i] in matching;
        return Match(candidates[i]);
      }
    }
    assert matching == {};
  }

  function Answering(names: seq<string>, alias: string): set<string> {
    set n | n in names && alias in Candidates(n)
  }

  predicate Answers(aliases: map<string, set<string>>, names: seq<string>, alias: string) {
    var who := Answering(names, alias);
    (alias in aliases <==> who != {}) && (alias in aliases ==> aliases[alias] == who)
  }

  lemma AnsweringSnoc(names: seq<string>, name: string, alias: string)
    ensures Answering(names + [name], alias)
         == if alias in Candidates(name) then Answering(names, alias) + {name} else Answering(names, alias)
  {
  }

  function Found(aliases: map<string, set<string>>, alias: string): set<string> {
    if alias in aliases then aliases[alias] else {}
  }

  /** `name` added under each of the aliases given. */
  method AddAliases(before: map<string, set<string>>, name: string, candidates: seq<string>)
    returns (aliases: map<string, set<string>>)
    ensures forall alias :: alias in aliases <==> alias in before || alias in candidates
    ensures forall alias | alias in candidates :: aliases[alias] == Found(before, alias) + {name}
    ensures forall alias | alias in before && alias !in candidates :: aliases[alias] == before[alias]
  {
    aliases := before;
    for k := 0 to |candidates|
      invariant forall alias :: alias in aliases <==> alias in before || alias in candidates[..k]
      invariant forall alias | alias in candidates[..k] :: aliases[alias] == Found(before, alias) + {name}
      invariant forall alias | alias in before && alias !in candidates[..k] :: aliases[alias] == before[alias]
    {
      var alias := candidates[k];
      assert candidates[..k + 1] == candidates[..k] + [alias];
      aliases := aliases[alias := Found(aliases, alias) + {name}];
    }
    assert candidates[..|candidates|] == candidates;
  }

  /** The aliases that more than one resource answers to, each with those resources. */
  method ResourceAliasCollisions(names: seq<string>) returns (collisions: map<string, set<string>>)
    ensures forall alias :: alias in collisions <==> |Answering(names, alias)| > 1
    ensures forall alias | alias in collisions :: collisions[alias] == Answering(names, alias)
    ensures collisions == map[] <==> NoCollisions(set n | n in names)
  {
    var aliases: map<string, set<string>> := map[];
    for i := 0 to |names|
      invariant forall alias :: Answers(aliases, names[..i], alias)
    {
      var name, before := names[i], aliases;
      aliases := AddAliases(before, name, Candidates(name));
      ghost var seen := names[..i + 1];
      assert seen == names[..i] + [name];
      forall alias ensures Answers(aliases, seen, alias) {
        assert Answers(before, names[..i], alias);
        AnsweringSnoc(names[..i], name, alias);
      }
    }
    assert names[..|names|] == names;
    collisions := map alias | alias in aliases && |aliases[alias]| > 1 :: aliases[alias];
    forall alias ensures alias in collisions <==> |Answering(names, alias)| > 1 {
      assert Answers(aliases, names, alias);
    }
    forall alias | alias in collisions ensures collisions[alias] == Answering(names, alias) {
      assert Answers(aliases, names, alias);
    }
    if collisions == map[] {
      if !NoCollisions(set n | n in names) { SharedWhenCollide(names, collisions); }
    } else {
      CollideWhenShared(names, collisions);
    }
  }

  lemma {:induction false} SharedWhenCollide(names: seq<string>, collisions: map<string, set<string>>)
    requires forall alias :: alias in collisions <==> |Answering(names, alias)| > 1
    requires !NoCollisions(set n | n in names)
    ensures collisions != map[]
  {
    var all := set n | n in names;
    var a, b :| a in all && b in all && Collide(a, b);
    var alias :| alias in Candidates(a) && alias in Candidates(b);
    Bigger({a, b}, Answering(names, alias));
    assert alias in collisions;
  }

  lemma {:induction false} CollideWhenShared(names: seq<string>, collisions: map<string, set<string>>)
    requires forall alias :: alias in collisions <==> |Answering(names, alias)| > 1
    requires collisions != map[]
    ensures !NoCollisions(set n | n in names)
  {
    var alias :| alias in collisions;
    var who := Answering(names, alias);
    var a :| a in who;
    assert |who - {a}| > 0;
    var b :| b in who - {a};
    assert Collide(a, b);
  }

  lemma Bigger(a: set<string>, b: set<string>)
    requires a <= b
    ensures |a| <= |b|
  {
    assert b == a + (b - a);
  }

  // ---------------------------------------------------------------- what the aliases look like

  lemma {:induction false} HyphenedChars(ws: seq<string>)
    requires AllPlain(ws)
    ensures forall c | c in Hyphened(ws) :: IsLower(c) || c == '-'
  {
    if ws != [] {
      assert Plain(ws[0]);
      if |ws| > 1 { HyphenedChars(ws[1..]); }
    }
  }

  lemma {:induction false} CamelChars(ws: seq<string>)
    requires AllPlain(ws)
    ensures forall c | c in CamelTail(ws) :: IsLower(c) || IsUpper(c)
  {
    if ws != [] {
      assert Plain(ws[0]);
      assert forall c | c in Capital(ws[0]) :: c == Upper(ws[0][0]) || c in ws[0][1..];
      CamelChars(ws[1..]);
    }
  }

  /** Kebab case is written in lower-case letters, digits and hyphens, camel case in letters and digits alone,
      starting with no capital. */
  lemma AliasChars(name: string)
    ensures forall c | c in KebabCase(name) :: 'a' <= c <= 'z' || '0' <= c <= '9' || c == '-'
    ensures forall c | c in CamelCase(name) :: 'a' <= c <= 'z' || 'A' <= c <= 'Z' || '0' <= c <= '9'
    ensures CamelCase(name) != "" ==> !('A' <= CamelCase(name)[0] <= 'Z')
  {
    SplitIsPlain(Spaced(name), "");
    HyphenedChars(Words(name));
    if Words(name) != [] {
      var first := Words(name)[0];
      assert Plain(first) && first[0] in first && CamelCase(name)[0] == first[0];
      CamelChars(Words(name)[1..]);
    }
  }

  /** A name of lower-case words with hyphens between them is its own kebab case. */
  lemma KebabStays(ws: seq<string>)
    requires AllPlain(ws)
    ensures KebabCase(Hyphened(ws)) == Hyphened(ws)
  {
    HyphenedChars(ws);
    SpacedStays(Hyphened(ws));
    SplitHyphened(ws);
  }
}
