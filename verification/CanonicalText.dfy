/** `stableStringify` and `queryKey`: two requests share a cache key, or a place in a batch,
    exactly when they are the same request up to the order of object keys. */
module CanonicalText {
  import opened Sequences
  import opened Options
  import opened Json

  // ---------------------------------------------------------------- JSON.stringify on strings

  function HexDigit(n: nat): (c: char)
    requires n < 16
    ensures c in "0123456789abcdef"
  {
    "0123456789abcdef"[n]
  }

  function EscapeChar(c: char): (r: string)
    ensures |r| >= 1
  {
    if c == '"' then "\\\""
    else if c == '\\' then "\\\\"
    else if c == 8 as char then "\\b"
    else if c == 12 as char then "\\f"
    else if c == '\n' then "\\n"
    else if c == '\r' then "\\r"
    else if c == '\t' then "\\t"
    else if c < ' ' then "\\u00" + [HexDigit(c as nat / 16), HexDigit(c as nat % 16)]
    else [c]
  }

  function Escape(s: string): string {
    if s == "" then "" else EscapeChar(s[0]) + Escape(s[1..])
  }

  function Quote(s: string): string {
    "\"" + Escape(s) + "\""
  }

  // ---------------------------------------------------------------- sorting keys

  /** The order of `Array.prototype.sort` on strings. */
  predicate Less(s: string, t: string) {
    t != "" && (s == "" || s[0] < t[0] || (s[0] == t[0] && Less(s[1..], t[1..])))
  }

  /** A property name with the text of its value. */
  datatype Entry = Entry(key: string, text: string)

  function Insert(e: Entry, es: seq<Entry>): (r: seq<Entry>)
    ensures multiset(r) == multiset([e]) + multiset(es)
  {
    if es == [] || Less(e.key, es[0].key) then [e] + es
    else
      assert es == [es[0]] + es[1..];
      [es[0]] + Insert(e, es[1..])
  }

  function SortByKey(es: seq<Entry>): (r: seq<Entry>)
    ensures multiset(r) == multiset(es)
  {
    if es == [] then []
    else
      assert es == [es[0]] + es[1..];
      Insert(es[0], SortByKey(es[1..]))
  }

  // ---------------------------------------------------------------- stableStringify

  function Join(texts: seq<string>): string {
    if texts == [] then ""
    else if |texts| == 1 then texts[0]
    else texts[0] + "," + Join(texts[1..])
  }

  /** `undefined` is what a template literal prints for `undefined`; the other branches follow
      the array, object and scalar cases of the code. */
  function Stringify(v: Value): string {
    match v
    case Undefined => "undefined"
    case Null => "null"
    case Bool(b) => if b then "true" else "false"
    case Num(text) => text
    case Str(s) => Quote(s)
    case Arr(items) => "[" + Join(ItemTexts(items)) + "]"
    case Obj(fields) => "{" + Join(EntryTexts(SortByKey(Entries(fields)))) + "}"
  }

  /** `Array.prototype.join` prints `undefined` as nothing. */
  function ItemTexts(items: seq<Value>): (r: seq<string>)
    ensures |r| == |items|
    ensures forall i | 0 <= i < |items| :: r[i] == if items[i].Undefined? then "" else Stringify(items[i])
  {
    if items == [] then []
    else [if items[0].Undefined? then "" else Stringify(items[0])] + ItemTexts(items[1..])
  }

  function Entries(fields: seq<Field>): (r: seq<Entry>)
    ensures |r| == |fields|
    ensures forall i | 0 <= i < |fields| :: r[i] == Entry(fields[i].key, Stringify(fields[i].val))
  {
    if fields == [] then []
    else [Entry(fields[0].key, Stringify(fields[0].val))] + Entries(fields[1..])
  }

  function EntryText(e: Entry): string {
    Quote(e.key) + ":" + e.text
  }

  function EntryTexts(es: seq<Entry>): (r: seq<string>)
    ensures |r| == |es|
    ensures forall i | 0 <= i < |es| :: r[i] == EntryText(es[i])
  {
    if es == [] then [] else [EntryText(es[0])] + EntryTexts(es[1..])
  }

  function OmitUndefined(v: Value): Value {
    match v
    case Arr(items) => Arr(OmitInItems(items))
    case Obj(fields) => Obj(OmitInFields(fields))
    case _ => v
  }

  function OmitInItems(items: seq<Value>): seq<Value> {
    if items == [] then [] else [OmitUndefined(items[0])] + OmitInItems(items[1..])
  }

  function OmitInFields(fields: seq<Field>): seq<Field> {
    if fields == [] then []
    else if fields[0].val.Undefined? then OmitInFields(fields[1..])
    else [Field(fields[0].key, OmitUndefined(fields[0].val))] + OmitInFields(fields[1..])
  }

  datatype Kind = Rest | Graphql

  function QueryKey(kind: Kind, request: Value): string {
    (match kind case Rest => "rest" case Graphql => "graphql") + ":" + Stringify(OmitUndefined(request))
  }

  // ---------------------------------------------------------------- the reference relation

  /** Printing drops the one element of `[undefined]`, and of no other array. */
  function Printed(items: seq<Value>): (r: seq<Value>)
    ensures |r| <= |items|
    ensures forall x | x in r :: x in items
  {
    if items == [Undefined] then [] else items
  }

  /** Equality of values up to the order of object keys (and `[undefined]` printing as `[]`). */
  ghost predicate Same(a: Value, b: Value)
    decreases a
  {
    match (a, b)
    case (Arr(xs), Arr(ys)) =>
      |Printed(xs)| == |Printed(ys)|
      && forall i | 0 <= i < |Printed(xs)| :: Printed(xs)[i] in xs && Same(Printed(xs)[i], Printed(ys)[i])
    case (Obj(fs), Obj(gs)) =>
      && (forall f | f in fs :: HasTwin(f, gs))
      && (forall g | g in gs :: IsTwin(fs, g))
    case _ => a == b
  }

  ghost predicate HasTwin(f: Field, gs: seq<Field>)
    decreases f
  {
    exists g | g in gs :: f.key == g.key && Same(f.val, g.val)
  }

  ghost predicate IsTwin(fs: seq<Field>, g: Field)
    decreases fs
  {
    exists f | f in fs :: f.key == g.key && Same(f.val, g.val)
  }

  /** Equality of values up to the order of object keys, and nothing else. */
  ghost predicate Reordered(a: Value, b: Value)
    decreases a
  {
    match (a, b)
    case (Arr(xs), Arr(ys)) => |xs| == |ys| && forall i | 0 <= i < |xs| :: Reordered(xs[i], ys[i])
    case (Obj(fs), Obj(gs)) =>
      && (forall f | f in fs :: HasReordered(f, gs))
      && (forall g | g in gs :: IsReordered(fs, g))
    case _ => a == b
  }

  ghost predicate HasReordered(f: Field, gs: seq<Field>)
    decreases f
  {
    exists g | g in gs :: f.key == g.key && Reordered(f.val, g.val)
  }

  ghost predicate IsReordered(fs: seq<Field>, g: Field)
    decreases fs
  {
    exists f | f in fs :: f.key == g.key && Reordered(f.val, g.val)
  }

  /** No array in `v` is `[undefined]`; so for every JSON value. */
  predicate NoLoneUndefined(v: Value) {
    match v
    case Arr(items) => items != [Undefined] && forall x | x in items :: NoLoneUndefined(x)
    case Obj(fields) => forall f | f in fields :: NoLoneUndefined(f.val)
    case _ => true
  }

  /** Without `[undefined]` the two relations agree. */
  lemma SameIsReordered(a: Value, b: Value)
    requires NoLoneUndefined(a) && NoLoneUndefined(b)
    ensures Same(a, b) <==> Reordered(a, b)
  {
    if Same(a, b) { SameReorders(a, b); }
    if Reordered(a, b) { ReorderedSame(a, b); }
  }

  lemma {:induction false} SameReorders(a: Value, b: Value)
    requires NoLoneUndefined(a) && NoLoneUndefined(b) && Same(a, b)
    ensures Reordered(a, b)
    decreases a
  {
    match a
    case Arr(xs) =>
      forall i | 0 <= i < |xs| ensures Reordered(xs[i], b.items[i]) { SameReorders(xs[i], b.items[i]); }
    case Obj(fs) =>
      forall f | f in fs ensures HasReordered(f, b.fields) {
        assert HasTwin(f, b.fields);
        var g :| g in b.fields && f.key == g.key && Same(f.val, g.val);
        SameReorders(f.val, g.val);
      }
      forall g | g in b.fields ensures IsReordered(fs, g) {
        assert IsTwin(fs, g);
        var f :| f in fs && f.key == g.key && Same(f.val, g.val);
        SameReorders(f.val, g.val);
      }
    case _ =>
  }

  lemma {:induction false} ReorderedSame(a: Value, b: Value)
    requires Reordered(a, b)
    ensures Same(a, b)
    decreases a
  {
    match a
    case Arr(xs) =>
      forall i | 0 <= i < |xs| ensures Same(xs[i], b.items[i]) { ReorderedSame(xs[i], b.items[i]); }
    case Obj(fs) =>
      forall f | f in fs ensures HasTwin(f, b.fields) {
        assert HasReordered(f, b.fields);
        var g :| g in b.fields && f.key == g.key && Reordered(f.val, g.val);
        ReorderedSame(f.val, g.val);
      }
      forall g | g in b.fields ensures IsTwin(fs, g) {
        assert IsReordered(fs, g);
        var f :| f in fs && f.key == g.key && Reordered(f.val, g.val);
        ReorderedSame(f.val, g.val);
      }
    case _ =>
  }

  // ---------------------------------------------------------------- where a value's text ends

  predicate Opens(c: char) { c == '[' || c == '{' }

  predicate Closes(c: char) { c == ']' || c == '}' }

  predicate Separates(c: char, colon: bool) { Closes(c) || c == ',' || (colon && c == ':') }

  datatype Mode = Outside | InString | Escaping

  /** Length of the longest prefix of `s` before a separator at bracket depth 0 outside a string;
      `:` counts as a separator only when `colon`. */
  function End(s: string, depth: nat, mode: Mode, colon: bool): (n: nat)
    ensures n <= |s|
  {
    if s == "" then 0
    else
      match mode
      case Escaping => 1 + End(s[1..], depth, InString, colon)
      case InString =>
        1 + End(s[1..], depth, if s[0] == '"' then Outside else if s[0] == '\\' then Escaping else InString, colon)
      case Outside =>
        if s[0] == '"' then 1 + End(s[1..], depth, InString, colon)
        else if Opens(s[0]) then 1 + End(s[1..], depth + 1, Outside, colon)
        else if depth == 0 && Separates(s[0], colon) then 0
        else if Closes(s[0]) then 1 + End(s[1..], depth - 1, Outside, colon)
        else 1 + End(s[1..], depth, Outside, colon)
  }

  /** Scanning over `t` comes back to the depth it started from. */
  ghost predicate Balanced(t: string, colon: bool) {
    forall x: string, depth: nat :: End(t + x, depth, Outside, colon) == |t| + End(x, depth, Outside, colon)
  }

  predicate PlainChar(c: char) {
    c != '"' && !Opens(c) && !Separates(c, true)
  }

  lemma {:induction false} PlainEnd(t: string, x: string, depth: nat, colon: bool)
    requires forall c | c in t :: PlainChar(c)
    ensures End(t + x, depth, Outside, colon) == |t| + End(x, depth, Outside, colon)
  {
    if t == "" {
      assert t + x == x;
    } else {
      assert PlainChar(t[0]);
      assert (t + x)[1..] == t[1..] + x;
      PlainEnd(t[1..], x, depth, colon);
    }
  }

  lemma {:induction false} PlainBalanced(t: string, colon: bool)
    requires forall c | c in t :: PlainChar(c)
    ensures Balanced(t, colon)
  {
    forall x: string, depth: nat ensures End(t + x, depth, Outside, colon) == |t| + End(x, depth, Outside, colon) {
      PlainEnd(t, x, depth, colon);
    }
  }

  lemma {:induction false} EscapeEnd(s: string, x: string, depth: nat, colon: bool)
    ensures End(Escape(s) + x, depth, InString, colon) == |Escape(s)| + End(x, depth, InString, colon)
  {
    if s == "" {
      assert Escape(s) + x == x;
    } else {
      var e, rest := EscapeChar(s[0]), Escape(s[1..]) + x;
      assert Escape(s) + x == e + rest;
      EscapeEnd(s[1..], x, depth, colon);
      EscapeCharEnd(s[0], rest, depth, colon);
    }
  }

  predicate StringChar(c: char) { c != '"' && c != '\\' }

  lemma {:induction false} InStringChars(t: string, x: string, depth: nat, colon: bool)
    requires forall c | c in t :: StringChar(c)
    ensures End(t + x, depth, InString, colon) == |t| + End(x, depth, InString, colon)
  {
    if t == "" {
      assert t + x == x;
    } else {
      assert StringChar(t[0]) && (t + x)[1..] == t[1..] + x;
      InStringChars(t[1..], x, depth, colon);
    }
  }

  lemma UnicodeShape(c: char)
    requires |EscapeChar(c)| == 6
    ensures EscapeChar(c) == ['\\', 'u', '0', '0', HexDigit(c as nat / 16), HexDigit(c as nat % 16)]
  {
  }

  lemma HexIsStringChar(n: nat)
    requires n < 16
    ensures StringChar(HexDigit(n))
  {
  }

  lemma EscapeShape(c: char)
    ensures var e := EscapeChar(c);
            if |e| == 1 then e == [c] && StringChar(c)
            else e[0] == '\\' && |e| >= 2 && forall d | d in e[2..] :: StringChar(d)
  {
    var e := EscapeChar(c);
    EscapeLength(c);
    if |e| == 6 {
      UnicodeShape(c);
      HexIsStringChar(c as nat / 16);
      HexIsStringChar(c as nat % 16);
      assert e[2..] == ['0', '0', HexDigit(c as nat / 16), HexDigit(c as nat % 16)];
    } else if |e| == 2 {
      assert e[2..] == "";
    }
  }

  /** A backslash takes the next character with it. */
  lemma EscapedStep(d: char, rest: string, depth: nat, colon: bool)
    ensures End(['\\'] + ([d] + rest), depth, InString, colon) == 2 + End(rest, depth, InString, colon)
  {
    assert (['\\'] + ([d] + rest))[1..] == [d] + rest && ([d] + rest)[1..] == rest;
  }

  lemma EscapeCharEnd(c: char, x: string, depth: nat, colon: bool)
    ensures End(EscapeChar(c) + x, depth, InString, colon) == |EscapeChar(c)| + End(x, depth, InString, colon)
  {
    EscapeShape(c);
    var e := EscapeChar(c);
    if |e| == 1 {
      InStringChars(e, x, depth, colon);
    } else {
      EscapedStep(e[1], e[2..] + x, depth, colon);
      Front2(e, x);
      InStringChars(e[2..], x, depth, colon);
    }
  }

  /** A quote opens or closes a string. */
  lemma QuoteStep(rest: string, depth: nat, colon: bool)
    ensures End("\"" + rest, depth, Outside, colon) == 1 + End(rest, depth, InString, colon)
    ensures End("\"" + rest, depth, InString, colon) == 1 + End(rest, depth, Outside, colon)
  {
    assert ("\"" + rest)[1..] == rest;
  }

  lemma Between<T>(q: seq<T>, e: seq<T>, x: seq<T>)
    ensures q + e + q + x == q + (e + (q + x))
  {
  }

  lemma QuoteEnd(s: string, x: string, depth: nat, colon: bool)
    ensures End(Quote(s) + x, depth, Outside, colon) == |Quote(s)| + End(x, depth, Outside, colon)
  {
    var rest := "\"" + x;
    Between("\"", Escape(s), x);
    QuoteStep(Escape(s) + rest, depth, colon);
    EscapeEnd(s, rest, depth, colon);
    QuoteStep(x, depth, colon);
  }

  lemma QuoteBalanced(s: string, colon: bool)
    ensures Balanced(Quote(s), colon)
  {
    forall x: string, depth: nat
      ensures End(Quote(s) + x, depth, Outside, colon) == |Quote(s)| + End(x, depth, Outside, colon)
    {
      QuoteEnd(s, x, depth, colon);
    }
  }

  lemma {:induction false} JoinEnd(ts: seq<string>, x: string, depth: nat, colon: bool)
    requires depth > 0
    requires forall t | t in ts :: Balanced(t, colon)
    ensures End(Join(ts) + x, depth, Outside, colon) == |Join(ts)| + End(x, depth, Outside, colon)
  {
    if ts == [] {
      assert Join(ts) + x == x;
    } else if |ts| == 1 {
      assert Balanced(ts[0], colon);
    } else {
      var rest := Join(ts[1..]) + x;
      assert Join(ts) + x == ts[0] + ("," + rest);
      assert Balanced(ts[0], colon);
      assert ("," + rest)[1..] == rest;
      JoinEnd(ts[1..], x, depth, colon);
    }
  }

  lemma {:induction false} BracketBalanced(open: char, ts: seq<string>, close: char, colon: bool)
    requires Opens(open) && Closes(close)
    requires forall t | t in ts :: Balanced(t, colon)
    ensures Balanced([open] + Join(ts) + [close], colon)
  {
    var whole := [open] + Join(ts) + [close];
    forall x: string, depth: nat
      ensures End(whole + x, depth, Outside, colon) == |whole| + End(x, depth, Outside, colon)
    {
      assert (whole + x)[1..] == Join(ts) + ([close] + x);
      JoinEnd(ts, [close] + x, depth + 1, colon);
      assert ([close] + x)[1..] == x;
    }
  }

  lemma EntryBalanced(e: Entry)
    requires Balanced(e.text, false)
    ensures Balanced(EntryText(e), false)
  {
    QuoteBalanced(e.key, false);
    ColonBalanced(Quote(e.key), e.text);
  }

  lemma ColonBalanced(t: string, u: string)
    requires Balanced(t, false) && Balanced(u, false)
    ensures Balanced(t + ":" + u, false)
  {
    forall x: string, depth: nat
      ensures End(t + ":" + u + x, depth, Outside, false) == |t + ":" + u| + End(x, depth, Outside, false)
    {
      var rest := ":" + (u + x);
      assert t + ":" + u + x == t + rest;
      assert rest[0] == ':' && rest[1..] == u + x;
      assert End(t + rest, depth, Outside, false) == |t| + End(rest, depth, Outside, false);
    }
  }

  lemma {:induction false} StringifyBalanced(v: Value)
    ensures Balanced(Stringify(v), false)
    decreases v, 1
  {
    match v
    case Str(s) => QuoteBalanced(s, false);
    case Arr(items) =>
      ItemsBalanced(items);
      BracketBalanced('[', ItemTexts(items), ']', false);
    case Obj(fields) =>
      forall i | 0 <= i < |fields| ensures Balanced(Stringify(fields[i].val), false) {
        StringifyBalanced(fields[i].val);
      }
      EntriesBalanced(fields);
      BracketBalanced('{', EntryTexts(SortByKey(Entries(fields))), '}', false);
    case Num(text) =>
      NumberPlain(text);
      PlainBalanced(text, false);
    case _ =>
      WordPlain(v);
      PlainBalanced(Stringify(v), false);
  }

  lemma NumberPlain(text: NumberText)
    ensures forall c | c in text :: PlainChar(c)
  {
    forall c | c in text ensures PlainChar(c) { assert '0' <= c <= '9' || c in "+-.e"; }
  }

  lemma WordPlain(v: Value)
    requires v.Undefined? || v.Null? || v.Bool?
    ensures forall c | c in Stringify(v) :: PlainChar(c)
  {
  }

  lemma {:induction false} ItemsBalanced(items: seq<Value>)
    ensures forall t | t in ItemTexts(items) :: Balanced(t, false)
    decreases items, 0
  {
    var ts := ItemTexts(items);
    forall i | 0 <= i < |ts| ensures Balanced(ts[i], false) {
      if items[i].Undefined? { PlainBalanced("", false); } else { StringifyBalanced(items[i]); }
    }
  }

  lemma {:induction false} EntriesBalanced(fields: seq<Field>)
    requires forall i | 0 <= i < |fields| :: Balanced(Stringify(fields[i].val), false)
    ensures forall t | t in EntryTexts(SortByKey(Entries(fields))) :: Balanced(t, false)
  {
    var es := SortByKey(Entries(fields));
    forall i | 0 <= i < |es| ensures Balanced(EntryTexts(es)[i], false) {
      var j := SortedEntry(fields, i);
      EntryBalanced(es[i]);
    }
  }

  /** Every sorted entry is the entry of one of the fields. */
  lemma SortedEntry(fields: seq<Field>, i: nat) returns (j: nat)
    requires i < |SortByKey(Entries(fields))|
    ensures j < |fields|
    ensures SortByKey(Entries(fields))[i] == Entry(fields[j].key, Stringify(fields[j].val))
  {
    var e := SortByKey(Entries(fields))[i];
    assert e in multiset(SortByKey(Entries(fields)));
    assert e in Entries(fields);
    j :| 0 <= j < |Entries(fields)| && Entries(fields)[j] == e;
  }

  // ---------------------------------------------------------------- reading the parts back

  lemma {:induction false} EscapeInjective(s: string, t: string)
    requires Escape(s) == Escape(t)
    ensures s == t
  {
    if s != "" && t != "" {
      EscapeCharPrefix(s[0], t[0], Escape(s[1..]), Escape(t[1..]));
      EscapeInjective(s[1..], t[1..]);
    }
  }

  lemma EscapeCharPrefix(c: char, d: char, x: string, y: string)
    requires EscapeChar(c) + x == EscapeChar(d) + y
    ensures c == d && x == y
  {
    var e, f := EscapeChar(c), EscapeChar(d);
    EscapeLength(c);
    EscapeLength(d);
    assert (e + x)[0] == e[0] && (f + y)[0] == f[0];
    if |e| > 1 && |f| > 1 { assert (e + x)[1] == e[1] && (f + y)[1] == f[1]; }
    assert e == (e + x)[..|e|] && f == (f + y)[..|f|];
    if |e| == 6 { UnicodeCode(c, d); }
    assert x == (e + x)[|e|..] && y == (f + y)[|f|..];
  }

  /** The character a short escape stands for. */
  function Unescaped(k: char): char {
    match k
    case 'b' => 8 as char
    case 'f' => 12 as char
    case 'n' => '\n'
    case 'r' => '\r'
    case 't' => '\t'
    case _ => k
  }

  /** The first two characters of an escape tell its length. */
  lemma EscapeLength(c: char)
    ensures var e := EscapeChar(c);
            if e[0] != '\\' then e == [c]
            else |e| >= 2 && if e[1] == 'u' then |e| == 6 else |e| == 2 && c == Unescaped(e[1])
  {
  }

  lemma UnicodeCode(c: char, d: char)
    requires |EscapeChar(c)| == 6 && EscapeChar(c) == EscapeChar(d)
    ensures c == d
  {
    var e, f := EscapeChar(c), EscapeChar(d);
    assert e[4] == f[4] && e[5] == f[5];
    HexInjective(c as nat / 16, d as nat / 16);
    HexInjective(c as nat % 16, d as nat % 16);
  }

  lemma HexInjective(m: nat, n: nat)
    requires m < 16 && n < 16 && HexDigit(m) == HexDigit(n)
    ensures m == n
  {
    assert forall k | 0 <= k < 16 :: "0123456789abcdef"[k] as int == if k < 10 then 48 + k else 87 + k;
  }

  lemma QuoteInjective(s: string, t: string)
    requires Quote(s) == Quote(t)
    ensures s == t
  {
    assert Quote(s)[1..|Quote(s)| - 1] == Escape(s);
    assert Quote(t)[1..|Quote(t)| - 1] == Escape(t);
    EscapeInjective(s, t);
  }

  predicate Separated(x: string, colon: bool) {
    x == "" || Separates(x[0], colon)
  }

  lemma SplitAtEnd(t: string, x: string, u: string, y: string, colon: bool)
    requires Balanced(t, colon) && Balanced(u, colon)
    requires Separated(x, colon) && Separated(y, colon)
    requires t + x == u + y
    ensures t == u && x == y
  {
    assert End(t + x, 0, Outside, colon) == |t|;
    assert End(u + y, 0, Outside, colon) == |u|;
    assert t == (t + x)[..|t|] && u == (u + y)[..|u|];
    assert x == (t + x)[|t|..] && y == (u + y)[|u|..];
  }

  lemma {:induction false} JoinInjective(ts: seq<string>, us: seq<string>)
    requires ts != [] && us != []
    requires forall t | t in ts :: Balanced(t, false)
    requires forall u | u in us :: Balanced(u, false)
    requires Join(ts) == Join(us)
    ensures ts == us
  {
    var x := if |ts| == 1 then "" else "," + Join(ts[1..]);
    var y := if |us| == 1 then "" else "," + Join(us[1..]);
    assert Join(ts) == ts[0] + x && Join(us) == us[0] + y;
    SplitAtEnd(ts[0], x, us[0], y, false);
    if |ts| > 1 && |us| > 1 {
      assert x[1..] == Join(ts[1..]) && y[1..] == Join(us[1..]);
      JoinInjective(ts[1..], us[1..]);
      assert ts == [ts[0]] + ts[1..] && us == [us[0]] + us[1..];
    }
  }

  lemma EntryTextInjective(e: Entry, f: Entry)
    requires EntryText(e) == EntryText(f)
    ensures e == f
  {
    QuoteBalanced(e.key, true);
    QuoteBalanced(f.key, true);
    assert EntryText(e) == Quote(e.key) + (":" + e.text);
    assert EntryText(f) == Quote(f.key) + (":" + f.text);
    SplitAtEnd(Quote(e.key), ":" + e.text, Quote(f.key), ":" + f.text, true);
    QuoteInjective(e.key, f.key);
    assert (":" + e.text)[1..] == e.text && (":" + f.text)[1..] == f.text;
  }

  // ---------------------------------------------------------------- text determines value

  lemma Inner(open: char, a: string, close: char)
    ensures ([open] + a + [close])[1..|a| + 1] == a
  {
  }

  /** The first character tells the kind of value. */
  lemma FirstChar(v: Value)
    ensures Stringify(v) != ""
    ensures Stringify(v)[0] == match v
                               case Undefined => 'u'
                               case Null => 'n'
                               case Bool(b) => if b then 't' else 'f'
                               case Num(text) => text[0]
                               case Str(_) => '"'
                               case Arr(_) => '['
                               case Obj(_) => '{'
  {
  }

  lemma {:induction false} TextDeterminesValue(a: Value, b: Value)
    requires Stringify(a) == Stringify(b)
    ensures Same(a, b)
    decreases a
  {
    FirstChar(a);
    FirstChar(b);
    match a
    case Str(s) => QuoteInjective(s, b.s);
    case Arr(xs) => ArrayTexts(xs, b.items);
    case Obj(fs) => ObjectTexts(fs, b.fields);
    case _ =>
  }

  lemma {:induction false} ArrayTexts(xs: seq<Value>, ys: seq<Value>)
    requires Stringify(Arr(xs)) == Stringify(Arr(ys))
    ensures Same(Arr(xs), Arr(ys))
    decreases Arr(xs), 0
  {
    Inner('[', Join(ItemTexts(xs)), ']');
    Inner('[', Join(ItemTexts(ys)), ']');
    var ts, us := ItemTexts(Printed(xs)), ItemTexts(Printed(ys));
    assert Join(ts) == Join(us);
    forall i | 0 <= i < |ts| ensures Balanced(ts[i], false) {
      if Printed(xs)[i].Undefined? { PlainBalanced("", false); } else { StringifyBalanced(Printed(xs)[i]); }
    }
    forall i | 0 <= i < |us| ensures Balanced(us[i], false) {
      if Printed(ys)[i].Undefined? { PlainBalanced("", false); } else { StringifyBalanced(Printed(ys)[i]); }
    }
    PrintedEmpty(xs);
    PrintedEmpty(ys);
    if ts != [] && us != [] {
      JoinInjective(ts, us);
    }
    assert |Printed(xs)| == |Printed(ys)|;
    forall i | 0 <= i < |Printed(xs)| ensures Printed(xs)[i] in xs && Same(Printed(xs)[i], Printed(ys)[i]) {
      var x, y := Printed(xs)[i], Printed(ys)[i];
      assert ts[i] == us[i];
      FirstChar(x);
      FirstChar(y);
      if !x.Undefined? && !y.Undefined? {
        TextDeterminesValue(x, y);
      }
    }
  }

  /** After dropping the element of `[undefined]`, only the empty array prints as no text. */
  lemma PrintedEmpty(xs: seq<Value>)
    ensures Join(ItemTexts(Printed(xs))) == "" <==> Printed(xs) == []
  {
  }

  lemma {:induction false} ObjectTexts(fs: seq<Field>, gs: seq<Field>)
    requires Stringify(Obj(fs)) == Stringify(Obj(gs))
    ensures Same(Obj(fs), Obj(gs))
    decreases Obj(fs), 0
  {
    SortedEntriesEqual(fs, gs);
    forall f | f in fs ensures HasTwin(f, gs) {
      var j := MatchingField(fs, gs, f);
      TextDeterminesValue(f.val, gs[j].val);
      assert gs[j] in gs;
    }
    forall g | g in gs ensures IsTwin(fs, g) {
      var j := MatchingField(gs, fs, g);
      TextDeterminesValue(fs[j].val, g.val);
      assert fs[j] in fs;
    }
  }

  lemma SortedEntriesEqual(fs: seq<Field>, gs: seq<Field>)
    requires Stringify(Obj(fs)) == Stringify(Obj(gs))
    ensures multiset(Entries(fs)) == multiset(Entries(gs))
  {
    var es, hs := SortByKey(Entries(fs)), SortByKey(Entries(gs));
    var ts, us := EntryTexts(es), EntryTexts(hs);
    Inner('{', Join(ts), '}');
    Inner('{', Join(us), '}');
    assert Join(ts) == Join(us);
    forall i | 0 <= i < |ts| ensures Balanced(ts[i], false) {
      var j := SortedEntry(fs, i);
      StringifyBalanced(fs[j].val);
      EntryBalanced(es[i]);
    }
    forall i | 0 <= i < |us| ensures Balanced(us[i], false) {
      var j := SortedEntry(gs, i);
      StringifyBalanced(gs[j].val);
      EntryBalanced(hs[i]);
    }
    if ts != [] && us != [] {
      JoinInjective(ts, us);
    }
    assert |es| == |hs|;
    forall i | 0 <= i < |es| ensures es[i] == hs[i] {
      assert ts[i] == us[i];
      EntryTextInjective(es[i], hs[i]);
    }
    assert es == hs;
  }

  lemma MatchingField(fs: seq<Field>, gs: seq<Field>, f: Field) returns (j: nat)
    requires multiset(Entries(fs)) == multiset(Entries(gs))
    requires f in fs
    ensures j < |gs| && gs[j].key == f.key && Stringify(gs[j].val) == Stringify(f.val)
  {
    var i :| 0 <= i < |fs| && fs[i] == f;
    var e := Entries(fs)[i];
    assert e in multiset(Entries(gs));
    j :| 0 <= j < |Entries(gs)| && Entries(gs)[j] == e;
  }

  // ---------------------------------------------------------------- value determines text

  lemma {:induction false} LessTotal(s: string, t: string)
    ensures s == t || Less(s, t) || Less(t, s)
    ensures !(Less(s, t) && Less(t, s)) && !Less(s, s)
  {
    if s != "" && t != "" && s[0] == t[0] {
      LessTotal(s[1..], t[1..]);
      assert s == [s[0]] + s[1..] && t == [t[0]] + t[1..];
    }
    if s != "" { LessTotal(s[1..], s[1..]); }
  }

  lemma {:induction false} LessTransitive(s: string, t: string, u: string)
    requires Less(s, t) && Less(t, u)
    ensures Less(s, u)
  {
    if s != "" && s[0] == t[0] == u[0] {
      LessTransitive(s[1..], t[1..], u[1..]);
    }
  }

  ghost predicate Increasing(es: seq<Entry>) {
    forall i, j | 0 <= i < j < |es| :: Less(es[i].key, es[j].key)
  }

  ghost predicate DistinctEntries(es: seq<Entry>) {
    forall i, j | 0 <= i < j < |es| :: es[i].key != es[j].key
  }

  lemma {:induction false} InsertIncreasing(e: Entry, es: seq<Entry>)
    requires Increasing(es)
    requires forall x | x in es :: x.key != e.key
    ensures Increasing(Insert(e, es))
  {
    if es == [] {
    } else if Less(e.key, es[0].key) {
      forall j | 1 <= j < |es| ensures Less(e.key, es[j].key) {
        LessTransitive(e.key, es[0].key, es[j].key);
      }
    } else {
      LessTotal(e.key, es[0].key);
      InsertIncreasing(e, es[1..]);
      var r := Insert(e, es[1..]);
      forall j | 0 <= j < |r| ensures Less(es[0].key, r[j].key) {
        assert r[j] in multiset(r);
        assert r[j] == e || r[j] in es[1..];
      }
    }
  }

  lemma {:induction false} SortIncreasing(es: seq<Entry>)
    requires DistinctEntries(es)
    ensures Increasing(SortByKey(es))
  {
    if es != [] {
      SortIncreasing(es[1..]);
      var r := SortByKey(es[1..]);
      forall x | x in r ensures x.key != es[0].key {
        assert x in multiset(r);
        assert x in es[1..];
      }
      InsertIncreasing(es[0], r);
    }
  }

  lemma {:induction false} IncreasingUnique(es: seq<Entry>, fs: seq<Entry>)
    requires Increasing(es) && Increasing(fs)
    requires forall e :: e in es <==> e in fs
    ensures es == fs
  {
    assert forall i | 0 <= i < |es| :: es[i] in fs;
    assert forall i | 0 <= i < |fs| :: fs[i] in es;
    if es != [] {
      var i :| 0 <= i < |fs| && fs[i] == es[0];
      var j :| 0 <= j < |es| && es[j] == fs[0];
      LessTotal(es[0].key, fs[0].key);
      assert es[0] == fs[0];
      forall e ensures e in es[1..] <==> e in fs[1..] {
        LessTotal(es[0].key, es[0].key);
        if e in es[1..] { assert e in fs && e != fs[0]; }
        if e in fs[1..] { assert e in es && e != es[0]; }
      }
      IncreasingUnique(es[1..], fs[1..]);
    }
  }

  lemma SortKeepsMembers(es: seq<Entry>)
    ensures forall e :: e in SortByKey(es) <==> e in es
  {
    forall e ensures e in SortByKey(es) <==> e in es {
      assert e in SortByKey(es) <==> e in multiset(SortByKey(es));
      assert e in es <==> e in multiset(es);
    }
  }

  lemma {:induction false} SortSame(es: seq<Entry>, fs: seq<Entry>)
    requires DistinctEntries(es) && DistinctEntries(fs)
    requires forall e | e in es :: e in fs
    requires forall f | f in fs :: f in es
    ensures SortByKey(es) == SortByKey(fs)
  {
    SortIncreasing(es);
    SortIncreasing(fs);
    SortKeepsMembers(es);
    SortKeepsMembers(fs);
    IncreasingUnique(SortByKey(es), SortByKey(fs));
  }

  lemma {:induction false} ValueDeterminesText(a: Value, b: Value)
    requires WellFormed(a) && WellFormed(b)
    requires Same(a, b)
    ensures Stringify(a) == Stringify(b)
    decreases a, 1
  {
    match a
    case Arr(xs) => ItemsDetermineText(a, b);
    case Obj(fs) => FieldsDetermineText(a, b);
    case _ =>
  }

  lemma {:induction false} ItemsDetermineText(a: Value, b: Value)
    requires WellFormed(a) && WellFormed(b)
    requires a.Arr? && Same(a, b)
    ensures Stringify(a) == Stringify(b)
    decreases a, 0
  {
    var ps, qs := Printed(a.items), Printed(b.items);
    forall i | 0 <= i < |ps| ensures ItemTexts(ps)[i] == ItemTexts(qs)[i] {
      ValueDeterminesText(ps[i], qs[i]);
    }
    PrintedText(a.items);
    PrintedText(b.items);
    assert ItemTexts(ps) == ItemTexts(qs);
  }

  lemma {:induction false} FieldsDetermineText(a: Value, b: Value)
    requires WellFormed(a) && WellFormed(b)
    requires a.Obj? && Same(a, b)
    ensures Stringify(a) == Stringify(b)
    decreases a, 0
  {
    var fs, gs := a.fields, b.fields;
    forall e | e in Entries(fs) ensures e in Entries(gs) {
      var i :| 0 <= i < |fs| && Entries(fs)[i] == e;
      assert fs[i] in fs && HasTwin(fs[i], gs);
      var g :| g in gs && fs[i].key == g.key && Same(fs[i].val, g.val);
      ValueDeterminesText(fs[i].val, g.val);
      EntryOf(gs, g);
    }
    forall e | e in Entries(gs) ensures e in Entries(fs) {
      var i :| 0 <= i < |gs| && Entries(gs)[i] == e;
      assert gs[i] in gs && IsTwin(fs, gs[i]);
      var f :| f in fs && f.key == gs[i].key && Same(f.val, gs[i].val);
      ValueDeterminesText(f.val, gs[i].val);
      EntryOf(fs, f);
    }
    SortSame(Entries(fs), Entries(gs));
  }

  lemma EntryOf(fs: seq<Field>, f: Field)
    requires f in fs
    ensures Entry(f.key, Stringify(f.val)) in Entries(fs)
  {
    var j :| 0 <= j < |fs| && fs[j] == f;
    assert Entries(fs)[j] == Entry(f.key, Stringify(f.val));
  }

  lemma PrintedText(xs: seq<Value>)
    ensures Stringify(Arr(xs)) == "[" + Join(ItemTexts(Printed(xs))) + "]"
  {
    if xs == [Undefined] { assert ItemTexts(xs) == [""]; }
  }

  // ---------------------------------------------------------------- main results

  /** Two values have the same text exactly when they are equal up to the order of object keys. */
  lemma StringifyCanonical(a: Value, b: Value)
    requires WellFormed(a) && WellFormed(b)
    ensures Stringify(a) == Stringify(b) <==> Same(a, b)
  {
    if Stringify(a) == Stringify(b) { TextDeterminesValue(a, b); }
    if Same(a, b) { ValueDeterminesText(a, b); }
  }

  /** Without `[undefined]`, so for JSON values, that is the order of object keys and nothing else. */
  lemma StringifyIsReordering(a: Value, b: Value)
    requires WellFormed(a) && WellFormed(b) && NoLoneUndefined(a) && NoLoneUndefined(b)
    ensures Stringify(a) == Stringify(b) <==> Reordered(a, b)
  {
    StringifyCanonical(a, b);
    SameIsReordered(a, b);
  }

  /** With `[undefined]` it is not: two different arrays with one text. */
  lemma UndefinedItemIsLost()
    ensures Stringify(Arr([Undefined])) == Stringify(Arr([])) && Arr([Undefined]) != Arr([])
  {
    assert ItemTexts([Undefined]) == [""];
  }

  lemma {:induction false} OmitWellFormed(v: Value)
    requires WellFormed(v)
    ensures WellFormed(OmitUndefined(v))
  {
    match v
    case Arr(items) => OmitItemsWellFormed(items);
    case Obj(fields) => OmitFieldsWellFormed(fields);
    case _ =>
  }

  lemma {:induction false} OmitItemsWellFormed(items: seq<Value>)
    requires forall x | x in items :: WellFormed(x)
    ensures forall x | x in OmitInItems(items) :: WellFormed(x)
  {
    if items != [] {
      OmitWellFormed(items[0]);
      OmitItemsWellFormed(items[1..]);
    }
  }

  lemma {:induction false} OmitFieldsWellFormed(fields: seq<Field>)
    requires DistinctKeys(fields) && forall f | f in fields :: WellFormed(f.val)
    ensures DistinctKeys(OmitInFields(fields)) && forall f | f in OmitInFields(fields) :: WellFormed(f.val)
    ensures forall f | f in OmitInFields(fields) :: HasKey(fields, f.key)
  {
    if fields != [] {
      OmitWellFormed(fields[0].val);
      OmitFieldsWellFormed(fields[1..]);
      var rest := OmitInFields(fields[1..]);
      forall f | f in rest ensures f.key != fields[0].key && HasKey(fields, f.key) {
        HasKeySplit(fields, f.key);
        var i :| 0 <= i < |fields[1..]| && fields[1..][i].key == f.key;
        assert fields[i + 1].key == f.key;
      }
      assert HasKey(fields, fields[0].key);
      if !fields[0].val.Undefined? {
        var r := OmitInFields(fields);
        forall i, j | 0 <= i < j < |r| ensures r[i].key != r[j].key {
          assert r[1..] == rest;
          assert r[j] == rest[j - 1] && r[j] in rest;
          if i > 0 { assert r[i] == rest[i - 1]; }
        }
      }
    }
  }

  /** Two requests share a query key exactly when they are of one kind and are the same request
      after dropping undefined fields, up to the order of keys. */
  lemma QueryKeyCanonical(k: Kind, a: Value, l: Kind, b: Value)
    requires WellFormed(a) && WellFormed(b)
    ensures QueryKey(k, a) == QueryKey(l, b) <==> k == l && Same(OmitUndefined(a), OmitUndefined(b))
  {
    OmitWellFormed(a);
    OmitWellFormed(b);
    StringifyCanonical(OmitUndefined(a), OmitUndefined(b));
    var x, y := QueryKey(k, a), QueryKey(l, b);
    assert k.Rest? ==> x[0] == 'r' && x[5..] == Stringify(OmitUndefined(a));
    assert l.Rest? ==> y[0] == 'r' && y[5..] == Stringify(OmitUndefined(b));
    assert k.Graphql? ==> x[0] == 'g' && x[8..] == Stringify(OmitUndefined(a));
    assert l.Graphql? ==> y[0] == 'g' && y[8..] == Stringify(OmitUndefined(b));
  }

  // ---------------------------------------------------------------- the texts of strings are JSON

  function HexValue(c: char): nat {
    if '0' <= c <= '9' then c as nat - '0' as nat else if 'a' <= c <= 'f' then 10 + c as nat - 'a' as nat else 16
  }

  /** The escapes of section 7 of RFC 8259 that stand for one character. */
  function Short(c: char): Option<char> {
    if c == '"' || c == '\\' || c == '/' then Some(c)
    else if c == 'b' then Some(8 as char)
    else if c == 't' then Some('\t')
    else if c == 'n' then Some('\n')
    else if c == 'f' then Some(12 as char)
    else if c == 'r' then Some('\r')
    else None
  }

  /** A JSON string after its opening quote, as far as the escapes of control characters go. */
  function ReadJson(s: string, value: string): Option<(string, string)>
    decreases |s|
  {
    if s == "" then None
    else if s[0] == '"' then Some((value, s[1..]))
    else if s[0] != '\\' then if s[0] < ' ' then None else ReadJson(s[1..], value + [s[0]])
    else if |s| > 1 && Short(s[1]).Some? then ReadJson(s[2..], value + [Short(s[1]).value])
    else if |s| > 5 && s[1] == 'u' && s[2] == '0' && s[3] == '0' && HexValue(s[4]) < 8 && HexValue(s[5]) < 16 then
      ReadJson(s[6..], value + [(16 * HexValue(s[4]) + HexValue(s[5])) as char])
    else None
  }

  lemma HexReturns(n: nat)
    requires n < 16
    ensures HexValue(HexDigit(n)) == n
  {
  }

  lemma ShortIsRead(c: char, more: string, value: string)
    requires Short(c).Some?
    ensures ReadJson(['\\', c] + more, value) == ReadJson(more, value + [Short(c).value])
  {
    var s := ['\\', c] + more;
    assert s[0] == '\\' && s[1] == c && s[2..] == more;
  }

  lemma UnicodeIsRead(c: char, more: string, value: string)
    requires c < ' '
    ensures ReadJson(['\\', 'u', '0', '0', HexDigit(c as nat / 16), HexDigit(c as nat % 16)] + more, value)
         == ReadJson(more, value + [c])
  {
    var s := ['\\', 'u', '0', '0', HexDigit(c as nat / 16), HexDigit(c as nat % 16)] + more;
    HexReturns(c as nat / 16);
    HexReturns(c as nat % 16);
    assert s[0] == '\\' && s[1] == 'u' && s[2] == '0' && s[3] == '0' && s[6..] == more;
  }

  lemma EscapeIsRead(c: char, more: string, value: string)
    ensures ReadJson(EscapeChar(c) + more, value) == ReadJson(more, value + [c])
  {
    if c == '"' { ShortIsRead('"', more, value); }
    else if c == '\\' { ShortIsRead('\\', more, value); }
    else if c == 8 as char { ShortIsRead('b', more, value); }
    else if c == 12 as char { ShortIsRead('f', more, value); }
    else if c == '\n' { ShortIsRead('n', more, value); }
    else if c == '\r' { ShortIsRead('r', more, value); }
    else if c == '\t' { ShortIsRead('t', more, value); }
    else if c < ' ' {
      UnicodeIsRead(c, more, value);
      assert EscapeChar(c) == ['\\', 'u', '0', '0', HexDigit(c as nat / 16), HexDigit(c as nat % 16)];
    } else {
      assert ([c] + more)[1..] == more;
    }
  }

  lemma EscapeSplits(s: string, tail: string)
    requires s != ""
    ensures Escape(s) + tail == EscapeChar(s[0]) + (Escape(s[1..]) + tail)
  {
    Regroup(EscapeChar(s[0]), Escape(s[1..]), tail);
  }

  /** What stands for a string in the text is its JSON literal: reading it gives the string back. */
  lemma {:induction false} QuoteReturns(s: string, rest: string, value: string)
    ensures ReadJson(Escape(s) + ("\"" + rest), value) == Some((value + s, rest))
    decreases s
  {
    var tail := "\"" + rest;
    if s == "" {
      assert Escape(s) + tail == tail && tail[1..] == rest && value + s == value;
    } else {
      EscapeIsRead(s[0], Escape(s[1..]) + tail, value);
      EscapeSplits(s, tail);
      QuoteReturns(s[1..], rest, value + [s[0]]);
      Shift(value, s);
    }
  }
}
