/** Ids made of several key fields (`compoundKeyId`): percent-encoded values joined by `@`. */
module CompoundId {
  import opened Options
  import opened Json

  // ---------------------------------------------------------------- encodeURIComponent

  predicate IsUnreserved(c: char) {
    'A' <= c <= 'Z' || 'a' <= c <= 'z' || '0' <= c <= '9' || c in "-_.!~*'()"
  }

  function UpperHexDigit(n: nat): char
    requires n < 16
  {
    if n < 10 then ('0' as int + n) as char else ('A' as int + n - 10) as char
  }

  /** 16 for a character that is no upper-case hexadecimal digit. */
  function HexValue(c: char): nat {
    if '0' <= c <= '9' then c as int - '0' as int
    else if 'A' <= c <= 'F' then c as int - 'A' as int + 10
    else 16
  }

  type Byte = n: nat | n < 256

  function PercentByte(b: Byte): (t: string)
    ensures |t| == 3
  {
    ['%', UpperHexDigit(b / 16), UpperHexDigit(b % 16)]
  }

  function Utf8(c: char): (bytes: seq<Byte>)
    ensures 1 <= |bytes| <= 4
  {
    var n := c as int;
    if n < 0x80 then [n]
    else if n < 0x800 then [0xC0 + n / 0x40, 0x80 + n % 0x40]
    else if n < 0x10000 then [0xE0 + n / 0x1000, 0x80 + n / 0x40 % 0x40, 0x80 + n % 0x40]
    else [0xF0 + n / 0x40000, 0x80 + n / 0x1000 % 0x40, 0x80 + n / 0x40 % 0x40, 0x80 + n % 0x40]
  }

  function PercentBytes(bytes: seq<Byte>): string {
    if bytes == [] then "" else PercentByte(bytes[0]) + PercentBytes(bytes[1..])
  }

  function EncodedChar(c: char): string {
    if IsUnreserved(c) then [c] else PercentBytes(Utf8(c))
  }

  function Encoded(s: string): string {
    if s == "" then "" else EncodedChar(s[0]) + Encoded(s[1..])
  }

  // ---------------------------------------------------------------- and back

  /** The first `count` percent-encoded bytes, and the text after them. */
  function ReadBytes(s: string, count: nat): (r: Option<(seq<Byte>, string)>)
    ensures r.Some? ==> |r.value.0| == count && |r.value.1| <= |s| - count
  {
    if count == 0 then Some(([], s))
    else if |s| < 3 || s[0] != '%' || HexValue(s[1]) == 16 || HexValue(s[2]) == 16 then None
    else
      var more := ReadBytes(s[3..], count - 1);
      if more.None? then None
      else Some(([16 * HexValue(s[1]) + HexValue(s[2])] + more.value.0, more.value.1))
  }

  /** How many bytes a character has, by its first one. */
  function LengthByFirst(b: Byte): (n: nat)
    ensures 1 <= n <= 4
  {
    if b < 0x80 then 1 else if b < 0xE0 then 2 else if b < 0xF0 then 3 else 4
  }

  function CodePoint(bytes: seq<int>): int
    requires 1 <= |bytes| <= 4
  {
    if |bytes| == 1 then bytes[0]
    else if |bytes| == 2 then (bytes[0] - 0xC0) * 0x40 + (bytes[1] - 0x80)
    else if |bytes| == 3 then (bytes[0] - 0xE0) * 0x1000 + (bytes[1] - 0x80) * 0x40 + (bytes[2] - 0x80)
    else (bytes[0] - 0xF0) * 0x40000 + (bytes[1] - 0x80) * 0x1000 + (bytes[2] - 0x80) * 0x40 + (bytes[3] - 0x80)
  }

  predicate IsScalar(n: int) {
    0 <= n < 0xD800 || 0xE000 <= n < 0x110000
  }

  /** `decodeURIComponent`, without its check for overlong forms. */
  function Decoded(s: string): Option<string>
    decreases |s|
  {
    if s == "" then Some("")
    else if s[0] != '%' then
      var rest := Decoded(s[1..]);
      if rest.None? then None else Some([s[0]] + rest.value)
    else
      var first := ReadBytes(s, 1);
      if first.None? then None
      else
        var all := ReadBytes(s, LengthByFirst(first.value.0[0]));
        if all.None? || !IsScalar(CodePoint(all.value.0)) then None
        else
          var rest := Decoded(all.value.1);
          if rest.None? then None else Some([CodePoint(all.value.0) as char] + rest.value)
  }

  lemma HexReturns(n: nat)
    requires n < 16
    ensures HexValue(UpperHexDigit(n)) == n
  {
  }

  lemma {:induction false} BytesReturn(bytes: seq<Byte>, rest: string)
    ensures ReadBytes(PercentBytes(bytes) + rest, |bytes|) == Some((bytes, rest))
  {
    var s := PercentBytes(bytes) + rest;
    if bytes == [] {
      assert s == rest;
    } else {
      var b := bytes[0];
      assert s == PercentByte(b) + (PercentBytes(bytes[1..]) + rest);
      assert s[0] == '%' && s[1] == UpperHexDigit(b / 16) && s[2] == UpperHexDigit(b % 16);
      assert s[3..] == PercentBytes(bytes[1..]) + rest;
      HexReturns(b / 16);
      HexReturns(b % 16);
      BytesReturn(bytes[1..], rest);
      assert [b] + bytes[1..] == bytes;
    }
  }

  lemma Utf8Returns(c: char)
    ensures LengthByFirst(Utf8(c)[0]) == |Utf8(c)| && CodePoint(Utf8(c)) == c as int
  {
    var n := c as int;
    if n >= 0x10000 {
      assert n / 0x40000 * 0x40000 + n / 0x1000 % 0x40 * 0x1000 + n / 0x40 % 0x40 * 0x40 + n % 0x40 == n by {
        assert n / 0x1000 == n / 0x40 / 0x40 && n / 0x40000 == n / 0x1000 / 0x40;
      }
    } else if n >= 0x800 {
      assert n / 0x1000 * 0x1000 + n / 0x40 % 0x40 * 0x40 + n % 0x40 == n by { assert n / 0x1000 == n / 0x40 / 0x40; }
    }
  }

  lemma FirstByte(bytes: seq<Byte>, rest: string)
    requires bytes != []
    ensures var s := PercentBytes(bytes) + rest;
            |s| >= 3 && s[0] == '%' && ReadBytes(s, 1).Some? && ReadBytes(s, 1).value.0 == [bytes[0]]
  {
  }

  lemma CharReturns(c: char, rest: string)
    ensures Decoded(EncodedChar(c) + rest)
         == if Decoded(rest).None? then None else Some([c] + Decoded(rest).value)
  {
    var s := EncodedChar(c) + rest;
    if IsUnreserved(c) {
      assert s[0] == c && c != '%' && s[1..] == rest;
    } else {
      FirstByte(Utf8(c), rest);
      BytesReturn(Utf8(c), rest);
      Utf8Returns(c);
    }
  }

  /** Percent-encoding is undone by decoding. */
  lemma {:induction false} EncodedReturns(s: string)
    ensures Decoded(Encoded(s)) == Some(s)
  {
    if s != "" {
      EncodedReturns(s[1..]);
      CharReturns(s[0], Encoded(s[1..]));
      assert [s[0]] + s[1..] == s;
    }
  }

  // ---------------------------------------------------------------- the separator

  predicate NoAt(s: string) {
    '@' !in s
  }

  lemma {:induction false} PercentNoAt(bytes: seq<Byte>)
    ensures NoAt(PercentBytes(bytes))
  {
    if bytes != [] {
      PercentNoAt(bytes[1..]);
      assert '@' !in PercentByte(bytes[0]);
    }
  }

  lemma {:induction false} EncodedNoAt(s: string)
    ensures NoAt(Encoded(s))
  {
    if s != "" {
      PercentNoAt(Utf8(s[0]));
      EncodedNoAt(s[1..]);
    }
  }

  function Joined(ts: seq<string>): string {
    if ts == [] then "" else if |ts| == 1 then ts[0] else ts[0] + ("@" + Joined(ts[1..]))
  }

  /** The parts between the separators, `part` begun before `s`. */
  function Parts(s: string, part: string): seq<string>
    decreases |s|
  {
    if s == "" then [part]
    else if s[0] == '@' then [part] + Parts(s[1..], "")
    else Parts(s[1..], part + [s[0]])
  }

  lemma {:induction false} PartsOfText(t: string, part: string, rest: string)
    requires NoAt(t)
    ensures Parts(t + rest, part) == Parts(rest, part + t)
    decreases |t|
  {
    if t == "" {
      assert t + rest == rest && part + t == part;
    } else {
      assert t[0] in t && (t + rest)[0] == t[0] && (t + rest)[1..] == t[1..] + rest;
      assert forall c | c in t[1..] :: c in t;
      PartsOfText(t[1..], part + [t[0]], rest);
      assert (part + [t[0]]) + t[1..] == part + t;
    }
  }

  lemma {:induction false} PartsReturn(ts: seq<string>)
    requires ts != [] && forall t | t in ts :: NoAt(t)
    ensures Parts(Joined(ts), "") == ts
  {
    var t := ts[0];
    assert NoAt(t) && "" + t == t && t + "" == t;
    if |ts| == 1 {
      PartsOfText(t, "", "");
    } else {
      var rest := "@" + Joined(ts[1..]);
      PartsOfText(t, "", rest);
      assert rest[1..] == Joined(ts[1..]);
      PartsReturn(ts[1..]);
      assert [t] + ts[1..] == ts;
    }
  }

  // ---------------------------------------------------------------- compoundKeyId

  type Row = map<string, Value>

  function At(row: Row, field: string): Value {
    if field in row then row[field] else Undefined
  }

  predicate IsMissing(row: Row, field: string) {
    At(row, field) == Undefined || At(row, field) == Null || At(row, field) == Str("")
  }

  datatype Result = Id(id: string) | Missing(fields: seq<string>)

  function MissingFields(fields: seq<string>, row: Row): seq<string> {
    if fields == [] then []
    else (if IsMissing(row, fields[0]) then [fields[0]] else []) + MissingFields(fields[1..], row)
  }

  function KeyTexts(text: Value -> string, fields: seq<string>, row: Row): (ts: seq<string>)
    ensures |ts| == |fields|
  {
    seq(|fields|, i requires 0 <= i < |fields| => text(At(row, fields[i])))
  }

  function EncodedTexts(ts: seq<string>): (es: seq<string>)
    ensures |es| == |ts|
  {
    seq(|ts|, i requires 0 <= i < |ts| => Encoded(ts[i]))
  }

  /** `text` is `String`. */
  function CompoundKeyId(text: Value -> string, fields: seq<string>, row: Row): Result {
    if MissingFields(fields, row) != [] then Missing(MissingFields(fields, row))
    else Id(Joined(EncodedTexts(KeyTexts(text, fields, row))))
  }

  lemma {:induction false} MissingExactly(fields: seq<string>, row: Row, f: string)
    ensures f in MissingFields(fields, row) <==> f in fields && IsMissing(row, f)
  {
    if fields != [] { MissingExactly(fields[1..], row, f); }
  }

  /** There is an id exactly when every key field has a value; otherwise the fields without one are
      named. */
  lemma IdWhenComplete(text: Value -> string, fields: seq<string>, row: Row)
    ensures CompoundKeyId(text, fields, row).Id? <==> forall f | f in fields :: !IsMissing(row, f)
    ensures CompoundKeyId(text, fields, row).Missing? ==>
              forall f :: f in CompoundKeyId(text, fields, row).fields <==> f in fields && IsMissing(row, f)
  {
    forall f ensures f in MissingFields(fields, row) <==> f in fields && IsMissing(row, f) {
      MissingExactly(fields, row, f);
    }
    if MissingFields(fields, row) != [] {
      assert MissingFields(fields, row)[0] in MissingFields(fields, row);
    }
  }

  /** An id can be taken apart again: its parts decode to the key values as strings, in order. */
  lemma IdReturns(text: Value -> string, fields: seq<string>, row: Row)
    requires fields != [] && CompoundKeyId(text, fields, row).Id?
    ensures var parts := Parts(CompoundKeyId(text, fields, row).id, "");
            var ts := KeyTexts(text, fields, row);
            |parts| == |ts| && forall i | 0 <= i < |ts| :: Decoded(parts[i]) == Some(ts[i])
  {
    var ts := KeyTexts(text, fields, row);
    var es := EncodedTexts(ts);
    forall e | e in es ensures NoAt(e) {
      var i :| 0 <= i < |es| && es[i] == e;
      EncodedNoAt(ts[i]);
    }
    PartsReturn(es);
    forall i | 0 <= i < |ts| ensures Decoded(es[i]) == Some(ts[i]) { EncodedReturns(ts[i]); }
  }

  /** Two complete rows get one id exactly when their key values agree as strings, field by field. */
  lemma IdsAreInjective(text: Value -> string, fields: seq<string>, a: Row, b: Row)
    requires CompoundKeyId(text, fields, a).Id? && CompoundKeyId(text, fields, b).Id?
    ensures CompoundKeyId(text, fields, a) == CompoundKeyId(text, fields, b)
       <==> forall f | f in fields :: text(At(a, f)) == text(At(b, f))
  {
    var s, t := KeyTexts(text, fields, a), KeyTexts(text, fields, b);
    if CompoundKeyId(text, fields, a) == CompoundKeyId(text, fields, b) && fields != [] {
      IdReturns(text, fields, a);
      IdReturns(text, fields, b);
      var parts := Parts(CompoundKeyId(text, fields, a).id, "");
      forall f | f in fields ensures text(At(a, f)) == text(At(b, f)) {
        var i :| 0 <= i < |fields| && fields[i] == f;
        assert Decoded(parts[i]) == Some(s[i]) && Decoded(parts[i]) == Some(t[i]);
      }
    }
    if forall f | f in fields :: text(At(a, f)) == text(At(b, f)) {
      forall i | 0 <= i < |fields| ensures s[i] == t[i] { assert fields[i] in fields; }
      assert s == t;
    }
  }
}
