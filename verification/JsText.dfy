/** White space and trimming as in JavaScript. */
module JsText {
  /** What `\s` matches and `trim` removes. */
  predicate IsSpace(c: char) {
    c == ' ' || '\t' <= c <= '\r' || c == '\U{A0}' || c == '\U{1680}' || '\U{2000}' <= c <= '\U{200A}'
    || c == '\U{2028}' || c == '\U{2029}' || c == '\U{202F}' || c == '\U{205F}' || c == '\U{3000}' || c == '\U{FEFF}'
  }

  function Upper(c: char): char {
    if 'a' <= c <= 'z' then (c as int - 32) as char else c
  }

  /** `toUpperCase`, as far as ASCII goes. */
  function UpperCase(s: string): (r: string)
    ensures |r| == |s|
  {
    seq(|s|, i requires 0 <= i < |s| => Upper(s[i]))
  }

  function TrimStart(s: string): string {
    if s != "" && IsSpace(s[0]) then TrimStart(s[1..]) else s
  }

  function TrimEnd(s: string): string {
    if s != "" && IsSpace(s[|s| - 1]) then TrimEnd(s[..|s| - 1]) else s
  }

  function Trim(s: string): string {
    TrimEnd(TrimStart(s))
  }

  predicate Trimmed(s: string) {
    s == "" || (!IsSpace(s[0]) && !IsSpace(s[|s| - 1]))
  }

  lemma TrimmedStays(s: string)
    requires Trimmed(s)
    ensures Trim(s) == s
  {
  }

  /** Letters become the capitals at their place in the alphabet, and other characters stay. */
  lemma UpperByAlphabet(s: string, i: nat, k: nat)
    requires i < |s| && k < 26
    ensures s[i] == "abcdefghijklmnopqrstuvwxyz"[k] ==> UpperCase(s)[i] == "ABCDEFGHIJKLMNOPQRSTUVWXYZ"[k]
    ensures s[i] !in "abcdefghijklmnopqrstuvwxyz" ==> UpperCase(s)[i] == s[i]
  {
    var lower := "abcdefghijklmnopqrstuvwxyz";
    assert lower[k] as int == 97 + k && "ABCDEFGHIJKLMNOPQRSTUVWXYZ"[k] as int == 65 + k;
    if 'a' <= s[i] <= 'z' { assert lower[s[i] as int - 97] == s[i]; }
  }

  predicate AllSpaces(s: string) {
    forall c | c in s :: IsSpace(c)
  }

  lemma {:induction false} StartTrimmed(a: string, s: string)
    requires AllSpaces(a) && s != "" && !IsSpace(s[0])
    ensures TrimStart(a + s) == s
  {
    if a == "" {
      assert a + s == s;
    } else {
      assert a[0] in a && (a + s)[0] == a[0] && (a + s)[1..] == a[1..] + s;
      StartTrimmed(a[1..], s);
    }
  }

  lemma {:induction false} EndTrimmed(s: string, b: string)
    requires AllSpaces(b) && s != "" && !IsSpace(s[|s| - 1])
    ensures TrimEnd(s + b) == s
  {
    if b == "" {
      assert s + b == s;
    } else {
      var n := |b| - 1;
      assert b[n] in b && (s + b)[|s + b| - 1] == b[n] && (s + b)[..|s + b| - 1] == s + b[..n];
      EndTrimmed(s, b[..n]);
    }
  }

  /** Trimming drops the white space around a text, and nothing else. */
  lemma TrimPadded(a: string, s: string, b: string)
    requires AllSpaces(a) && AllSpaces(b) && s != "" && Trimmed(s)
    ensures Trim(a + (s + b)) == s
  {
    assert (s + b)[0] == s[0];
    StartTrimmed(a, s + b);
    EndTrimmed(s, b);
  }
}
