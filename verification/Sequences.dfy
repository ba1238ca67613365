/** Regrouping of concatenations. */
module Sequences {
  lemma Regroup<T>(a: seq<T>, b: seq<T>, c: seq<T>)
    ensures a + (b + c) == (a + b) + c
  {
  }

  lemma Front1<T>(s: seq<T>, rest: seq<T>)
    requires s != []
    ensures s + rest == [s[0]] + (s[1..] + rest)
  {
  }

  lemma Front2<T>(s: seq<T>, rest: seq<T>)
    requires |s| >= 2
    ensures s + rest == [s[0]] + ([s[1]] + (s[2..] + rest))
  {
  }

  lemma SplitAt<T>(s: seq<T>, i: nat)
    requires i < |s|
    ensures s == s[..i] + ([s[i]] + s[i + 1..])
  {
  }

  /** The first element of what is to come moves to the end of what is there. */
  lemma Shift<T>(acc: seq<T>, xs: seq<T>)
    requires xs != []
    ensures (acc + [xs[0]]) + xs[1..] == acc + xs
  {
  }
}
