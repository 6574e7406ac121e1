// Laws of concatenation, named so that a proof can use them one at a time.
module Sequences {

  lemma Assoc<T>(a: seq<T>, b: seq<T>, c: seq<T>)
    ensures a + b + c == a + (b + c)
  {
  }

  lemma Empty<T>(a: seq<T>)
    ensures a + [] == a && [] + a == a
  {
  }

  // An element moves from the front of one to the end of the other.
  lemma Moved<T>(a: seq<T>, b: seq<T>)
    requires b != []
    ensures (a + [b[0]]) + b[1..] == a + b
  {
  }

  // What is behind p + i, from p on.
  lemma SuffixAt<T>(s: seq<T>, p: nat, i: nat)
    requires p + i <= |s|
    ensures s[p..][i..] == s[p + i..]
    ensures p + i < |s| ==> s[p..][i] == s[p + i]
  {
  }

  lemma TakeThenDrop<T>(s: seq<T>, n: nat, j: nat)
    requires n + j <= |s|
    ensures s[..n + j][n..] == s[n..][..j]
  {
  }

  function Join<T>(ws: seq<seq<T>>): seq<T> {
    if ws == [] then [] else ws[0] + Join(ws[1..])
  }
}
