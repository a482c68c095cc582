/** A few facts about sequences that the solver is better told than left to find. */
module Seqs {

  lemma Middle<T>(a: seq<T>, x: T, b: seq<T>)
    ensures |a + [x] + b| == |a| + 1 + |b|
    ensures (a + [x] + b)[..|a|] == a && (a + [x] + b)[|a|] == x && (a + [x] + b)[|a| + 1..] == b
  {
  }

  lemma Halves<T>(a: seq<T>, b: seq<T>)
    ensures (a + b)[..|a|] == a && (a + b)[|a|..] == b
  {
  }

  lemma Rejoin<T>(s: seq<T>, k: int)
    requires 0 <= k < |s|
    ensures s[..k] + [s[k]] + s[k + 1..] == s
    ensures s[..k + 1] + s[k + 1..] == s
    ensures s[..k] + s[k..] == s
  {
  }

  lemma Assoc<T>(a: seq<T>, b: seq<T>, c: seq<T>)
    ensures (a + b) + c == a + (b + c)
  {
  }

  /** The elements are distinct, and place tells where each one is. */
  ghost predicate Placed<T>(s: seq<T>, place: map<T, nat>) {
    && (forall i :: 0 <= i < |s| ==> s[i] in place && place[s[i]] == i)
    && (forall o :: o in place ==> place[o] < |s| && s[place[o]] == o)
  }
}
