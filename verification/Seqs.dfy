// Small facts about sequences that proofs elsewhere call by name.
module Seqs {

  lemma Assoc<T>(a: seq<T>, b: seq<T>, c: seq<T>)
    ensures a + (b + c) == a + b + c
  {}

  lemma SliceSlice<T>(s: seq<T>, a: nat, n: nat, i: nat, j: nat)
    requires a <= n <= |s| && i <= j <= n - a
    ensures s[a..n][i..j] == s[a + i..a + j]
  {
    assert forall k | 0 <= k < j - i :: s[a..n][i..j][k] == s[a..n][i + k] == s[a + i + k];
  }

  function Last<T>(s: seq<T>): T
    requires s != []
  {
    s[|s| - 1]
  }

  lemma SplitLast<T>(s: seq<T>)
    requires s != []
    ensures s == s[..|s| - 1] + [Last(s)]
  {}

  function Concat<T>(parts: seq<seq<T>>): seq<T> {
    if parts == [] then [] else parts[0] + Concat(parts[1..])
  }

  ghost predicate Distinct<T>(s: seq<T>) {
    forall i, j :: 0 <= i < j < |s| ==> s[i] != s[j]
  }

  // a stands somewhere before b.
  ghost predicate DeclaredBefore<T>(s: seq<T>, a: T, b: T) {
    exists i, j :: 0 <= i < j < |s| && s[i] == a && s[j] == b
  }
}
