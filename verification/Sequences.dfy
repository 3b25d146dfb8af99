/** Small facts about sequences. */
module Sequences {

  ghost predicate NoDuplicates<T>(xs: seq<T>) {
    forall i, j | 0 <= i < j < |xs| :: xs[i] != xs[j]
  }

  lemma {:induction false} NoDuplicatesFit<T>(xs: seq<T>, all: set<T>)
    requires NoDuplicates(xs) && forall x | x in xs :: x in all
    ensures |xs| <= |all|
  {
    if xs != [] {
      var last := xs[|xs| - 1];
      forall x | x in xs[..|xs| - 1]
        ensures x in all - {last}
      {
        var i :| 0 <= i < |xs| - 1 && xs[i] == x;
      }
      NoDuplicatesFit(xs[..|xs| - 1], all - {last});
      assert last in all;
    }
  }

  lemma Assoc<T>(a: seq<T>, b: seq<T>, c: seq<T>)
    ensures (a + b) + c == a + (b + c)
  {
  }
}
