/**
 Lists in which the elements that pass a test meet a fate, in order, up to a
 limit: the j-th of them is replaced by `fate(t, base + j)` while j is below
 the limit, and everything else stays as it is.
 */
module RankedFates {
  import opened Sequences

  function Selected<T>(items: seq<T>, test: T -> bool): seq<T> {
    if items == [] then []
    else Selected(items[..|items| - 1], test) + (if test(items[|items| - 1]) then [items[|items| - 1]] else [])
  }

  /** What becomes of one element that has `j` selected ones before it. */
  function FateOf<T>(t: T, j: nat, test: T -> bool, fate: (T, nat) -> seq<T>, base: nat, limit: nat): seq<T> {
    if !test(t) || j >= limit then [t] else fate(t, base + j)
  }

  function Result<T>(items: seq<T>, test: T -> bool, fate: (T, nat) -> seq<T>, base: nat, limit: nat): seq<T> {
    if items == [] then []
    else
      var init, t := items[..|items| - 1], items[|items| - 1];
      Result(init, test, fate, base, limit) + FateOf(t, |Selected(init, test)|, test, fate, base, limit)
  }

  function Past(k: nat, n: nat): nat {
    if k > n then k - n else 0
  }

  /** A limit beyond the selected elements makes no difference. */
  lemma {:induction false} Saturates<T>(items: seq<T>, test: T -> bool, fate: (T, nat) -> seq<T>, base: nat, k: nat, m: nat)
    requires k >= |Selected(items, test)| && m >= |Selected(items, test)|
    ensures Result(items, test, fate, base, k) == Result(items, test, fate, base, m)
  {
    if items != [] {
      Saturates(items[..|items| - 1], test, fate, base, k, m);
    }
  }

  lemma {:induction false} LimitZero<T>(items: seq<T>, test: T -> bool, fate: (T, nat) -> seq<T>, base: nat)
    ensures Result(items, test, fate, base, 0) == items
  {
    if items != [] {
      LimitZero(items[..|items| - 1], test, fate, base);
    }
  }

  lemma {:induction false} SelectedAppend<T>(a: seq<T>, b: seq<T>, test: T -> bool)
    ensures Selected(a + b, test) == Selected(a, test) + Selected(b, test)
  {
    if b == [] {
      assert a + b == a;
    } else {
      assert (a + b)[..|a + b| - 1] == a + b[..|b| - 1];
      SelectedAppend(a, b[..|b| - 1], test);
    }
  }

  /** Working through two lists in turn is working through their concatenation. */
  lemma {:induction false} ResultAppend<T>(a: seq<T>, b: seq<T>, test: T -> bool, fate: (T, nat) -> seq<T>, base: nat, k: nat)
    ensures var n := |Selected(a, test)|;
            Result(a + b, test, fate, base, k)
            == Result(a, test, fate, base, k) + Result(b, test, fate, base + n, Past(k, n))
  {
    if b == [] {
      assert a + b == a;
    } else {
      var init, t := b[..|b| - 1], b[|b| - 1];
      var n := |Selected(a, test)|;
      assert (a + b)[..|a + b| - 1] == a + init;
      ResultAppend(a, init, test, fate, base, k);
      SelectedAppend(a, init, test);
      FateShift(t, n, |Selected(init, test)|, test, fate, base, k);
      Assoc(Result(a, test, fate, base, k), Result(init, test, fate, base + n, Past(k, n)),
            FateOf(t, |Selected(init, test)|, test, fate, base + n, Past(k, n)));
    }
  }

  lemma FateShift<T>(t: T, n: nat, j: nat, test: T -> bool, fate: (T, nat) -> seq<T>, base: nat, k: nat)
    ensures FateOf(t, n + j, test, fate, base, k) == FateOf(t, j, test, fate, base + n, Past(k, n))
  {
    assert base + (n + j) == (base + n) + j;
  }

  lemma TakeAcross<T>(a: seq<T>, b: seq<T>, k1: nat, k: nat)
    requires k1 <= k && k1 <= |a| && (k1 < |a| ==> k == k1) && k - k1 <= |b|
    ensures k <= |a + b| && a[..k1] + b[..k - k1] == (a + b)[..k]
  {
  }

  /** Two lists in turn, the second only once the first is exhausted. */
  lemma TwoLists<T>(a: seq<T>, b: seq<T>, test: T -> bool, fate: (T, nat) -> seq<T>, k1: nat, k: nat)
    requires k1 <= k && k1 <= |Selected(a, test)| && (k1 < |Selected(a, test)| ==> k == k1)
    ensures Result(a, test, fate, 0, k1) + Result(b, test, fate, k1, k - k1) == Result(a + b, test, fate, 0, k)
  {
    ResultAppend(a, b, test, fate, 0, k);
    if k1 < |Selected(a, test)| {
      LimitZero(b, test, fate, k1);
      LimitZero(b, test, fate, |Selected(a, test)|);
    } else {
      Saturates(a, test, fate, 0, k1, k);
    }
  }

  /** The selected elements are those of the list that pass the test, each in its own place. */
  lemma {:induction false} SelectedFrom<T>(items: seq<T>, test: T -> bool)
    ensures forall t :: t in Selected(items, test) <==> t in items && test(t)
  {
    if items != [] {
      SelectedFrom(items[..|items| - 1], test);
      assert forall t :: t in items <==> t in items[..|items| - 1] || t == items[|items| - 1];
    }
  }

  /** Every element of the result was left alone or comes from the fate of the selected one it replaces. */
  lemma {:induction false} ResultFrom<T>(items: seq<T>, test: T -> bool, fate: (T, nat) -> seq<T>, base: nat, k: nat, r: T)
    returns (j: nat)
    requires r in Result(items, test, fate, base, k)
    ensures j <= |Selected(items, test)|
    ensures if j == |Selected(items, test)| then r in items && !test(r)
            else if j < k then r in fate(Selected(items, test)[j], base + j)
            else r == Selected(items, test)[j]
  {
    var init, t := items[..|items| - 1], items[|items| - 1];
    if r in Result(init, test, fate, base, k) {
      j := ResultFrom(init, test, fate, base, k, r);
      if j == |Selected(init, test)| {
        j := |Selected(items, test)|;
      }
    } else {
      j := |Selected(init, test)|;
    }
  }

  /** Elements that fail the test are all still there. */
  lemma {:induction false} UnselectedStay<T>(items: seq<T>, test: T -> bool, fate: (T, nat) -> seq<T>, base: nat, k: nat, t: T)
    requires t in items && !test(t)
    ensures t in Result(items, test, fate, base, k)
  {
    if t != items[|items| - 1] {
      UnselectedStay(items[..|items| - 1], test, fate, base, k, t);
    }
  }

  /** What the fate of an attempted element leaves is there too. */
  lemma {:induction false} FatesShow<T>(items: seq<T>, test: T -> bool, fate: (T, nat) -> seq<T>, base: nat, k: nat, j: nat, r: T)
    requires j < |Selected(items, test)| && j < k && r in fate(Selected(items, test)[j], base + j)
    ensures r in Result(items, test, fate, base, k)
  {
    var init := items[..|items| - 1];
    if j < |Selected(init, test)| {
      FatesShow(init, test, fate, base, k, j, r);
    }
  }
}
