/**
 The re-post loop of one elicitation (omnicraft/antigravity_native_reader.py,
 `_post_agy_elicitation_request`). Times are in seconds; the clock is read
 before the first post and after each failed one.
 */
module ElicitationPost {
  import opened Wrappers

  const REQUEST_TIMEOUT := 86405.0
  const INITIAL_BACKOFF := 1.0
  const MAX_BACKOFF := 30.0

  /** A post returns a status or fails in transport; the post and the sleep after it take some time. */
  datatype Try = Try(status: Option<int>, posted: real, slept: real)

  predicate IsFinal(t: Try) {
    t.status.Some? && t.status.value < 500
  }

  function Doubled(backoff: real): real {
    if backoff * 2.0 < MAX_BACKOFF then backoff * 2.0 else MAX_BACKOFF
  }

  /** The length of the sleep after the n-th failed post, counted from 0. */
  function Backoff(n: nat): (b: real)
    ensures INITIAL_BACKOFF <= b <= MAX_BACKOFF
  {
    if n == 0 then INITIAL_BACKOFF else Doubled(Backoff(n - 1))
  }

  /** The clock at the start of the n-th post. */
  function Clock(start: real, tries: nat -> Try, n: nat): real {
    if n == 0 then start else Clock(start, tries, n - 1) + tries(n - 1).posted + tries(n - 1).slept
  }

  /** After the n-th post the budget does not cover another sleep. */
  predicate Exhausted(start: real, tries: nat -> Try, n: nat) {
    Clock(start, tries, n) + tries(n).posted + Backoff(n) >= start + REQUEST_TIMEOUT
  }

  /** Time does not run backwards, and a sleep takes at least its length. */
  ghost predicate Passes(tries: nat -> Try) {
    forall n: nat :: tries(n).posted >= 0.0 && tries(n).slept >= Backoff(n)
  }

  predicate Continues(start: real, tries: nat -> Try, n: nat) {
    !IsFinal(tries(n)) && !Exhausted(start, tries, n)
  }

  /** The loop goes on after each of the first `n` posts. */
  ghost predicate GoesOn(start: real, tries: nat -> Try, n: nat) {
    forall k: nat | k < n :: Continues(start, tries, k)
  }

  method PostAgyElicitationRequest(start: real, tries: nat -> Try) returns (response: Option<int>, sleeps: nat)
    requires Passes(tries)
    ensures sleeps <= 2884
    ensures GoesOn(start, tries, sleeps)
    ensures response.Some? ==> IsFinal(tries(sleeps)) && response == tries(sleeps).status
    ensures response.None? ==> !IsFinal(tries(sleeps)) && Exhausted(start, tries, sleeps)
    // a status below 500 is handed back at once, anything else is posted again
    ensures response.Some? ==> response.value < 500
    ensures forall k: nat | k < sleeps || (k == sleeps && response.None?) ::
              tries(k).status.None? || tries(k).status.value >= 500
  {
    var deadline := start + REQUEST_TIMEOUT;
    var now, backoff := start, INITIAL_BACKOFF;
    sleeps := 0;
    while true
      invariant now == Clock(start, tries, sleeps) && backoff == Backoff(sleeps)
      invariant GoesOn(start, tries, sleeps)
      invariant forall k: nat | k < sleeps :: tries(k).status.None? || tries(k).status.value >= 500
      invariant sleeps <= 2884
      decreases 2884 - sleeps
    {
      var t := tries(sleeps);
      now := now + t.posted;
      if t.status.Some? && t.status.value < 500 {
        return t.status, sleeps;
      }
      if now + backoff >= deadline {
        return None, sleeps;
      }
      assert Continues(start, tries, sleeps);
      SleepsAreBounded(start, tries, sleeps + 1);
      now := now + t.slept;
      sleeps := sleeps + 1;
      backoff := Doubled(backoff);
    }
  }

  // ----- the budget -----

  function SleepSum(n: nat): real {
    if n == 0 then 0.0 else SleepSum(n - 1) + Backoff(n - 1)
  }

  /** 1, 2, 4, 8, 16, then 30 each. */
  lemma {:induction false} SleepSums(n: nat)
    requires n >= 5
    ensures Backoff(n) == MAX_BACKOFF
    ensures SleepSum(n) == 31.0 + 30.0 * (n - 5) as real
  {
    if n == 5 {
      assert Backoff(1) == 2.0 && Backoff(2) == 4.0 && Backoff(3) == 8.0 && Backoff(4) == 16.0;
      assert SleepSum(1) == 1.0 && SleepSum(2) == 3.0 && SleepSum(3) == 7.0 && SleepSum(4) == 15.0;
    } else {
      SleepSums(n - 1);
    }
  }

  lemma {:induction false} ClockCoversSleeps(start: real, tries: nat -> Try, n: nat)
    requires Passes(tries)
    ensures Clock(start, tries, n) >= start + SleepSum(n)
  {
    if n > 0 {
      ClockCoversSleeps(start, tries, n - 1);
    }
  }

  /** The length of each sleep. */
  function SleepLength(n: nat): real {
    if n < 5 then [1.0, 2.0, 4.0, 8.0, 16.0][n] else 30.0
  }

  /** The loop gives up exactly when the next sleep would not end before 86405 seconds have passed. */
  lemma ExhaustedExactly(start: real, tries: nat -> Try, n: nat)
    ensures Exhausted(start, tries, n)
            <==> Clock(start, tries, n) + tries(n).posted + SleepLength(n) - start >= 86405.0
  {
    if n >= 5 {
      SleepSums(n);
    } else {
      assert Backoff(1) == 2.0 && Backoff(2) == 4.0 && Backoff(3) == 8.0 && Backoff(4) == 16.0;
    }
  }

  /** Whatever the posts do, at most 2884 sleeps fit in the budget. */
  lemma SleepsAreBounded(start: real, tries: nat -> Try, n: nat)
    requires Passes(tries) && GoesOn(start, tries, n)
    ensures n <= 2884
  {
    ExhaustedByThen(start, tries);
    assert n > 2884 ==> Continues(start, tries, 2884);
  }

  lemma ExhaustedByThen(start: real, tries: nat -> Try)
    requires Passes(tries)
    ensures Exhausted(start, tries, 2884)
  {
    ClockCoversSleeps(start, tries, 2884);
    SleepSums(2884);
  }

  /** Every post fails at once and every sleep takes exactly its length. */
  const REFUSED: nat -> Try := (n: nat) => Try(None, 0.0, Backoff(n))

  lemma RefusedContinues(start: real, n: nat)
    ensures Continues(start, REFUSED, n) <==> n < 2884
  {
    RefusedClock(start, n);
    if n >= 5 {
      SleepSums(n);
    } else {
      SmallSums(n);
    }
  }

  /** The bound is met: against a server that refuses at once the loop gives up after exactly 2884 sleeps. */
  lemma BoundIsMet(start: real, n: nat)
    ensures GoesOn(start, REFUSED, n) && !Continues(start, REFUSED, n) <==> n == 2884
  {
    forall k: nat
      ensures Continues(start, REFUSED, k) <==> k < 2884
    {
      RefusedContinues(start, k);
    }
    assert n > 2884 ==> !Continues(start, REFUSED, 2884);
  }

  lemma {:induction false} RefusedClock(start: real, n: nat)
    ensures Clock(start, REFUSED, n) == start + SleepSum(n)
  {
    if n > 0 {
      RefusedClock(start, n - 1);
    }
  }

  lemma {:induction false} SmallSums(n: nat)
    ensures SleepSum(n) <= 30.0 * n as real
  {
    if n > 0 {
      SmallSums(n - 1);
    }
  }
}
