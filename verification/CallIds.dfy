/**
 The fallback allocator that pairs agy tool calls with their results when agy
 sends no call id (omnicraft/antigravity_native_steps.py, `_ToolCallIdAllocator`).
 */
module CallIds {
  import opened PyText
  import opened Sequences

  datatype Allocator = Allocator(conversation: string, invocations: nat, orphans: nat, pending: seq<string>)

  function Fresh(conversation: string): Allocator {
    Allocator(conversation, 0, 0, [])
  }

  function CallName(conversation: string, n: nat): string {
    "agy_call_" + conversation + "_" + Decimal(n)
  }

  function OrphanName(conversation: string, n: nat): string {
    "agy_call_" + conversation + "_orphan_" + Decimal(n)
  }

  function Claim(a: Allocator): (string, Allocator) {
    var id := CallName(a.conversation, a.invocations);
    (id, a.(invocations := a.invocations + 1, pending := a.pending + [id]))
  }

  function Match(a: Allocator): (string, Allocator) {
    if a.pending != [] then (a.pending[0], a.(pending := a.pending[1..]))
    else (OrphanName(a.conversation, a.orphans), a.(orphans := a.orphans + 1))
  }

  class ToolCallIdAllocator {
    const conversationId: string
    var invocationCount: nat
    var orphanOutputCount: nat
    var pendingCallIds: seq<string>

    ghost function Value(): Allocator
      reads this
    {
      Allocator(conversationId, invocationCount, orphanOutputCount, pendingCallIds)
    }

    constructor (conversationId: string)
      ensures Value() == Fresh(conversationId)
    {
      this.conversationId := conversationId;
      invocationCount, orphanOutputCount, pendingCallIds := 0, 0, [];
    }

    method ClaimCallId() returns (id: string)
      modifies this
      ensures (id, Value()) == Claim(old(Value()))
    {
      id := CallName(conversationId, invocationCount);
      invocationCount := invocationCount + 1;
      pendingCallIds := pendingCallIds + [id];
    }

    method MatchOutputId() returns (id: string)
      modifies this
      ensures (id, Value()) == Match(old(Value()))
    {
      if pendingCallIds != [] {
        id := pendingCallIds[0];
        pendingCallIds := pendingCallIds[1..];
        return;
      }
      id := OrphanName(conversationId, orphanOutputCount);
      orphanOutputCount := orphanOutputCount + 1;
    }
  }

  lemma CallNamesDiffer(conversation: string, m: nat, n: nat)
    ensures CallName(conversation, m) == CallName(conversation, n) ==> m == n
    ensures OrphanName(conversation, m) == OrphanName(conversation, n) ==> m == n
    ensures CallName(conversation, m) != OrphanName(conversation, n)
  {
    DecimalRoundTrip(m);
    DecimalRoundTrip(n);
    var prefix := "agy_call_" + conversation + "_";
    assert CallName(conversation, m)[|prefix|..] == Decimal(m) && CallName(conversation, n)[|prefix|..] == Decimal(n);
    var orphan := "agy_call_" + conversation + "_orphan_";
    assert OrphanName(conversation, m)[|orphan|..] == Decimal(m) && OrphanName(conversation, n)[|orphan|..] == Decimal(n);
    assert OrphanName(conversation, n)[|prefix|] == 'o';
    assert CallName(conversation, m)[|prefix|] == Decimal(m)[0];
    assert Decimal(m)[0] in Decimal(m);
  }

  /** Uses of the allocator: an invocation claims an id, a result without one matches. */
  datatype Use = Invocation | Result

  datatype History = History(allocator: Allocator, calls: seq<string>, outputs: seq<string>)

  function RunUses(conversation: string, uses: seq<Use>): History {
    if uses == [] then History(Fresh(conversation), [], [])
    else
      var h := RunUses(conversation, uses[..|uses| - 1]);
      match uses[|uses| - 1]
      case Invocation =>
        var (id, a) := Claim(h.allocator);
        History(a, h.calls + [id], h.outputs)
      case Result =>
        var (id, a) := Match(h.allocator);
        History(a, h.calls, h.outputs + [id])
  }

  function Count(uses: seq<Use>, use: Use): nat {
    if uses == [] then 0
    else Count(uses[..|uses| - 1], use) + (if uses[|uses| - 1] == use then 1 else 0)
  }

  /** At every point there have been no more results than invocations. */
  ghost predicate NeverAhead(uses: seq<Use>) {
    forall k | 0 <= k <= |uses| :: Count(uses[..k], Result) <= Count(uses[..k], Invocation)
  }

  ghost predicate IsMatched(conversation: string, id: string, matched: nat) {
    exists n: nat :: n < matched && id == CallName(conversation, n)
  }

  ghost predicate IsOrphan(conversation: string, id: string, orphans: nat) {
    exists n: nat :: n < orphans && id == OrphanName(conversation, n)
  }

  /** Every output is a call or an orphan, and what is pending is the calls not yet matched, oldest first. */
  ghost predicate Consistent(conversation: string, h: History, matched: nat) {
    && h.allocator.conversation == conversation
    && matched <= |h.calls| == h.allocator.invocations
    && h.allocator.pending == h.calls[matched..]
    && |h.outputs| == matched + h.allocator.orphans
    && (forall i | 0 <= i < |h.calls| :: h.calls[i] == CallName(conversation, i))
    && (forall i | 0 <= i < |h.outputs| ::
          IsMatched(conversation, h.outputs[i], matched) || IsOrphan(conversation, h.outputs[i], h.allocator.orphans))
    && NoDuplicates(h.calls) && NoDuplicates(h.outputs)
  }

  lemma ClaimKeeps(conversation: string, h: History, h': History, matched: nat)
    requires Consistent(conversation, h, matched)
    requires var (id, a) := Claim(h.allocator); h' == History(a, h.calls + [id], h.outputs)
    ensures Consistent(conversation, h', matched)
  {
    forall i | 0 <= i < |h.calls| ensures h.calls[i] != CallName(conversation, |h.calls|) {
      CallNamesDiffer(conversation, i, |h.calls|);
    }
  }

  lemma OutputsBefore(conversation: string, h: History, matched: nat, i: nat)
    requires Consistent(conversation, h, matched) && i < |h.outputs|
    ensures h.outputs[i] != CallName(conversation, matched)
    ensures h.outputs[i] != OrphanName(conversation, h.allocator.orphans)
    ensures IsMatched(conversation, h.outputs[i], matched + 1)
            || IsOrphan(conversation, h.outputs[i], h.allocator.orphans + 1)
  {
    if IsMatched(conversation, h.outputs[i], matched) {
      var n: nat :| n < matched && h.outputs[i] == CallName(conversation, n);
      CallNamesDiffer(conversation, n, matched);
      CallNamesDiffer(conversation, n, h.allocator.orphans);
    } else {
      var n: nat :| n < h.allocator.orphans && h.outputs[i] == OrphanName(conversation, n);
      CallNamesDiffer(conversation, matched, n);
      CallNamesDiffer(conversation, n, h.allocator.orphans);
    }
  }

  lemma MatchKeeps(conversation: string, h: History, h': History, matched: nat) returns (matched': nat)
    requires Consistent(conversation, h, matched)
    requires var (id, a) := Match(h.allocator); h' == History(a, h.calls, h.outputs + [id])
    ensures matched' == if h.allocator.pending == [] then matched else matched + 1
    ensures Consistent(conversation, h', matched')
  {
    matched' := if h.allocator.pending == [] then matched else matched + 1;
    var last := h'.outputs[|h.outputs|];
    if h.allocator.pending == [] {
      assert last == OrphanName(conversation, h.allocator.orphans);
    } else {
      assert last == CallName(conversation, matched);
    }
    forall i | 0 <= i < |h.outputs|
      ensures h'.outputs[i] != last
      ensures IsMatched(conversation, h'.outputs[i], matched')
              || IsOrphan(conversation, h'.outputs[i], h'.allocator.orphans)
    {
      assert h'.outputs[i] == h.outputs[i];
      OutputsBefore(conversation, h, matched, i);
      assert IsMatched(conversation, h.outputs[i], matched) || IsOrphan(conversation, h.outputs[i], h.allocator.orphans);
    }
  }

  lemma {:induction false} RunConsistent(conversation: string, uses: seq<Use>) returns (matched: nat)
    ensures Consistent(conversation, RunUses(conversation, uses), matched)
    ensures |RunUses(conversation, uses).calls| == Count(uses, Invocation)
    ensures |RunUses(conversation, uses).outputs| == Count(uses, Result)
  {
    if uses == [] {
      matched := 0;
    } else {
      var init := uses[..|uses| - 1];
      matched := RunConsistent(conversation, init);
      if uses[|uses| - 1] == Invocation {
        ClaimKeeps(conversation, RunUses(conversation, init), RunUses(conversation, uses), matched);
      } else {
        matched := MatchKeeps(conversation, RunUses(conversation, init), RunUses(conversation, uses), matched);
      }
    }
  }

  /**
   With no agy ids at all: no id is ever handed out twice to calls or twice to
   results, and the n-th result gets the n-th call's id for every n exactly
   when no result ever came before its call.
   */
  lemma AllocatorPairsFifo(conversation: string, uses: seq<Use>)
    ensures var h := RunUses(conversation, uses);
            && NoDuplicates(h.calls) && NoDuplicates(h.outputs)
            && |h.calls| == Count(uses, Invocation) && |h.outputs| == Count(uses, Result)
            && (h.outputs <= h.calls <==> NeverAhead(uses))
  {
    var matched := RunConsistent(conversation, uses);
    OrphansExactly(conversation, uses);
  }

  /**
   No orphan id is minted exactly when results never get ahead: then the
   outputs are the oldest calls in order, and otherwise some output is no call.
   */
  lemma {:induction false} OrphansExactly(conversation: string, uses: seq<Use>)
    ensures var h := RunUses(conversation, uses);
            && (h.allocator.orphans == 0 <==> NeverAhead(uses))
            && (h.allocator.orphans == 0 <==> h.outputs <= h.calls)
  {
    if uses != [] {
      var init := uses[..|uses| - 1];
      OrphansExactly(conversation, init);
      NeverAheadSnoc(uses);
      var h, h' := RunUses(conversation, init), RunUses(conversation, uses);
      var before := RunConsistent(conversation, init);
      var after := RunConsistent(conversation, uses);
      if uses[|uses| - 1] == Invocation {
        ClaimPrefix(conversation, h, h', before);
      } else {
        MatchPrefix(conversation, h, h', before);
      }
      if h'.allocator.orphans > 0 {
        SurplusOutputIsOrphan(conversation, uses);
      }
    }
  }

  lemma ClaimPrefix(conversation: string, h: History, h': History, matched: nat)
    requires Consistent(conversation, h, matched)
    requires var (id, a) := Claim(h.allocator); h' == History(a, h.calls + [id], h.outputs)
    ensures h'.allocator.orphans == h.allocator.orphans
    ensures h.allocator.orphans == 0 ==> |h'.outputs| <= |h'.calls|
    ensures h.outputs <= h.calls ==> h'.outputs <= h'.calls
  {
  }

  lemma MatchPrefix(conversation: string, h: History, h': History, matched: nat)
    requires Consistent(conversation, h, matched)
    requires var (id, a) := Match(h.allocator); h' == History(a, h.calls, h.outputs + [id])
    ensures h'.allocator.orphans == 0 <==> h.allocator.orphans == 0 && |h'.outputs| <= |h'.calls|
    ensures h'.allocator.orphans == 0 && h.outputs <= h.calls ==> h'.outputs <= h'.calls
  {
    if h.allocator.pending != [] {
      assert h.allocator.pending[0] == h.calls[matched];
    }
  }

  lemma {:induction false} NeverAheadSnoc(uses: seq<Use>)
    requires uses != []
    ensures NeverAhead(uses) <==> NeverAhead(uses[..|uses| - 1]) && Count(uses, Result) <= Count(uses, Invocation)
  {
    var init := uses[..|uses| - 1];
    assert forall k | 0 <= k <= |init| :: uses[..k] == init[..k];
    assert uses[..|uses|] == uses;
  }

  /** An orphan id, once minted, is some output, and outputs are never forgotten. */
  lemma {:induction false} SurplusOutputIsOrphan(conversation: string, uses: seq<Use>)
    requires RunUses(conversation, uses).allocator.orphans > 0
    ensures !(RunUses(conversation, uses).outputs <= RunUses(conversation, uses).calls)
  {
    var matched := RunConsistent(conversation, uses);
    OrphanIsOutput(conversation, uses);
    var h := RunUses(conversation, uses);
    var i :| 0 <= i < |h.outputs| && h.outputs[i] == OrphanName(conversation, 0);
    if h.outputs <= h.calls {
      CallNamesDiffer(conversation, i, 0);
    }
  }

  lemma {:induction false} OrphanIsOutput(conversation: string, uses: seq<Use>)
    requires RunUses(conversation, uses).allocator.orphans > 0
    ensures OrphanName(conversation, 0) in RunUses(conversation, uses).outputs
  {
    if uses != [] {
      var init := uses[..|uses| - 1];
      var matched := RunConsistent(conversation, init);
      if RunUses(conversation, init).allocator.orphans > 0 {
        OrphanIsOutput(conversation, init);
      }
    }
  }
}
