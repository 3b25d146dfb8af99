/**
 The search for the agy process at or beneath a tmux pane
 (omnicraft/antigravity_native_rpc.py, `_agy_pid_in_pane_subtree`), over a
 fixed process graph that may contain cycles.
 */
module PaneSearch {
  import opened Wrappers

  const MAX_PANE_SUBTREE_DEPTH := 32

  /** `pid` can be reached from `pane` over at most `edges` parent-child edges. */
  ghost predicate Within(children: int -> seq<int>, pane: int, pid: int, edges: nat)
    decreases edges, 0
  {
    if edges == 0 then pid == pane
    else Within(children, pane, pid, edges - 1) || HasParentWithin(children, pane, pid, edges - 1)
  }

  ghost predicate HasParentWithin(children: int -> seq<int>, pane: int, pid: int, edges: nat)
    decreases edges, 1
  {
    exists parent :: Within(children, pane, parent, edges) && pid in children(parent)
  }

  ghost predicate IsWalk(children: int -> seq<int>, walk: seq<int>) {
    && walk != []
    && forall i | 0 < i < |walk| :: walk[i] in children(walk[i - 1])
  }

  /** Reachability within a number of edges is the existence of a walk that short. */
  lemma {:induction false} WithinIsWalk(children: int -> seq<int>, pane: int, pid: int, edges: nat)
    ensures Within(children, pane, pid, edges)
            <==> exists walk :: IsWalk(children, walk) && walk[0] == pane && walk[|walk| - 1] == pid && |walk| <= edges + 1
  {
    if Within(children, pane, pid, edges) {
      var walk := WalkTo(children, pane, pid, edges);
    }
    forall walk | IsWalk(children, walk) && walk[0] == pane && walk[|walk| - 1] == pid && |walk| <= edges + 1
      ensures Within(children, pane, pid, edges)
    {
      WalkReaches(children, pane, walk, edges);
    }
  }

  lemma {:induction false} WalkTo(children: int -> seq<int>, pane: int, pid: int, edges: nat) returns (walk: seq<int>)
    requires Within(children, pane, pid, edges)
    ensures IsWalk(children, walk) && walk[0] == pane && walk[|walk| - 1] == pid && |walk| <= edges + 1
    decreases edges
  {
    if edges == 0 {
      walk := [pane];
    } else if Within(children, pane, pid, edges - 1) {
      walk := WalkTo(children, pane, pid, edges - 1);
    } else {
      var parent :| Within(children, pane, parent, edges - 1) && pid in children(parent);
      walk := WalkTo(children, pane, parent, edges - 1);
      walk := walk + [pid];
    }
  }

  lemma {:induction false} WalkReaches(children: int -> seq<int>, pane: int, walk: seq<int>, edges: nat)
    requires IsWalk(children, walk) && walk[0] == pane && |walk| <= edges + 1
    ensures Within(children, pane, walk[|walk| - 1], edges)
  {
    if |walk| > 1 {
      WalkReaches(children, pane, walk[..|walk| - 1], edges - 1);
    } else {
      WithinGrows(children, pane, pane, 0, edges);
    }
  }

  lemma {:induction false} WithinGrows(children: int -> seq<int>, pane: int, pid: int, near: nat, far: nat)
    requires near <= far && Within(children, pane, pid, near)
    ensures Within(children, pane, pid, far)
  {
    if near < far {
      WithinGrows(children, pane, pid, near, far - 1);
    }
  }

  /** No agy process within `edges` edges of the pane. */
  ghost predicate NoneWithin(children: int -> seq<int>, pane: int, agy: set<int>, edges: nat) {
    forall pid | pid in agy :: !Within(children, pane, pid, edges)
  }

  /** An agy process within the depth bound that no agy process is nearer than. */
  ghost predicate IsNearest(children: int -> seq<int>, pane: int, agy: set<int>, pid: int, distance: nat) {
    && pid in agy
    && distance <= MAX_PANE_SUBTREE_DEPTH
    && Within(children, pane, pid, distance)
    && Within(children, pane, pid, MAX_PANE_SUBTREE_DEPTH)
    && (forall other, edges: nat | other in agy && Within(children, pane, other, edges) :: distance <= edges)
  }

  /** The frontier is what the last edge added, and everything seen so far is visited. */
  ghost predicate Explored(children: int -> seq<int>, pane: int, visited: set<int>, frontier: seq<int>, depth: nat) {
    && (forall pid :: pid in visited <==> Within(children, pane, pid, depth))
    && (forall pid | pid in visited :: pid in frontier || (forall c | c in children(pid) :: c in visited))
    && (forall pid | pid in frontier :: pid in visited)
  }

  method AgyPidInPaneSubtree(children: int -> seq<int>, agyPids: seq<int>, pane: int)
    returns (found: Option<int>, ghost distance: nat)
    ensures var agy := set pid | pid in agyPids;
            && (found.Some? ==> IsNearest(children, pane, agy, found.value, distance))
            && (found.None? <==> NoneWithin(children, pane, agy, MAX_PANE_SUBTREE_DEPTH))
  {
    distance := 0;
    var agy := set pid | pid in agyPids;
    assert forall pid :: pid in agy <==> pid in agyPids;
    if agy == {} {
      return None, 0;
    }
    if pane in agy {
      WithinGrows(children, pane, pane, 0, MAX_PANE_SUBTREE_DEPTH);
      return Some(pane), 0;
    }
    found, distance := SearchBelow(children, agy, pane);
  }

  /** The breadth-first walk, once the pane's own process is known not to be agy. */
  method SearchBelow(children: int -> seq<int>, agy: set<int>, pane: int)
    returns (found: Option<int>, ghost distance: nat)
    requires pane !in agy
    ensures found.Some? ==> IsNearest(children, pane, agy, found.value, distance)
    ensures found.None? ==> NoneWithin(children, pane, agy, MAX_PANE_SUBTREE_DEPTH)
  {
    distance := 0;
    var visited: set<int> := {pane};
    var frontier := [pane];
    var depth := 0;
    while depth < MAX_PANE_SUBTREE_DEPTH
      invariant 0 <= depth <= MAX_PANE_SUBTREE_DEPTH
      invariant Explored(children, pane, visited, frontier, depth)
      invariant visited !! agy
    {
      if frontier == [] {
        Exhausted(children, pane, visited, depth, MAX_PANE_SUBTREE_DEPTH);
        return None, 0;
      }
      var hit, next, seen := SweepFrontier(children, agy, visited, frontier);
      if hit.Some? {
        FoundAt(children, pane, agy, visited, frontier, hit.value, depth);
        return hit, depth + 1;
      }
      NextLevel(children, pane, visited, frontier, seen, next, depth);
      visited := seen;
      frontier := next;
      depth := depth + 1;
    }
    found := None;
  }

  /** The body of one depth step: visit the unvisited children of every frontier process. */
  method SweepFrontier(children: int -> seq<int>, agy: set<int>, before: set<int>, frontier: seq<int>)
    returns (hit: Option<int>, next: seq<int>, visited: set<int>)
    requires before !! agy
    ensures hit.Some? ==> hit.value in agy && exists parent :: parent in frontier && hit.value in children(parent)
    ensures hit.None? ==>
              && visited !! agy
              && visited == before + (set pid | pid in next)
              && (forall pid | pid in next :: exists parent :: parent in frontier && pid in children(parent))
              && (forall parent | parent in frontier :: forall pid | pid in children(parent) :: pid in visited)
  {
    hit, next, visited := None, [], before;
    for i := 0 to |frontier|
      invariant visited !! agy
      invariant visited == before + (set pid | pid in next)
      invariant forall pid | pid in next :: exists parent :: parent in frontier && pid in children(parent)
      invariant forall k | 0 <= k < i :: forall pid | pid in children(frontier[k]) :: pid in visited
    {
      var parent := frontier[i];
      var offspring := children(parent);
      for j := 0 to |offspring|
        invariant visited !! agy
        invariant visited == before + (set pid | pid in next)
        invariant forall pid | pid in next :: exists parent :: parent in frontier && pid in children(parent)
        invariant forall k | 0 <= k < i :: forall pid | pid in children(frontier[k]) :: pid in visited
        invariant forall k | 0 <= k < j :: offspring[k] in visited
      {
        var child := offspring[j];
        if child in visited {
          continue;
        }
        assert parent in frontier && child in children(parent);
        if child in agy {
          return Some(child), next, visited;
        }
        visited := visited + {child};
        next := next + [child];
      }
    }
  }

  /** A child first met at the next depth is as near as any agy process. */
  lemma FoundAt(children: int -> seq<int>, pane: int, agy: set<int>, visited: set<int>, frontier: seq<int>,
                child: int, depth: nat)
    requires depth < MAX_PANE_SUBTREE_DEPTH
    requires Explored(children, pane, visited, frontier, depth)
    requires exists parent :: parent in frontier && child in children(parent)
    requires child in agy && visited !! agy
    ensures IsNearest(children, pane, agy, child, depth + 1)
  {
    assert HasParentWithin(children, pane, child, depth);
    WithinGrows(children, pane, child, depth + 1, MAX_PANE_SUBTREE_DEPTH);
    forall pid, edges: nat | pid in agy && Within(children, pane, pid, edges)
      ensures depth + 1 <= edges
    {
      if edges <= depth {
        WithinGrows(children, pane, pid, edges, depth);
      }
    }
  }

  /** One full sweep of the frontier explores one more edge. */
  lemma NextLevel(children: int -> seq<int>, pane: int, before: set<int>, frontier: seq<int>,
                  visited: set<int>, next: seq<int>, depth: nat)
    requires Explored(children, pane, before, frontier, depth)
    requires visited == before + (set pid | pid in next)
    requires forall pid | pid in next :: exists parent :: parent in frontier && pid in children(parent)
    requires forall parent | parent in frontier :: forall pid | pid in children(parent) :: pid in visited
    ensures Explored(children, pane, visited, next, depth + 1)
  {
    forall pid
      ensures pid in visited <==> Within(children, pane, pid, depth + 1)
    {
      if HasParentWithin(children, pane, pid, depth) {
        var parent :| Within(children, pane, parent, depth) && pid in children(parent);
        assert parent in before;
      }
    }
  }

  /** When the last level added nothing, no further edge reaches anything new. */
  lemma {:induction false} Exhausted(children: int -> seq<int>, pane: int, visited: set<int>, depth: nat, edges: nat)
    requires depth <= edges
    requires Explored(children, pane, visited, [], depth)
    ensures forall pid :: Within(children, pane, pid, edges) <==> pid in visited
  {
    if depth < edges {
      Exhausted(children, pane, visited, depth, edges - 1);
    }
  }
}
