/**
 * Walks through a state graph given by its successor function. Both searches
 * explore the graph only through `getNeighbors`; they are proved here over
 * any successor function and instantiated with `State.Neighbors`.
 */
module Graph {
  import opened State

  /** A successor function: `getNeighbors`, as a value. */
  type Successors = StateNode -> seq<StateNode>

  /** Each state after the first is a successor of the one before it. */
  ghost predicate IsWalk(succ: Successors, w: seq<StateNode>)
  {
    forall i :: 0 < i < |w| ==> w[i] in succ(w[i - 1])
  }

  /** A non-empty walk from `source` to `target`. */
  ghost predicate IsPathFrom(succ: Successors, w: seq<StateNode>, source: StateNode, target: StateNode)
  {
    |w| >= 1 && w[0] == source && w[|w| - 1] == target && IsWalk(succ, w)
  }

  /** Every non-empty prefix of a walk is a walk. */
  lemma WalkPrefix(succ: Successors, w: seq<StateNode>, k: nat)
    requires IsWalk(succ, w) && k <= |w|
    ensures IsWalk(succ, w[..k])
  {
    forall i | 0 < i < k ensures w[..k][i] in succ(w[..k][i - 1]) {
      assert w[..k][i] == w[i] && w[..k][i - 1] == w[i - 1];
    }
  }

  /** No successor leads out of `v`. */
  ghost predicate Closed(succ: Successors, v: set<StateNode>)
  {
    forall p, y :: p in v && y in succ(p) ==> y in v
  }

  /** A walk that starts inside a closed set never leaves it. */
  lemma {:induction false} WalkStaysInClosedSet(succ: Successors, w: seq<StateNode>, v: set<StateNode>)
    requires IsWalk(succ, w) && |w| >= 1 && w[0] in v && Closed(succ, v)
    ensures w[|w| - 1] in v
    decreases |w|
  {
    if |w| > 1 {
      var front := w[..|w| - 1];
      WalkPrefix(succ, w, |w| - 1);
      WalkStaysInClosedSet(succ, front, v);
      assert w[|w| - 1] in succ(front[|front| - 1]);
    }
  }
}
