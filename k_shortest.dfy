/**
 * `KShortestPathFinder.search`: a priority queue of paths ordered by their
 * node counts and no visited set. Every walk from the source is eventually
 * taken out of the queue, shortest first; the ones that end at the target
 * are collected until a walk with more than the requested number of nodes
 * comes out.
 */
module KShortest {
  import opened Common
  import opened State
  import opened Path
  import opened Graph

  // ---------------------------------------------------------------------------
  // Walks, children and the priority order
  // ---------------------------------------------------------------------------

  /** A non-empty walk that starts at `source`. */
  ghost predicate IsWalkFrom(succ: Successors, w: seq<StateNode>, source: StateNode)
  {
    |w| >= 1 && w[0] == source && IsWalk(succ, w)
  }

  /** No state is listed twice. */
  predicate NoRepeats(xs: seq<StateNode>)
  {
    forall i, j :: 0 <= i < j < |xs| ==> xs[i] != xs[j]
  }

  /** The paths the `for` loop adds to the heap: `p` extended by each child, in order. */
  function Extensions(p: StateNodePath, children: seq<StateNode>): (r: seq<StateNodePath>)
    ensures |r| == |children|
    ensures forall i :: 0 <= i < |r| ==> r[i].nodes == p.nodes + [children[i]]
  {
    seq(|children|, i requires 0 <= i < |children| => p.Append(children[i]))
  }

  /** The path a longer path was appended to. */
  function Parent(p: StateNodePath): seq<StateNode>
  {
    p.nodes[..|p.nodes| - 1]
  }

  /**
   * `heap[k]` is a least element of the heap under `compareTo`: the one the
   * priority queue hands out (which of several equally long paths it picks is
   * left open).
   */
  predicate IsLeast(heap: seq<StateNodePath>, k: int)
  {
    && 0 <= k < |heap|
    && forall j :: 0 <= j < |heap| ==> heap[k].CompareTo(heap[j]) <= 0
  }

  /** A non-empty heap has a least element. */
  lemma {:induction false} LeastExists(heap: seq<StateNodePath>)
    requires heap != []
    ensures exists k :: IsLeast(heap, k)
    decreases |heap|
  {
    if |heap| == 1 {
      assert IsLeast(heap, 0);
    } else {
      var front := heap[..|heap| - 1];
      LeastExists(front);
      var k :| IsLeast(front, k);
      if heap[k].NumberOfNodes() <= heap[|heap| - 1].NumberOfNodes() {
        assert IsLeast(heap, k);
      } else {
        assert IsLeast(heap, |heap| - 1);
      }
    }
  }

  /** Taking `heap[k]` out keeps every other element, each once. */
  lemma RemoveAt(heap: seq<StateNodePath>, k: int, rest: seq<StateNodePath>)
    requires 0 <= k < |heap| && rest == heap[..k] + heap[k + 1..]
    ensures |rest| == |heap| - 1
    ensures forall j :: 0 <= j < |rest| ==> rest[j] == heap[if j < k then j else j + 1]
    ensures forall j :: 0 <= j < |heap| && j != k ==> heap[j] in rest
  {
    forall j | 0 <= j < |heap| && j != k ensures heap[j] in rest {
      if j < k {
        assert rest[j] == heap[j];
      } else {
        assert rest[j - 1] == heap[j];
      }
    }
  }

  // ---------------------------------------------------------------------------
  // The `for` loop
  // ---------------------------------------------------------------------------

  /** The `for` loop of `search`: each child of the end point, appended to `p`, joins the heap. */
  method AddChildren(heap0: seq<StateNodePath>, p: StateNodePath, children: seq<StateNode>)
    returns (heap: seq<StateNodePath>)
    ensures heap == heap0 + Extensions(p, children)
  {
    heap := heap0;
    var i := 0;
    while i < |children|
      invariant 0 <= i <= |children|
      invariant heap == heap0 + Extensions(p, children[..i])
    {
      assert Extensions(p, children[..i + 1]) == Extensions(p, children[..i]) + [p.Append(children[i])];
      heap := heap + [p.Append(children[i])];
      i := i + 1;
    }
    assert children[..i] == children;
  }

  // ---------------------------------------------------------------------------
  // Termination: every path in the heap stands for the walks it can still grow into
  // ---------------------------------------------------------------------------

  /** How far `w` is from being too long to be expanded. */
  function Room(w: seq<StateNode>, limit: int): nat
  {
    if |w| > limit then 0 else limit + 1 - |w|
  }

  /**
   * The number of paths that taking `w` out of the heap can still lead to
   * being taken out: `w` itself and, if `w` has at most `limit` nodes, the
   * weights of its one-node extensions.
   */
  function Weight(succ: Successors, w: seq<StateNode>, limit: int): (n: nat)
    requires |w| >= 1
    ensures n >= 1
    decreases Room(w, limit), 1, 0
  {
    if |w| > limit then 1 else 1 + ChildrenWeight(succ, w, succ(w[|w| - 1]), limit)
  }

  /** The weights of `w` extended by each of `children`. */
  function ChildrenWeight(succ: Successors, w: seq<StateNode>, children: seq<StateNode>, limit: int): nat
    requires 1 <= |w| <= limit
    decreases Room(w, limit), 0, |children|
  {
    if children == [] then 0
    else
      ChildrenWeight(succ, w, children[..|children| - 1], limit)
      + Weight(succ, w + [children[|children| - 1]], limit)
  }

  /** The weight of the whole heap. */
  function HeapWeight(succ: Successors, heap: seq<StateNodePath>, limit: int): nat
  {
    if heap == [] then 0
    else HeapWeight(succ, heap[..|heap| - 1], limit) + Weight(succ, heap[|heap| - 1].nodes, limit)
  }

  lemma {:induction false} HeapWeightConcat(succ: Successors, a: seq<StateNodePath>, b: seq<StateNodePath>, limit: int)
    ensures HeapWeight(succ, a + b, limit) == HeapWeight(succ, a, limit) + HeapWeight(succ, b, limit)
    decreases |b|
  {
    if b != [] {
      var front := b[..|b| - 1];
      assert (a + b)[..|a + b| - 1] == a + front;
      HeapWeightConcat(succ, a, front, limit);
    } else {
      assert a + b == a;
    }
  }

  lemma {:induction false} HeapWeightExtensions(succ: Successors, p: StateNodePath, children: seq<StateNode>, limit: int)
    requires p.NumberOfNodes() <= limit
    ensures HeapWeight(succ, Extensions(p, children), limit) == ChildrenWeight(succ, p.nodes, children, limit)
    decreases |children|
  {
    if children != [] {
      var front := children[..|children| - 1];
      assert Extensions(p, children)[..|children| - 1] == Extensions(p, front);
      HeapWeightExtensions(succ, p, front, limit);
    }
  }

  /**
   * Taking out a path with at most `limit` nodes and putting back its
   * extensions lowers the weight of the heap by exactly one.
   */
  lemma WeightDrops(succ: Successors, heap0: seq<StateNodePath>, k: int, limit: int,
                    rest: seq<StateNodePath>, heap: seq<StateNodePath>)
    requires 0 <= k < |heap0| && heap0[k].NumberOfNodes() <= limit
    requires rest == heap0[..k] + heap0[k + 1..]
    requires heap == rest + Extensions(heap0[k], succ(heap0[k].EndPoint()))
    ensures HeapWeight(succ, heap, limit) < HeapWeight(succ, heap0, limit)
  {
    var p := heap0[k];
    assert heap0 == heap0[..k] + [p] + heap0[k + 1..];
    HeapWeightConcat(succ, heap0[..k] + [p], heap0[k + 1..], limit);
    HeapWeightConcat(succ, heap0[..k], [p], limit);
    assert HeapWeight(succ, [p], limit) == Weight(succ, p.nodes, limit) by {
      assert [p][..0] == [];
    }
    HeapWeightConcat(succ, heap0[..k], heap0[k + 1..], limit);
    HeapWeightConcat(succ, rest, Extensions(p, succ(p.EndPoint())), limit);
    HeapWeightExtensions(succ, p, succ(p.EndPoint()), limit);
  }

  // ---------------------------------------------------------------------------
  // The loop invariant of `search`
  // ---------------------------------------------------------------------------

  /** Every path in the heap is a walk from `source`. */
  ghost predicate HeapWalks(succ: Successors, source: StateNode, heap: seq<StateNodePath>)
  {
    forall i :: 0 <= i < |heap| ==> IsWalkFrom(succ, heap[i].nodes, source)
  }

  /**
   * Every path in the heap has at least `floor` nodes, has not been taken out
   * before, and was appended to a path that has been.
   */
  ghost predicate HeapFresh(heap: seq<StateNodePath>, removed: set<seq<StateNode>>, floor: int)
  {
    forall i :: 0 <= i < |heap| ==>
      && floor <= heap[i].NumberOfNodes()
      && heap[i].nodes !in removed
      && (heap[i].NumberOfNodes() > 1 ==> Parent(heap[i]) in removed)
  }

  /** No path is in the heap twice. */
  ghost predicate HeapDistinct(heap: seq<StateNodePath>)
  {
    forall i, j :: 0 <= i < j < |heap| ==> heap[i] != heap[j]
  }

  ghost predicate HeapSound(succ: Successors, source: StateNode, heap: seq<StateNodePath>,
                            removed: set<seq<StateNode>>, floor: int)
  {
    HeapWalks(succ, source, heap) && HeapFresh(heap, removed, floor) && HeapDistinct(heap)
  }

  /** The paths taken out so far are walks from `source` with at most `floor` and at most `limit` nodes. */
  ghost predicate RemovedSound(succ: Successors, source: StateNode, removed: set<seq<StateNode>>, floor: int, limit: int)
  {
    forall w {:trigger w in removed} :: w in removed ==> IsWalkFrom(succ, w, source) && |w| <= floor && |w| <= limit
  }

  /** Every walk from `source` has been taken out, or one of its prefixes is in the heap. */
  ghost predicate Covered(succ: Successors, source: StateNode, heap: seq<StateNodePath>, removed: set<seq<StateNode>>)
  {
    forall w {:trigger IsWalkFrom(succ, w, source)} :: IsWalkFrom(succ, w, source) ==>
      w in removed || exists k :: 1 <= k <= |w| && StateNodePath(w[..k]) in heap
  }

  /**
   * The result list holds exactly the paths taken out so far that end at
   * `target`, each once, in non-decreasing node count.
   */
  ghost predicate Collected(target: StateNode, removed: set<seq<StateNode>>, paths: seq<StateNodePath>)
  {
    && (forall i :: 0 <= i < |paths| ==> paths[i].nodes in removed && paths[i].EndPoint() == target)
    && (forall i, j :: 0 <= i < j < |paths| ==> paths[i] != paths[j])
    && (forall i, j :: 0 <= i < j < |paths| ==> paths[i].NumberOfNodes() <= paths[j].NumberOfNodes())
    && (forall w {:trigger w in removed} :: w in removed && |w| >= 1 && w[|w| - 1] == target ==> StateNodePath(w) in paths)
  }

  ghost predicate Enumerating(succ: Successors, source: StateNode, target: StateNode, limit: int,
                              heap: seq<StateNodePath>, removed: set<seq<StateNode>>, floor: int,
                              paths: seq<StateNodePath>)
  {
    && HeapSound(succ, source, heap, removed, floor)
    && RemovedSound(succ, source, removed, floor, limit)
    && Covered(succ, source, heap, removed)
    && Collected(target, removed, paths)
  }

  lemma EnumeratingStart(succ: Successors, source: StateNode, target: StateNode, limit: int)
    ensures Enumerating(succ, source, target, limit, [FromNode(source)], {}, 1, [])
  {
    forall w {:trigger IsWalkFrom(succ, w, source)} | IsWalkFrom(succ, w, source)
      ensures exists k :: 1 <= k <= |w| && StateNodePath(w[..k]) in [FromNode(source)]
    {
      assert w[..1] == [source];
    }
  }

  // ---------------------------------------------------------------------------
  // One turn of the `while` loop that expands the least path
  // ---------------------------------------------------------------------------

  /** Appending a successor of the end point to a walk gives a walk. */
  lemma ExtensionIsWalk(succ: Successors, source: StateNode, p: StateNodePath, c: StateNode)
    requires IsWalkFrom(succ, p.nodes, source) && c in succ(p.EndPoint())
    ensures IsWalkFrom(succ, p.nodes + [c], source)
  {
    var w := p.nodes + [c];
    forall j | 0 < j < |w| ensures w[j] in succ(w[j - 1]) {
      if j < |p.nodes| {
        assert w[j] == p.nodes[j] && w[j - 1] == p.nodes[j - 1];
      }
    }
  }

  lemma HeapWalksAfterExpansion(succ: Successors, source: StateNode, heap0: seq<StateNodePath>, k: int,
                                rest: seq<StateNodePath>, heap: seq<StateNodePath>)
    requires HeapWalks(succ, source, heap0)
    requires 0 <= k < |heap0| && rest == heap0[..k] + heap0[k + 1..]
    requires heap == rest + Extensions(heap0[k], succ(heap0[k].EndPoint()))
    ensures HeapWalks(succ, source, heap)
  {
    var p := heap0[k];
    var children := succ(p.EndPoint());
    RemoveAt(heap0, k, rest);
    forall i | 0 <= i < |heap| ensures IsWalkFrom(succ, heap[i].nodes, source) {
      if i < |rest| {
        assert heap[i] == rest[i];
      } else {
        assert heap[i].nodes == p.nodes + [children[i - |rest|]];
        ExtensionIsWalk(succ, source, p, children[i - |rest|]);
      }
    }
  }

  lemma HeapFreshAfterExpansion(heap0: seq<StateNodePath>, k: int, removed: set<seq<StateNode>>, floor: int,
                                children: seq<StateNode>, rest: seq<StateNodePath>, heap: seq<StateNodePath>)
    requires HeapFresh(heap0, removed, floor) && HeapDistinct(heap0)
    requires forall w {:trigger w in removed} :: w in removed ==> |w| <= floor
    requires IsLeast(heap0, k) && rest == heap0[..k] + heap0[k + 1..]
    requires heap == rest + Extensions(heap0[k], children)
    ensures HeapFresh(heap, removed + {heap0[k].nodes}, heap0[k].NumberOfNodes())
  {
    var p := heap0[k];
    var removed' := removed + {p.nodes};
    RemoveAt(heap0, k, rest);
    forall i | 0 <= i < |heap|
      ensures p.NumberOfNodes() <= heap[i].NumberOfNodes()
      ensures heap[i].nodes !in removed'
      ensures heap[i].NumberOfNodes() > 1 ==> Parent(heap[i]) in removed'
    {
      if i < |rest| {
        assert heap[i] == rest[i];
      } else {
        assert heap[i].nodes == p.nodes + [children[i - |rest|]];
        assert Parent(heap[i]) == p.nodes;
      }
    }
  }

  lemma HeapDistinctAfterExpansion(heap0: seq<StateNodePath>, k: int, removed: set<seq<StateNode>>, floor: int,
                                   children: seq<StateNode>, rest: seq<StateNodePath>, heap: seq<StateNodePath>)
    requires HeapFresh(heap0, removed, floor) && HeapDistinct(heap0) && NoRepeats(children)
    requires 0 <= k < |heap0| && rest == heap0[..k] + heap0[k + 1..]
    requires heap == rest + Extensions(heap0[k], children)
    ensures HeapDistinct(heap)
  {
    var p := heap0[k];
    RemoveAt(heap0, k, rest);
    forall i, j | 0 <= i < j < |heap| ensures heap[i] != heap[j] {
      if j < |rest| {
        assert heap[i] == rest[i] && heap[j] == rest[j];
      } else if i >= |rest| {
        assert heap[i].nodes[|p.nodes|] == children[i - |rest|];
        assert heap[j].nodes[|p.nodes|] == children[j - |rest|];
      } else {
        assert heap[i] == rest[i];
        assert Parent(heap[j]) == p.nodes;
      }
    }
  }

  lemma RemovedAfterExpansion(succ: Successors, source: StateNode, heap0: seq<StateNodePath>, k: int,
                              removed: set<seq<StateNode>>, floor: int, limit: int)
    requires HeapSound(succ, source, heap0, removed, floor) && RemovedSound(succ, source, removed, floor, limit)
    requires 0 <= k < |heap0| && heap0[k].NumberOfNodes() <= limit
    ensures RemovedSound(succ, source, removed + {heap0[k].nodes}, heap0[k].NumberOfNodes(), limit)
  {
  }

  /** The prefix one node longer is the prefix followed by that node. */
  lemma PrefixGrows(w: seq<StateNode>, n: int)
    requires 0 <= n < |w|
    ensures w[..n + 1] == w[..n] + [w[n]]
  {
  }

  /** Every child of the end point of `p` is queued, appended to `p`. */
  lemma ExtensionQueued(p: StateNodePath, c: StateNode, children: seq<StateNode>,
                        rest: seq<StateNodePath>, heap: seq<StateNodePath>)
    requires c in children && heap == rest + Extensions(p, children)
    ensures StateNodePath(p.nodes + [c]) in heap
  {
    var i :| 0 <= i < |children| && children[i] == c;
    assert heap[|rest| + i] == Extensions(p, children)[i];
  }

  /**
   * A walk whose prefix `p` was just expanded, and which is longer than `p`,
   * has its next prefix among the extensions.
   */
  lemma NextPrefixQueued(succ: Successors, source: StateNode, p: StateNodePath, w: seq<StateNode>, n: int,
                         rest: seq<StateNodePath>, heap: seq<StateNodePath>)
    requires IsWalkFrom(succ, w, source) && w != p.nodes
    requires 1 <= n <= |w| && w[..n] == p.nodes
    requires heap == rest + Extensions(p, succ(p.EndPoint()))
    ensures n < |w| && StateNodePath(w[..n + 1]) in heap
  {
    assert |p.nodes| == n;
    assert n != |w| by {
      assert w[..|w|] == w;
    }
    assert p.EndPoint() == w[..n][n - 1] == w[n - 1];
    assert w[n] in succ(w[n - 1]);
    PrefixGrows(w, n);
    ExtensionQueued(p, w[n], succ(p.EndPoint()), rest, heap);
  }

  lemma CoveredAfterExpansion(succ: Successors, source: StateNode, heap0: seq<StateNodePath>, k: int,
                              removed: set<seq<StateNode>>, rest: seq<StateNodePath>, heap: seq<StateNodePath>)
    requires Covered(succ, source, heap0, removed)
    requires 0 <= k < |heap0| && rest == heap0[..k] + heap0[k + 1..]
    requires heap == rest + Extensions(heap0[k], succ(heap0[k].EndPoint()))
    ensures Covered(succ, source, heap, removed + {heap0[k].nodes})
  {
    var p := heap0[k];
    RemoveAt(heap0, k, rest);
    forall w {:trigger IsWalkFrom(succ, w, source)} | IsWalkFrom(succ, w, source) && w !in removed + {p.nodes}
      ensures exists n :: 1 <= n <= |w| && StateNodePath(w[..n]) in heap
    {
      var n :| 1 <= n <= |w| && StateNodePath(w[..n]) in heap0;
      if StateNodePath(w[..n]) == p {
        NextPrefixQueued(succ, source, p, w, n, rest, heap);
        assert 1 <= n + 1 <= |w| && StateNodePath(w[..n + 1]) in heap;
      } else {
        assert StateNodePath(w[..n]) in rest;
        assert StateNodePath(w[..n]) in heap;
      }
    }
  }

  lemma CollectedAfterExpansion(target: StateNode, p: StateNodePath, removed: set<seq<StateNode>>, floor: int,
                                paths0: seq<StateNodePath>, paths: seq<StateNodePath>)
    requires Collected(target, removed, paths0)
    requires forall w {:trigger w in removed} :: w in removed ==> |w| <= floor
    requires p.nodes !in removed && floor <= p.NumberOfNodes()
    requires paths == if p.EndPoint() == target then paths0 + [p] else paths0
    ensures Collected(target, removed + {p.nodes}, paths)
  {
    CollectedStaysSorted(target, p, removed, floor, paths0, paths);
    CollectedStaysComplete(target, p, removed, removed + {p.nodes}, paths0, paths);
  }

  lemma CollectedStaysSorted(target: StateNode, p: StateNodePath, removed: set<seq<StateNode>>, floor: int,
                             paths0: seq<StateNodePath>, paths: seq<StateNodePath>)
    requires Collected(target, removed, paths0)
    requires forall w {:trigger w in removed} :: w in removed ==> |w| <= floor
    requires p.nodes !in removed && floor <= p.NumberOfNodes()
    requires paths == if p.EndPoint() == target then paths0 + [p] else paths0
    ensures forall i :: 0 <= i < |paths| ==> paths[i].nodes in removed + {p.nodes} && paths[i].EndPoint() == target
    ensures forall i, j :: 0 <= i < j < |paths| ==> paths[i] != paths[j]
    ensures forall i, j :: 0 <= i < j < |paths| ==> paths[i].NumberOfNodes() <= paths[j].NumberOfNodes()
  {
  }

  lemma CollectedStaysComplete(target: StateNode, p: StateNodePath, removed: set<seq<StateNode>>,
                               removed': set<seq<StateNode>>, paths0: seq<StateNodePath>, paths: seq<StateNodePath>)
    requires Collected(target, removed, paths0) && removed' == removed + {p.nodes}
    requires paths == if p.EndPoint() == target then paths0 + [p] else paths0
    ensures forall w {:trigger w in removed'} :: w in removed' && |w| >= 1 && w[|w| - 1] == target ==> StateNodePath(w) in paths
  {
    forall w {:trigger w in removed'} | w in removed' && |w| >= 1 && w[|w| - 1] == target ensures StateNodePath(w) in paths {
      if w == p.nodes {
        assert StateNodePath(w) == p;
      }
    }
  }

  /**
   * One turn of the `while` loop that takes out a least path with at most
   * `limit` nodes: the invariant holds again, with the path taken out.
   */
  lemma ExpansionStep(succ: Successors, source: StateNode, target: StateNode, limit: int,
                      heap0: seq<StateNodePath>, k: int, removed: set<seq<StateNode>>, floor: int,
                      paths0: seq<StateNodePath>, rest: seq<StateNodePath>, heap: seq<StateNodePath>,
                      paths: seq<StateNodePath>)
    requires Enumerating(succ, source, target, limit, heap0, removed, floor, paths0)
    requires IsLeast(heap0, k) && heap0[k].NumberOfNodes() <= limit
    requires NoRepeats(succ(heap0[k].EndPoint()))
    requires rest == heap0[..k] + heap0[k + 1..]
    requires heap == rest + Extensions(heap0[k], succ(heap0[k].EndPoint()))
    requires paths == if heap0[k].EndPoint() == target then paths0 + [heap0[k]] else paths0
    ensures Enumerating(succ, source, target, limit, heap, removed + {heap0[k].nodes}, heap0[k].NumberOfNodes(), paths)
    ensures HeapWeight(succ, heap, limit) < HeapWeight(succ, heap0, limit)
  {
    HeapWalksAfterExpansion(succ, source, heap0, k, rest, heap);
    HeapFreshAfterExpansion(heap0, k, removed, floor, succ(heap0[k].EndPoint()), rest, heap);
    HeapDistinctAfterExpansion(heap0, k, removed, floor, succ(heap0[k].EndPoint()), rest, heap);
    RemovedAfterExpansion(succ, source, heap0, k, removed, floor, limit);
    CoveredAfterExpansion(succ, source, heap0, k, removed, rest, heap);
    CollectedAfterExpansion(target, heap0[k], removed, floor, paths0, paths);
    WeightDrops(succ, heap0, k, limit, rest, heap);
  }

  // ---------------------------------------------------------------------------
  // The two ways out of the loop
  // ---------------------------------------------------------------------------

  /**
   * A least path with more than `limit` nodes: every walk to `target` with at
   * most `limit` nodes has been collected, and a walk with more exists.
   */
  lemma StopAtOverLength(succ: Successors, source: StateNode, target: StateNode, limit: int,
                         heap0: seq<StateNodePath>, k: int, removed: set<seq<StateNode>>, floor: int,
                         paths: seq<StateNodePath>)
    requires Enumerating(succ, source, target, limit, heap0, removed, floor, paths)
    requires IsLeast(heap0, k) && heap0[k].NumberOfNodes() > limit
    ensures forall w {:trigger IsPathFrom(succ, w, source, target)} :: IsPathFrom(succ, w, source, target) && |w| <= limit ==> StateNodePath(w) in paths
    ensures exists w {:trigger IsWalkFrom(succ, w, source)} :: IsWalkFrom(succ, w, source) && |w| > limit
  {
    forall w {:trigger IsPathFrom(succ, w, source, target)} | IsPathFrom(succ, w, source, target) && |w| <= limit ensures StateNodePath(w) in paths {
      assert IsWalkFrom(succ, w, source);
    }
    assert IsWalkFrom(succ, heap0[k].nodes, source);
  }

  /** An empty heap: every walk from `source` has been taken out, so none is longer than `limit`. */
  lemma ExhaustedMeansAllShort(succ: Successors, source: StateNode, target: StateNode, limit: int,
                               removed: set<seq<StateNode>>, floor: int, paths: seq<StateNodePath>)
    requires Enumerating(succ, source, target, limit, [], removed, floor, paths)
    ensures forall w {:trigger IsWalkFrom(succ, w, source)} :: IsWalkFrom(succ, w, source) ==> |w| <= limit
  {
  }

  // ---------------------------------------------------------------------------
  // `search`
  // ---------------------------------------------------------------------------

  /**
   * `search`, for the successor function `succ` (whose lists never repeat a
   * state, as `getNeighbors` does not): the walks from `source` to `target`
   * with at most `requestedPathLength` nodes, each exactly once, shortest
   * first, if some walk from `source` is longer than that; otherwise the
   * heap runs empty and `IllegalStateException` is thrown.
   */
  method SearchIn(succ: Successors, source: StateNode, target: StateNode, requestedPathLength: int)
    returns (r: Result<seq<StateNodePath>>)
    requires forall s :: NoRepeats(succ(s))
    ensures r.Ok? ==> forall i :: 0 <= i < |r.value| ==>
      IsPathFrom(succ, r.value[i].nodes, source, target) && r.value[i].NumberOfNodes() <= requestedPathLength
    ensures r.Ok? ==> forall w {:trigger IsPathFrom(succ, w, source, target)} :: IsPathFrom(succ, w, source, target) && |w| <= requestedPathLength ==>
      StateNodePath(w) in r.value
    ensures r.Ok? ==> forall i, j :: 0 <= i < j < |r.value| ==> r.value[i] != r.value[j]
    ensures r.Ok? ==> forall i, j :: 0 <= i < j < |r.value| ==> r.value[i].NumberOfNodes() <= r.value[j].NumberOfNodes()
    ensures r.Ok? ==> exists w {:trigger IsWalkFrom(succ, w, source)} :: IsWalkFrom(succ, w, source) && |w| > requestedPathLength
    ensures r.Err? ==> r.error == IllegalStateException
    ensures r.Err? ==> forall w {:trigger IsWalkFrom(succ, w, source)} :: IsWalkFrom(succ, w, source) ==> |w| <= requestedPathLength
  {
    var paths: seq<StateNodePath> := [];
    var pathHeap: seq<StateNodePath> := [FromNode(source)];
    ghost var removed: set<seq<StateNode>> := {};
    ghost var floor := 1;
    EnumeratingStart(succ, source, target, requestedPathLength);
    while pathHeap != []
      invariant Enumerating(succ, source, target, requestedPathLength, pathHeap, removed, floor, paths)
      decreases HeapWeight(succ, pathHeap, requestedPathLength)
    {
      LeastExists(pathHeap);
      var k :| IsLeast(pathHeap, k);
      var currentPath := pathHeap[k];
      ghost var heap0 := pathHeap;
      pathHeap := pathHeap[..k] + pathHeap[k + 1..];
      var endNode := currentPath.EndPoint();
      if currentPath.NumberOfNodes() > requestedPathLength {
        StopAtOverLength(succ, source, target, requestedPathLength, heap0, k, removed, floor, paths);
        return Ok(paths);
      }
      ghost var paths0 := paths;
      if State.Equals(endNode, Instance(target)) {
        paths := paths + [currentPath];
      }
      ghost var rest := pathHeap;
      pathHeap := AddChildren(pathHeap, currentPath, succ(endNode));
      ExpansionStep(succ, source, target, requestedPathLength, heap0, k, removed, floor,
                    paths0, rest, pathHeap, paths);
      removed := removed + {currentPath.nodes};
      floor := currentPath.NumberOfNodes();
    }
    ExhaustedMeansAllShort(succ, source, target, requestedPathLength, removed, floor, paths);
    return Err(IllegalStateException);
  }

  /** `search` itself: `SearchIn` over `getNeighbors`. */
  method Search(source: StateNode, target: StateNode, requestedPathLength: int)
    returns (r: Result<seq<StateNodePath>>)
    ensures r.Ok? ==> forall i :: 0 <= i < |r.value| ==>
      IsPathFrom(Neighbors, r.value[i].nodes, source, target) && r.value[i].NumberOfNodes() <= requestedPathLength
    ensures r.Ok? ==> forall w {:trigger IsPathFrom(Neighbors, w, source, target)} :: IsPathFrom(Neighbors, w, source, target) && |w| <= requestedPathLength ==>
      StateNodePath(w) in r.value
    ensures r.Ok? ==> forall i, j :: 0 <= i < j < |r.value| ==> r.value[i] != r.value[j]
    ensures r.Ok? ==> forall i, j :: 0 <= i < j < |r.value| ==> r.value[i].NumberOfNodes() <= r.value[j].NumberOfNodes()
    ensures r.Ok? ==> exists w {:trigger IsWalkFrom(Neighbors, w, source)} :: IsWalkFrom(Neighbors, w, source) && |w| > requestedPathLength
    ensures r.Err? ==> r.error == IllegalStateException
    ensures r.Err? ==> forall w {:trigger IsWalkFrom(Neighbors, w, source)} :: IsWalkFrom(Neighbors, w, source) ==> |w| <= requestedPathLength
  {
    forall s ensures NoRepeats(Neighbors(s)) {
      NeighborsOrderedWithoutDuplicates(s);
    }
    r := SearchIn(Neighbors, source, target, requestedPathLength);
  }
}
