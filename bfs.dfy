/**
 * Breadth-first search from a source state to a target state: a FIFO queue,
 * a parent map that records for each discovered state the state it was first
 * reached from, and a traceback along the parent links.
 */
module BreadthFirst {
  import opened Common
  import opened State
  import opened Graph

  // ---------------------------------------------------------------------------
  // The parent map and the traceback
  // ---------------------------------------------------------------------------

  /**
   * The parent map as the search builds it: `source` has no parent, every
   * other discovered state has a discovered parent of which it is a
   * successor, one step further from `source` (`dist`, a ghost record of the
   * discovery depth).
   */
  ghost predicate ParentForest(succ: Successors, source: StateNode,
                               parentMap: map<StateNode, Option<StateNode>>, dist: map<StateNode, nat>)
  {
    && source in parentMap && parentMap[source] == None
    && dist.Keys == parentMap.Keys && dist[source] == 0
    && forall k {:trigger parentMap[k]} :: k in parentMap && k != source ==>
         && parentMap[k].Some? && parentMap[k].value in parentMap
         && k in succ(parentMap[k].value)
         && dist[k] == dist[parentMap[k].value] + 1
  }

  /** `Collections.reverse`, as a value. */
  function Reverse(s: seq<StateNode>): (r: seq<StateNode>)
    ensures |r| == |s|
    ensures forall i :: 0 <= i < |s| ==> r[i] == s[|s| - 1 - i]
  {
    if s == [] then [] else Reverse(s[1..]) + [s[0]]
  }

  /**
   * The list `tracebackPath` builds before reversing it: `target` first, each
   * state a successor of the next one, the i-th at depth `dist[target] - i`.
   */
  ghost predicate BackwardChain(succ: Successors, dist: map<StateNode, nat>, target: StateNode, b: seq<StateNode>)
  {
    && target in dist
    && (|b| >= 1 ==> b[0] == target)
    && (forall i :: 0 <= i < |b| ==> b[i] in dist && dist[b[i]] + i == dist[target])
    && (forall i :: 0 < i < |b| ==> b[i - 1] in succ(b[i]))
  }

  /** Following one more parent link extends the chain. */
  lemma ChainGrows(succ: Successors, dist: map<StateNode, nat>, target: StateNode, b: seq<StateNode>, node: StateNode)
    requires BackwardChain(succ, dist, target, b)
    requires node in dist && dist[node] + |b| == dist[target]
    requires |b| == 0 ==> node == target
    requires |b| >= 1 ==> b[|b| - 1] in succ(node)
    ensures BackwardChain(succ, dist, target, b + [node])
  {
    var c := b + [node];
    forall i | 0 < i < |c| ensures c[i - 1] in succ(c[i]) {
      if i < |b| {
        assert c[i - 1] == b[i - 1] && c[i] == b[i];
      }
    }
  }

  /** A complete chain, reversed, is a walk from `source` whose i-th state lies at depth i. */
  lemma ReversedChainIsPath(succ: Successors, source: StateNode, dist: map<StateNode, nat>,
                            target: StateNode, b: seq<StateNode>)
    requires BackwardChain(succ, dist, target, b)
    requires |b| == dist[target] + 1 && b[|b| - 1] == source
    ensures var path := Reverse(b);
      && IsPathFrom(succ, path, source, target)
      && (forall i :: 0 <= i < |path| ==> path[i] in dist && dist[path[i]] == i)
      && (forall i, j :: 0 <= i < j < |path| ==> path[i] != path[j])
  {
    var path := Reverse(b);
    forall i | 0 < i < |path| ensures path[i] in succ(path[i - 1]) {
      assert path[i] == b[|b| - 1 - i] && path[i - 1] == b[|b| - 1 - i + 1];
    }
    forall i | 0 <= i < |path| ensures path[i] in dist && dist[path[i]] == i {
      assert path[i] == b[|b| - 1 - i];
    }
  }

  /**
   * `tracebackPath`: follows the parent links from `targetNode` until a
   * missing parent, then reverses the list. On a parent map built by the
   * search the result is a walk from `source` to `targetNode` whose i-th
   * state was discovered at depth i, so no state occurs twice.
   */
  method TracebackPath(targetNode: StateNode, parentMap: map<StateNode, Option<StateNode>>,
                       ghost succ: Successors, ghost source: StateNode, ghost dist: map<StateNode, nat>)
    returns (path: seq<StateNode>)
    requires ParentForest(succ, source, parentMap, dist) && targetNode in parentMap
    ensures IsPathFrom(succ, path, source, targetNode)
    ensures |path| == dist[targetNode] + 1
    ensures forall i :: 0 <= i < |path| ==> path[i] in dist && dist[path[i]] == i
    ensures forall i, j :: 0 <= i < j < |path| ==> path[i] != path[j]
  {
    path := [];
    var current: Option<StateNode> := Some(targetNode);
    while current.Some?
      invariant BackwardChain(succ, dist, targetNode, path)
      invariant current.Some? ==> current.value in parentMap && dist[current.value] + |path| == dist[targetNode]
      invariant current.Some? && |path| == 0 ==> current.value == targetNode
      invariant current.Some? && |path| >= 1 ==> path[|path| - 1] in succ(current.value)
      invariant current.None? ==> |path| == dist[targetNode] + 1 && path[|path| - 1] == source
      decreases if current.Some? then dist[current.value] + 1 else 0
    {
      var node := current.value;
      ChainGrows(succ, dist, targetNode, path, node);
      path := path + [node];
      current := if node in parentMap then parentMap[node] else None;
    }
    ReversedChainIsPath(succ, source, dist, targetNode, path);
    path := Reverse(path);
  }

  // ---------------------------------------------------------------------------
  // The search over any successor function
  // ---------------------------------------------------------------------------

  /**
   * The queue holds discovered states, each once, in non-decreasing depth,
   * all at depth `level` or `level + 1`.
   */
  ghost predicate QueueLayered(queue: seq<StateNode>, dist: map<StateNode, nat>, level: nat)
  {
    && (forall i :: 0 <= i < |queue| ==> queue[i] in dist && level <= dist[queue[i]] <= level + 1)
    && (forall i, j :: 0 <= i < j < |queue| ==> queue[i] != queue[j] && dist[queue[i]] <= dist[queue[j]])
  }

  /** Every discovered state was discovered at its distance from `source`: no shorter walk reaches it. */
  ghost predicate DepthIsDistance(succ: Successors, source: StateNode, dist: map<StateNode, nat>)
  {
    forall v, w {:trigger IsPathFrom(succ, w, source, v)} :: IsPathFrom(succ, w, source, v) && v in dist ==> dist[v] < |w|
  }

  /** Every state that a walk of at most `level` steps from `source` reaches is discovered. */
  ghost predicate DiscoveredWithin(succ: Successors, source: StateNode,
                                   parentMap: map<StateNode, Option<StateNode>>, level: nat)
  {
    forall v, w {:trigger IsPathFrom(succ, w, source, v)} :: IsPathFrom(succ, w, source, v) && |w| <= level + 1 ==> v in parentMap
  }

  /** A discovered state that is neither queued nor `busy` has had all its successors discovered. */
  ghost predicate Expanded(succ: Successors, parentMap: map<StateNode, Option<StateNode>>,
                           queue: seq<StateNode>, busy: Option<StateNode>)
  {
    forall p, y :: y in succ(p) && p in parentMap && p !in queue && busy != Some(p) ==> y in parentMap
  }

  /**
   * What holds of the search between two steps: the parent map is a forest
   * rooted at `source` inside `box`, the queue is layered, every state that
   * left the queue (but `busy`, the one being expanded) has been expanded,
   * everything within `level` steps has been discovered and at its
   * distance, and a discovered target is still waiting in the queue.
   */
  ghost predicate Frontier(succ: Successors, box: set<StateNode>, source: StateNode, target: StateNode,
                           parentMap: map<StateNode, Option<StateNode>>, dist: map<StateNode, nat>,
                           queue: seq<StateNode>, level: nat, busy: Option<StateNode>)
  {
    && ParentForest(succ, source, parentMap, dist)
    && parentMap.Keys <= box
    && QueueLayered(queue, dist, level)
    && Expanded(succ, parentMap, queue, busy)
    && DiscoveredWithin(succ, source, parentMap, level)
    && DepthIsDistance(succ, source, dist)
    && (target in parentMap ==> target in queue)
  }

  /** The search starts with `source` discovered and queued. */
  lemma FrontierStart(succ: Successors, box: set<StateNode>, source: StateNode, target: StateNode)
    requires source in box
    ensures Frontier(succ, box, source, target, map[source := None], map[source := 0], [source], 0, None)
  {
  }

  /** Taking the head of the queue makes it the state being expanded. */
  lemma FrontierPop(succ: Successors, box: set<StateNode>, source: StateNode, target: StateNode,
                    parentMap: map<StateNode, Option<StateNode>>, dist: map<StateNode, nat>,
                    queue: seq<StateNode>, level: nat)
    requires Frontier(succ, box, source, target, parentMap, dist, queue, level, None)
    requires queue != [] && queue[0] in dist && dist[queue[0]] == level && queue[0] != target
    ensures Frontier(succ, box, source, target, parentMap, dist, queue[1..], level, Some(queue[0]))
    ensures queue[0] in parentMap && queue[0] !in queue[1..]
  {
    var rest := queue[1..];
    forall p, y | y in succ(p) && p in parentMap && p !in rest && Some(queue[0]) != Some(p)
      ensures y in parentMap
    {
      assert p !in queue;
    }
    if target in parentMap {
      assert target in rest;
    }
  }

  /**
   * When the head of the queue is one step deeper than `level`, every state
   * reachable in `level + 1` steps has been discovered: the search moves
   * to the next level.
   */
  lemma FrontierAdvance(succ: Successors, box: set<StateNode>, source: StateNode, target: StateNode,
                        parentMap: map<StateNode, Option<StateNode>>, dist: map<StateNode, nat>,
                        queue: seq<StateNode>, level: nat)
    requires Frontier(succ, box, source, target, parentMap, dist, queue, level, None)
    requires queue != [] && queue[0] in dist && dist[queue[0]] != level
    ensures Frontier(succ, box, source, target, parentMap, dist, queue, level + 1, None)
    ensures dist[queue[0]] == level + 1
  {
    forall i | 0 <= i < |queue| ensures level + 1 <= dist[queue[i]] {
      if i > 0 {
        assert dist[queue[0]] <= dist[queue[i]];
      }
    }
    DiscoveredOneLevelDeeper(succ, source, parentMap, dist, queue, level);
  }

  /**
   * With every queued state deeper than `level`, each state one step beyond
   * a state within `level` steps has been discovered.
   */
  lemma DiscoveredOneLevelDeeper(succ: Successors, source: StateNode,
                                 parentMap: map<StateNode, Option<StateNode>>, dist: map<StateNode, nat>,
                                 queue: seq<StateNode>, level: nat)
    requires dist.Keys == parentMap.Keys
    requires DiscoveredWithin(succ, source, parentMap, level)
    requires DepthIsDistance(succ, source, dist)
    requires Expanded(succ, parentMap, queue, None)
    requires forall i :: 0 <= i < |queue| ==> queue[i] in dist && level + 1 <= dist[queue[i]]
    ensures DiscoveredWithin(succ, source, parentMap, level + 1)
  {
    forall v, w {:trigger IsPathFrom(succ, w, source, v)} | IsPathFrom(succ, w, source, v) && |w| <= level + 2 ensures v in parentMap {
      if |w| == level + 2 {
        var front := w[..|w| - 1];
        WalkPrefix(succ, w, |w| - 1);
        var u := front[|front| - 1];
        assert IsPathFrom(succ, front, source, u);
        assert u in parentMap && dist[u] <= level;
        assert u !in queue;
        assert v in succ(u);
      }
    }
  }

  /** A traced-back path of `dist[target] + 1` states is no longer than any walk to `target`. */
  lemma TracedPathIsShortest(succ: Successors, source: StateNode, target: StateNode,
                             dist: map<StateNode, nat>, path: seq<StateNode>)
    requires target in dist && DepthIsDistance(succ, source, dist)
    requires |path| == dist[target] + 1
    ensures forall w {:trigger IsPathFrom(succ, w, source, target)} :: IsPathFrom(succ, w, source, target) ==> |path| <= |w|
  {
    forall w {:trigger IsPathFrom(succ, w, source, target)} | IsPathFrom(succ, w, source, target) ensures |path| <= |w| {
      assert dist[target] < |w|;
    }
  }

  /**
   * With the queue empty, the discovered states are closed under `succ`, so
   * an undiscovered target is unreachable.
   */
  lemma ExhaustedMeansUnreachable(succ: Successors, box: set<StateNode>, source: StateNode, target: StateNode,
                                  parentMap: map<StateNode, Option<StateNode>>, dist: map<StateNode, nat>, level: nat)
    requires Frontier(succ, box, source, target, parentMap, dist, [], level, None)
    ensures source != target
    ensures forall w {:trigger IsPathFrom(succ, w, source, target)} :: !IsPathFrom(succ, w, source, target)
  {
    assert Closed(succ, parentMap.Keys);
    forall w {:trigger IsPathFrom(succ, w, source, target)} | IsPathFrom(succ, w, source, target) ensures false {
      WalkStaysInClosedSet(succ, w, parentMap.Keys);
    }
  }

  /** A set holds at least as many states as any of its subsets. */
  lemma SubsetNoLarger(a: set<StateNode>, b: set<StateNode>)
    requires a <= b
    ensures |a| <= |b|
  {
    assert b == a + (b - a);
    assert a * (b - a) == {};
  }

  /** Discovering a state of the box shrinks the set of undiscovered ones. */
  lemma FewerUndiscovered(box: set<StateNode>, seen: set<StateNode>, seen': set<StateNode>, x: StateNode)
    requires x in box && x !in seen && seen + {x} <= seen'
    ensures |box - seen'| < |box - seen|
  {
    var before := box - seen;
    assert box - (seen + {x}) == before - {x};
    SubsetNoLarger(box - seen', box - (seen + {x}));
  }

  /**
   * The states of `children` that are not in `seen`, each once, in the
   * order in which the `for` loop of `search` first meets them.
   */
  function Unseen(children: seq<StateNode>, seen: set<StateNode>): (r: seq<StateNode>)
    ensures forall x :: x in r <==> x in children && x !in seen
    ensures forall i, j :: 0 <= i < j < |r| ==> r[i] != r[j]
  {
    if children == [] then []
    else
      var earlier := Unseen(children[..|children| - 1], seen);
      var last := children[|children| - 1];
      assert children == children[..|children| - 1] + [last];
      if last in seen || last in earlier then earlier else earlier + [last]
  }

  /** One more child for the `for` loop: how `Unseen` and the children met so far grow. */
  lemma UnseenStep(children: seq<StateNode>, i: nat, seen: set<StateNode>)
    requires i < |children|
    ensures Unseen(children[..i + 1], seen) ==
      if children[i] in seen || children[i] in Unseen(children[..i], seen) then Unseen(children[..i], seen)
      else Unseen(children[..i], seen) + [children[i]]
    ensures forall x :: x in children[..i + 1] <==> x in children[..i] || x == children[i]
  {
    assert children[..i + 1][..i] == children[..i];
    assert children[..i + 1] == children[..i] + [children[i]];
  }

  /**
   * What the `for` loop of `search` does to the search state: `added`, the
   * unseen successors of `current`, each once, join the back of the queue and
   * become keys with parent `current`; nothing else changes.
   */
  ghost predicate Discovered(succ: Successors, current: StateNode,
                             parentMap0: map<StateNode, Option<StateNode>>, queue0: seq<StateNode>, added: seq<StateNode>,
                             parentMap: map<StateNode, Option<StateNode>>, queue: seq<StateNode>)
  {
    && queue == queue0 + added
    && (forall i, j :: 0 <= i < j < |added| ==> added[i] != added[j])
    && (forall x :: x in added <==> x in succ(current) && x !in parentMap0)
    && (forall k :: k in parentMap <==> k in parentMap0 || k in succ(current))
    && (forall k :: k in parentMap0 ==> parentMap[k] == parentMap0[k])
    && (forall k :: k in parentMap && k !in parentMap0 ==> parentMap[k] == Some(current))
  }

  /** The depths after a `for` loop: the old ones, and `level + 1` for the new keys. */
  ghost predicate Deepened(dist0: map<StateNode, nat>, parentMap: map<StateNode, Option<StateNode>>,
                           dist: map<StateNode, nat>, level: nat)
  {
    && dist.Keys == parentMap.Keys
    && forall k :: k in dist ==> dist[k] == if k in dist0 then dist0[k] else level + 1
  }

  lemma ForestAfterDiscovery(succ: Successors, source: StateNode, current: StateNode, level: nat,
                             parentMap0: map<StateNode, Option<StateNode>>, dist0: map<StateNode, nat>, queue0: seq<StateNode>, added: seq<StateNode>,
                             parentMap: map<StateNode, Option<StateNode>>, dist: map<StateNode, nat>, queue: seq<StateNode>)
    requires ParentForest(succ, source, parentMap0, dist0)
    requires current in parentMap0 && dist0[current] == level
    requires Discovered(succ, current, parentMap0, queue0, added, parentMap, queue)
    requires Deepened(dist0, parentMap, dist, level)
    ensures ParentForest(succ, source, parentMap, dist)
  {
    forall k | k in parentMap && k != source
      ensures parentMap[k].Some? && parentMap[k].value in parentMap
      ensures k in succ(parentMap[k].value) && dist[k] == dist[parentMap[k].value] + 1
    {
      if k in parentMap0 {
        assert parentMap[k] == parentMap0[k];
        assert parentMap0[k].value in parentMap0;
      } else {
        assert parentMap[k] == Some(current);
      }
    }
  }

  lemma QueueAfterDiscovery(succ: Successors, current: StateNode, level: nat,
                            parentMap0: map<StateNode, Option<StateNode>>, dist0: map<StateNode, nat>, queue0: seq<StateNode>, added: seq<StateNode>,
                            parentMap: map<StateNode, Option<StateNode>>, dist: map<StateNode, nat>, queue: seq<StateNode>)
    requires QueueLayered(queue0, dist0, level) && dist0.Keys == parentMap0.Keys
    requires Discovered(succ, current, parentMap0, queue0, added, parentMap, queue)
    requires Deepened(dist0, parentMap, dist, level)
    ensures QueueLayered(queue, dist, level)
  {
    forall i | 0 <= i < |queue| ensures queue[i] in dist && level <= dist[queue[i]] <= level + 1 {
      if i < |queue0| {
        assert queue[i] == queue0[i];
      } else {
        assert queue[i] == added[i - |queue0|];
      }
    }
    forall i, j | 0 <= i < j < |queue| ensures queue[i] != queue[j] && dist[queue[i]] <= dist[queue[j]] {
      if j < |queue0| {
        assert queue[i] == queue0[i] && queue[j] == queue0[j];
      } else if i < |queue0| {
        assert queue[i] == queue0[i] && queue[j] == added[j - |queue0|];
      } else {
        assert queue[i] == added[i - |queue0|] && queue[j] == added[j - |queue0|];
      }
    }
  }

  lemma ExpandedAfterDiscovery(succ: Successors, current: StateNode,
                               parentMap0: map<StateNode, Option<StateNode>>, queue0: seq<StateNode>, added: seq<StateNode>,
                               parentMap: map<StateNode, Option<StateNode>>, queue: seq<StateNode>)
    requires Expanded(succ, parentMap0, queue0, Some(current))
    requires Discovered(succ, current, parentMap0, queue0, added, parentMap, queue)
    ensures Expanded(succ, parentMap, queue, None)
  {
    forall p, y | y in succ(p) && p in parentMap && p !in queue ensures y in parentMap {
      if p != current {
        assert p !in added;
        assert p in parentMap0 && p !in queue0;
      }
    }
  }

  lemma DepthAfterDiscovery(succ: Successors, source: StateNode, level: nat,
                            parentMap0: map<StateNode, Option<StateNode>>, dist0: map<StateNode, nat>,
                            parentMap: map<StateNode, Option<StateNode>>, dist: map<StateNode, nat>)
    requires DepthIsDistance(succ, source, dist0) && dist0.Keys == parentMap0.Keys
    requires DiscoveredWithin(succ, source, parentMap0, level)
    requires Deepened(dist0, parentMap, dist, level)
    ensures DepthIsDistance(succ, source, dist)
  {
    forall v, w {:trigger IsPathFrom(succ, w, source, v)} | IsPathFrom(succ, w, source, v) && v in dist ensures dist[v] < |w| {
      if v !in dist0 {
        assert |w| > level + 1;
      }
    }
  }

  /**
   * Expanding the head of the queue keeps the frontier, with `current` now
   * expanded, and either discovers a state of the box or changes nothing.
   */
  lemma FrontierAfterDiscovery(succ: Successors, box: set<StateNode>, source: StateNode, target: StateNode,
                               current: StateNode, level: nat,
                               parentMap0: map<StateNode, Option<StateNode>>, dist0: map<StateNode, nat>, queue0: seq<StateNode>, added: seq<StateNode>,
                               parentMap: map<StateNode, Option<StateNode>>, dist: map<StateNode, nat>, queue: seq<StateNode>)
    requires Frontier(succ, box, source, target, parentMap0, dist0, queue0, level, Some(current))
    requires Closed(succ, box)
    requires current in parentMap0 && dist0[current] == level
    requires Discovered(succ, current, parentMap0, queue0, added, parentMap, queue)
    requires Deepened(dist0, parentMap, dist, level)
    ensures Frontier(succ, box, source, target, parentMap, dist, queue, level, None)
    ensures (parentMap.Keys == parentMap0.Keys && queue == queue0)
            || |box - parentMap.Keys| < |box - parentMap0.Keys|
  {
    ForestAfterDiscovery(succ, source, current, level, parentMap0, dist0, queue0, added, parentMap, dist, queue);
    QueueAfterDiscovery(succ, current, level, parentMap0, dist0, queue0, added, parentMap, dist, queue);
    ExpandedAfterDiscovery(succ, current, parentMap0, queue0, added, parentMap, queue);
    DepthAfterDiscovery(succ, source, level, parentMap0, dist0, parentMap, dist);
    KeysAfterDiscovery(succ, box, target, current, parentMap0, queue0, added, parentMap, queue);
    UndiscoveredAfterDiscovery(succ, box, current, parentMap0, queue0, added, parentMap, queue);
  }

  /** The new keys stay in the box, and a discovered target is queued. */
  lemma KeysAfterDiscovery(succ: Successors, box: set<StateNode>, target: StateNode, current: StateNode,
                           parentMap0: map<StateNode, Option<StateNode>>, queue0: seq<StateNode>, added: seq<StateNode>,
                           parentMap: map<StateNode, Option<StateNode>>, queue: seq<StateNode>)
    requires Closed(succ, box) && current in box && parentMap0.Keys <= box
    requires target in parentMap0 ==> target in queue0
    requires Discovered(succ, current, parentMap0, queue0, added, parentMap, queue)
    ensures parentMap.Keys <= box
    ensures target in parentMap ==> target in queue
  {
    forall k | k in parentMap ensures k in box && (k in parentMap0 || k in added) {
      if k !in parentMap0 {
        assert k in succ(current);
      }
    }
  }

  /** The `for` loop either changes nothing or leaves fewer states of the box undiscovered. */
  lemma UndiscoveredAfterDiscovery(succ: Successors, box: set<StateNode>, current: StateNode,
                                   parentMap0: map<StateNode, Option<StateNode>>, queue0: seq<StateNode>, added: seq<StateNode>,
                                   parentMap: map<StateNode, Option<StateNode>>, queue: seq<StateNode>)
    requires Closed(succ, box) && current in box
    requires Discovered(succ, current, parentMap0, queue0, added, parentMap, queue)
    ensures (parentMap.Keys == parentMap0.Keys && queue == queue0)
            || |box - parentMap.Keys| < |box - parentMap0.Keys|
  {
    if added == [] {
      assert parentMap.Keys == parentMap0.Keys;
      assert queue == queue0;
    } else {
      var x := added[0];
      assert x in succ(current) && x !in parentMap0;
      assert parentMap0.Keys + {x} <= parentMap.Keys;
      FewerUndiscovered(box, parentMap0.Keys, parentMap.Keys, x);
    }
  }

  /** The depth map after a `for` loop that made `parentMap` out of the keys of `dist0`. */
  ghost function Deepen(dist0: map<StateNode, nat>, parentMap: map<StateNode, Option<StateNode>>, level: nat): (dist: map<StateNode, nat>)
    ensures Deepened(dist0, parentMap, dist, level)
  {
    map k | k in parentMap :: if k in dist0 then dist0[k] else level + 1
  }

  /**
   * One turn of the `while` loop of `search` that does not find the target
   * keeps the frontier (one level deeper once the head of the queue is),
   * and either discovers a state of the box or shortens the queue.
   */
  lemma SearchStep(succ: Successors, box: set<StateNode>, source: StateNode, target: StateNode,
                   parentMap0: map<StateNode, Option<StateNode>>, dist0: map<StateNode, nat>, queue0: seq<StateNode>, added: seq<StateNode>, level: nat,
                   parentMap: map<StateNode, Option<StateNode>>, queue: seq<StateNode>)
    requires Frontier(succ, box, source, target, parentMap0, dist0, queue0, level, None) && Closed(succ, box)
    requires queue0 != [] && queue0[0] in dist0 && dist0[queue0[0]] == level && queue0[0] != target
    requires Discovered(succ, queue0[0], parentMap0, queue0[1..], added, parentMap, queue)
    ensures var dist := Deepen(dist0, parentMap, level);
            var level' := if queue != [] && dist[queue[0]] != level then level + 1 else level;
            && Frontier(succ, box, source, target, parentMap, dist, queue, level', None)
            && (queue != [] ==> queue[0] in dist && dist[queue[0]] == level')
    ensures (parentMap.Keys == parentMap0.Keys && queue == queue0[1..])
            || |box - parentMap.Keys| < |box - parentMap0.Keys|
  {
    var dist := Deepen(dist0, parentMap, level);
    FrontierPop(succ, box, source, target, parentMap0, dist0, queue0, level);
    FrontierAfterDiscovery(succ, box, source, target, queue0[0], level,
                           parentMap0, dist0, queue0[1..], added, parentMap, dist, queue);
    if queue != [] && dist[queue[0]] != level {
      FrontierAdvance(succ, box, source, target, parentMap, dist, queue, level);
    } else if queue != [] {
      assert queue[0] in dist;
    }
  }

  /**
   * The state of the `for` loop once it has looked at `children[..i]`: the
   * unseen ones among them queued and made keys with parent `current`.
   */
  ghost predicate Scanned(current: StateNode, children: seq<StateNode>, i: nat,
                          parentMap0: map<StateNode, Option<StateNode>>, queue0: seq<StateNode>, added: seq<StateNode>,
                          parentMap: map<StateNode, Option<StateNode>>, queue: seq<StateNode>)
  {
    && i <= |children|
    && added == Unseen(children[..i], parentMap0.Keys)
    && queue == queue0 + added
    && ParentsSet(current, children[..i], parentMap0, parentMap)
  }

  /** The keys are the old ones and `looked`; the new ones have parent `current`. */
  ghost predicate ParentsSet(current: StateNode, looked: seq<StateNode>,
                             parentMap0: map<StateNode, Option<StateNode>>, parentMap: map<StateNode, Option<StateNode>>)
  {
    && (forall k :: k in parentMap <==> k in parentMap0 || k in looked)
    && (forall k :: k in parentMap0 ==> parentMap[k] == parentMap0[k])
    && (forall k :: k in parentMap && k !in parentMap0 ==> parentMap[k] == Some(current))
  }

  /** Giving a new child the parent `current` keeps the parent map in step with the children looked at. */
  lemma ParentsSetGrows(current: StateNode, looked: seq<StateNode>, child: StateNode,
                        parentMap0: map<StateNode, Option<StateNode>>, parentMap: map<StateNode, Option<StateNode>>)
    requires ParentsSet(current, looked, parentMap0, parentMap) && child !in parentMap
    ensures ParentsSet(current, looked + [child], parentMap0, parentMap[child := Some(current)])
  {
    var m := parentMap[child := Some(current)];
    forall k ensures k in m <==> k in parentMap0 || k in looked + [child] {
      assert k in looked + [child] <==> k in looked || k == child;
    }
  }

  /** One turn of the `for` loop on a child not yet a key: it is queued and gets `current` as parent. */
  lemma ScanNewChild(current: StateNode, children: seq<StateNode>, i: nat,
                     parentMap0: map<StateNode, Option<StateNode>>, queue0: seq<StateNode>, added: seq<StateNode>,
                     parentMap: map<StateNode, Option<StateNode>>, queue: seq<StateNode>)
    requires Scanned(current, children, i, parentMap0, queue0, added, parentMap, queue) && i < |children|
    requires children[i] !in parentMap
    ensures Scanned(current, children, i + 1, parentMap0, queue0, added + [children[i]],
                    parentMap[children[i] := Some(current)], queue + [children[i]])
  {
    var child := children[i];
    UnseenStep(children, i, parentMap0.Keys);
    assert child !in parentMap0 && child !in children[..i];
    assert child !in added;
    assert added + [child] == Unseen(children[..i + 1], parentMap0.Keys);
    assert queue + [child] == queue0 + (added + [child]);
    ParentsSetGrows(current, children[..i], child, parentMap0, parentMap);
    assert children[..i] + [child] == children[..i + 1];
  }

  /** One turn of the `for` loop on a child that is a key already: nothing changes. */
  lemma ScanKnownChild(current: StateNode, children: seq<StateNode>, i: nat,
                       parentMap0: map<StateNode, Option<StateNode>>, queue0: seq<StateNode>, added: seq<StateNode>,
                       parentMap: map<StateNode, Option<StateNode>>, queue: seq<StateNode>)
    requires Scanned(current, children, i, parentMap0, queue0, added, parentMap, queue) && i < |children|
    requires children[i] in parentMap
    ensures Scanned(current, children, i + 1, parentMap0, queue0, added, parentMap, queue)
  {
    var child := children[i];
    UnseenStep(children, i, parentMap0.Keys);
    assert child in parentMap0 || child in added;
    assert forall k :: k in parentMap <==> k in parentMap0 || k in children[..i + 1];
  }

  /** The `for` loop run to the end has discovered the unseen children. */
  lemma ScanDone(succ: Successors, current: StateNode,
                 parentMap0: map<StateNode, Option<StateNode>>, queue0: seq<StateNode>, added: seq<StateNode>,
                 parentMap: map<StateNode, Option<StateNode>>, queue: seq<StateNode>)
    requires Scanned(current, succ(current), |succ(current)|, parentMap0, queue0, added, parentMap, queue)
    ensures added == Unseen(succ(current), parentMap0.Keys)
    ensures Discovered(succ, current, parentMap0, queue0, added, parentMap, queue)
  {
    assert succ(current)[..|succ(current)|] == succ(current);
  }

  /**
   * The `for` loop of `search`: every successor of `current` that is not yet
   * a key of the parent map gets `current` as its parent and joins the back
   * of the queue.
   */
  method DiscoverChildren(succ: Successors, current: StateNode,
                          parentMap0: map<StateNode, Option<StateNode>>, queue0: seq<StateNode>)
    returns (parentMap: map<StateNode, Option<StateNode>>, queue: seq<StateNode>)
    ensures Discovered(succ, current, parentMap0, queue0, Unseen(succ(current), parentMap0.Keys), parentMap, queue)
  {
    parentMap, queue := parentMap0, queue0;
    var children := succ(current);
    ghost var added: seq<StateNode> := [];
    var i := 0;
    assert children[..0] == [];
    while i < |children|
      invariant Scanned(current, children, i, parentMap0, queue0, added, parentMap, queue)
      decreases |children| - i
    {
      var child := children[i];
      if child !in parentMap {
        ScanNewChild(current, children, i, parentMap0, queue0, added, parentMap, queue);
        parentMap := parentMap[child := Some(current)];
        queue := queue + [child];
        added := added + [child];
      } else {
        ScanKnownChild(current, children, i, parentMap0, queue0, added, parentMap, queue);
      }
      i := i + 1;
    }
    ScanDone(succ, current, parentMap0, queue0, added, parentMap, queue);
  }

  /**
   * `search`, for the successor function `succ`: returns a shortest walk
   * from `source` to `target`, with no state twice, or throws
   * `IllegalStateException` exactly when no walk reaches `target`. The ghost
   * `box`, a finite set closed under `succ`, bounds the number of states the
   * search can discover.
   */
  method SearchIn(succ: Successors, ghost box: set<StateNode>, source: StateNode, target: StateNode)
    returns (r: Result<seq<StateNode>>)
    requires source in box && Closed(succ, box)
    ensures r.Ok? ==> IsPathFrom(succ, r.value, source, target)
    ensures r.Ok? ==> forall i, j :: 0 <= i < j < |r.value| ==> r.value[i] != r.value[j]
    ensures r.Ok? ==> forall w {:trigger IsPathFrom(succ, w, source, target)} :: IsPathFrom(succ, w, source, target) ==> |r.value| <= |w|
    ensures r.Err? ==> r.error == IllegalStateException
    ensures r.Err? ==> forall w {:trigger IsPathFrom(succ, w, source, target)} :: !IsPathFrom(succ, w, source, target)
    ensures source == target ==> r == Ok([source])
  {
    var parentMap: map<StateNode, Option<StateNode>> := map[source := None];
    var queue: seq<StateNode> := [source];
    ghost var dist: map<StateNode, nat> := map[source := 0];
    ghost var level: nat := 0;
    FrontierStart(succ, box, source, target);

    while queue != []
      invariant Frontier(succ, box, source, target, parentMap, dist, queue, level, None)
      invariant queue != [] ==> queue[0] in dist && dist[queue[0]] == level
      decreases |box - parentMap.Keys|, |queue|
    {
      var current := queue[0];
      ghost var waiting := queue;
      queue := queue[1..];

      if State.Equals(current, Instance(target)) {
        var path := TracebackPath(target, parentMap, succ, source, dist);
        TracedPathIsShortest(succ, source, target, dist, path);
        if source == target {
          assert path == [source];
        }
        return Ok(path);
      }

      ghost var parentMap0 := parentMap;
      parentMap, queue := DiscoverChildren(succ, current, parentMap, queue);
      SearchStep(succ, box, source, target, parentMap0, dist, waiting,
                 Unseen(succ(current), parentMap0.Keys), level, parentMap, queue);
      dist := Deepen(dist, parentMap, level);
      if queue != [] && dist[queue[0]] != level {
        level := level + 1;
      }
    }

    ExhaustedMeansUnreachable(succ, box, source, target, parentMap, dist, level);
    return Err(IllegalStateException);
  }

  // ---------------------------------------------------------------------------
  // The search over the puzzle's states
  // ---------------------------------------------------------------------------

  /**
   * A finite box of states that contains everything reachable from
   * `source`: the same parameters, and counts between the source's counts,
   * zero and the totals.
   */
  ghost predicate InBox(source: StateNode, x: StateNode)
  {
    var p := source.parameters;
    && x.parameters == p
    && Min(0, source.missionariesOnSourceBank) <= x.missionariesOnSourceBank
    && x.missionariesOnSourceBank <= Max(source.missionariesOnSourceBank, p.totalNumberOfMissionaries)
    && Min(0, source.cannibalsOnSourceBank) <= x.cannibalsOnSourceBank
    && x.cannibalsOnSourceBank <= Max(source.cannibalsOnSourceBank, p.totalNumberOfCannibals)
  }

  ghost function Box(source: StateNode): set<StateNode>
  {
    var p := source.parameters;
    set m: int, c: int, b: BoatLocation |
      && Min(0, source.missionariesOnSourceBank) <= m <= Max(source.missionariesOnSourceBank, p.totalNumberOfMissionaries)
      && Min(0, source.cannibalsOnSourceBank) <= c <= Max(source.cannibalsOnSourceBank, p.totalNumberOfCannibals)
      && (b == SourceRiverBank || b == TargetRiverBank)
      :: StateNode(m, c, p, b)
  }

  /** A crossing never leaves the box, whichever bank the boat is on. */
  lemma NeighborStaysInBox(source: StateNode, x: StateNode, y: StateNode)
    requires InBox(source, x) && y in Neighbors(x)
    ensures InBox(source, y)
  {
    if x.boatLocation == SourceRiverBank {
      NeighborsFromSource(x, y);
    } else {
      NeighborsFromTarget(x, y);
    }
  }

  /** The states the search can reach from `source` form a finite set closed under crossings. */
  lemma StateSpaceIsFinite(source: StateNode)
    ensures source in Box(source)
    ensures Closed(Neighbors, Box(source))
  {
    forall x | InBox(source, x) ensures x in Box(source) {
      assert x == StateNode(x.missionariesOnSourceBank, x.cannibalsOnSourceBank, source.parameters, x.boatLocation);
    }
    forall x, y | x in Box(source) && y in Neighbors(x) ensures y in Box(source) {
      NeighborStaysInBox(source, x, y);
    }
  }

  /**
   * `search` on the puzzle: a shortest sequence of crossings from `source`
   * to `target`, with no state twice, or `IllegalStateException` exactly
   * when the target cannot be reached.
   */
  method Search(source: StateNode, target: StateNode) returns (r: Result<seq<StateNode>>)
    ensures r.Ok? ==> IsPathFrom(Neighbors, r.value, source, target)
    ensures r.Ok? ==> forall i, j :: 0 <= i < j < |r.value| ==> r.value[i] != r.value[j]
    ensures r.Ok? ==> forall w {:trigger IsPathFrom(Neighbors, w, source, target)} :: IsPathFrom(Neighbors, w, source, target) ==> |r.value| <= |w|
    ensures r.Err? ==> r.error == IllegalStateException
    ensures r.Err? ==> forall w {:trigger IsPathFrom(Neighbors, w, source, target)} :: !IsPathFrom(Neighbors, w, source, target)
    ensures source == target ==> r == Ok([source])
  {
    StateSpaceIsFinite(source);
    r := SearchIn(Neighbors, Box(source), source, target);
  }
}
