# Missionaries and Cannibals, modelled in Dafny

This project models the solver in the Java package
`net.coderodde.missionaries`. In the puzzle, `totalNumberOfMissionaries`
missionaries and `totalNumberOfCannibals` cannibals must cross a river in a
boat that holds `boatCapacity` people. A bank where missionaries are present
but outnumbered by cannibals makes a state *terminal*. The model covers:

- `GameParameters` (module `Parameters`): the three-field record, with
  `equals` and `hashCode`. The hash is the xor of the 32-bit patterns of the
  three fields.
- `StateNode` (module `State`):
  - the state as a value, and `isTerminalState`;
  - the two end states;
  - the two nested-loop generators `trySendFromSource` and
    `trySendFromTarget`, as methods with `while` loops. Each is proved equal
    to the specification function `Crossings`.
  - `buildNeighborsList`;
  - the memoising `getNeighbors`, on a class `StateNodeObject` whose
    `neighbors` field is filled on first use;
  - `equals`.
- `StateNodePath` (module `Path`): an immutable datatype over a non-empty
  node sequence, with `append`, `getEndPoint`, `getNumberOfNodes` and
  `compareTo`.
- `BFS` (module `BreadthFirst`): `search`, with a FIFO queue and a parent
  map, and `tracebackPath`.
- `KShortestPathFinder` (module `KShortest`): `search`, with a priority queue
  of paths ordered by `compareTo` and no visited set.

Both searches are proved over any successor function (`Graph.Successors`).
They are then instantiated with `State.Neighbors`, which is what
`getNeighbors` returns:

- `BreadthFirst.SearchIn` returns a walk from `source` to `target` that is no
  longer than any other walk between them and never repeats a state.
- It throws `IllegalStateException` exactly when no walk reaches `target`.
- It terminates because every state reachable from a state lies in a finite
  box (`StateSpaceIsFinite`).
- Its `for` loop is the method `DiscoverChildren`.
- The depth of each discovered state (`dist`) and the current queue level are
  ghost bookkeeping: the Java code does not store them.
- `Collections.reverse` is the function `Reverse`.

For `KShortest.SearchIn`:

- Taking the least element of the heap is a nondeterministic choice among the
  shortest paths: `PriorityQueue` leaves ties unspecified.
- Its termination measure is the number of walks each heap path can still
  grow into before it exceeds the length limit. Each turn of the loop lowers
  that number by exactly one (`WeightDrops`).
- It returns every walk from `source` to `target` with *at most*
  `requestedPathLength` nodes, once each and shortest first. A shorter walk
  that reaches the target is kept, so this is not limited to walks of exactly
  that length.

Equality of paths is value equality of their node sequences. Java compares
`StateNodePath` objects by identity, but no two heap entries share a node
sequence, so the two notions agree on everything the search produces.

## Model

| member | source | states |
|---|---|---|
| Parameters.GettersReturnConstructorArguments | src/main/java/net/coderodde/missionaries/GameParameters.java:13-31 | the getters return exactly the constructor's arguments, and no triple of ints is rejected |
| Parameters.Equals | src/main/java/net/coderodde/missionaries/GameParameters.java:39-68 | `equals` is true iff the argument is a `GameParameters` with the same three fields; false for `null` and for another class |
| Parameters.EqualsIsEquivalence | src/main/java/net/coderodde/missionaries/GameParameters.java:39-68 | `equals` is reflexive, symmetric and transitive |
| Parameters.EqualParametersHaveEqualHashCodes | src/main/java/net/coderodde/missionaries/GameParameters.java:33-68 | objects that are `equals` have the same 32-bit `hashCode` (the xor of the three fields) |
| Parameters.HashCodeIgnoresFieldOrder | src/main/java/net/coderodde/missionaries/GameParameters.java:33-37 | the xor hash does not change when the fields are permuted, so different parameters can share a hash |
| State.TerminalIffSomeBankOutnumbered | src/main/java/net/coderodde/missionaries/StateNode.java:171-187 | `isTerminalState` holds iff on some bank the missionaries are present and fewer than the cannibals; target counts are the totals minus the source counts |
| State.BankWithoutMissionariesIsSafe | src/main/java/net/coderodde/missionaries/StateNode.java:171-187 | a bank without missionaries never makes a state terminal: terminality is then decided by the other bank alone |
| State.SourceState | src/main/java/net/coderodde/missionaries/StateNode.java:276-281 | `getSourceState`: everybody and the boat on the source bank, nobody on the target bank |
| State.TargetState | src/main/java/net/coderodde/missionaries/StateNode.java:283-288 | `getTargetState`: nobody on the source bank, everybody and the boat on the target bank |
| State.EndStatesTerminalIff | src/main/java/net/coderodde/missionaries/StateNode.java:171-187 | each end state is terminal iff there are some missionaries but fewer than cannibals in total |
| State.CrossingsMembers | src/main/java/net/coderodde/missionaries/StateNode.java:205-265 | a state is generated from a bank iff it is non-terminal, has the boat opposite, and its load lies in both loops' ranges |
| State.NeighborsFromSource | src/main/java/net/coderodde/missionaries/StateNode.java:205-230 | from the source bank the neighbours are exactly the non-terminal states reached by sending 1 to `boatCapacity` people that are present there |
| State.NeighborsFromTarget | src/main/java/net/coderodde/missionaries/StateNode.java:232-265 | from the target bank the neighbours are exactly the non-terminal states that move each kind by at most `boatCapacity`, at least one person in all, without exceeding the totals |
| State.ReturnTripMayExceedCapacity | src/main/java/net/coderodde/missionaries/StateNode.java:247-251 | because `cend` is unused, from (0, 0, target) with parameters (3, 3, 2) four people come back in one crossing |
| State.NeighborIsSafeAndCrosses | src/main/java/net/coderodde/missionaries/StateNode.java:221-225 | every neighbour is non-terminal, has the boat on the other bank (so it is never the state itself) and keeps the parameters |
| State.NeighborCountsInRange | src/main/java/net/coderodde/missionaries/StateNode.java:205-265 | neighbours of a state whose counts lie between 0 and the totals have counts in that range too |
| State.NeighborsOrderedWithoutDuplicates | src/main/java/net/coderodde/missionaries/StateNode.java:211-216 | neighbours come in ascending missionaries, then ascending cannibals, and no state is listed twice |
| State.TrySendFromSource | src/main/java/net/coderodde/missionaries/StateNode.java:205-230 | the two nested loops return exactly `Crossings` from the source bank |
| State.TrySendFromTarget | src/main/java/net/coderodde/missionaries/StateNode.java:232-265 | the two nested loops, with the cannibal loop running to `availableCannibals`, return exactly `Crossings` from the target bank |
| State.BuildNeighborsList | src/main/java/net/coderodde/missionaries/StateNode.java:189-203 | dispatches on the boat's bank; the result is `Neighbors`, all non-terminal, all on the other bank |
| State.StateNodeObject.GetNeighbors | src/main/java/net/coderodde/missionaries/StateNode.java:268-274 | fills the cache on the first call, returns the cached list afterwards, and the result is always the neighbours of the four fields |
| State.EqualsAsWritten | src/main/java/net/coderodde/missionaries/StateNode.java:85-116 | `equals` as written: false for `null`, field comparison for a state, `ClassCastException` exactly for an object of another class |
| State.EqualsAsWrittenThrowsForOtherClass | src/main/java/net/coderodde/missionaries/StateNode.java:95-99 | the cast comes before the class test, so any object of another class throws |
| State.Equals | src/main/java/net/coderodde/missionaries/StateNode.java:85-116 | `equals` as the class test intends it: true iff the argument is a state with the same four fields |
| State.EqualsAgreesWhereNothingThrows | src/main/java/net/coderodde/missionaries/StateNode.java:85-116 | on `null` and on states, the corrected `equals` returns what the code returns |
| Path.StateNodePath.NumberOfNodes | src/main/java/net/coderodde/missionaries/StateNodePath.java:33-35 | a path never has fewer than one node |
| Path.StateNodePath.EndPoint | src/main/java/net/coderodde/missionaries/StateNodePath.java:29-31 | the end point is a node of the path, and its index is never out of range |
| Path.StateNodePath.Append | src/main/java/net/coderodde/missionaries/StateNodePath.java:20-27 | `append(x)` has one node more, ends at `x`, and starts with the receiver's nodes |
| Path.StateNodePath.CompareTo | src/main/java/net/coderodde/missionaries/StateNodePath.java:37-42 | `compareTo` is -1, 0 or 1 with the sign of the difference in node counts |
| Path.FromNode | src/main/java/net/coderodde/missionaries/StateNodePath.java:16-18 | the public constructor builds the one-node path of its argument |
| Path.AppendThenDrop | src/main/java/net/coderodde/missionaries/StateNodePath.java:20-31 | dropping the last node of `p.append(x)` gives back `p`, its end point is `x`, and it differs from `p` |
| Path.CompareToIsLengthPreorder | src/main/java/net/coderodde/missionaries/StateNodePath.java:37-42 | `compareTo` is antisymmetric in sign, transitive and total, and depends on nothing but the lengths |
| BreadthFirst.Reverse | src/main/java/net/coderodde/missionaries/BFS.java:53 | `Collections.reverse`: same length, element i is element `n-1-i` of the input |
| BreadthFirst.TracebackPath | src/main/java/net/coderodde/missionaries/BFS.java:43-55 | on a parent map the search built, following parent links until none is left and reversing gives a walk from `source` to the target, one state per depth, with no repeats |
| BreadthFirst.DiscoverChildren | src/main/java/net/coderodde/missionaries/BFS.java:32-37 | every successor not yet in the parent map gets `current` as its parent and joins the back of the queue, once, in list order; nothing else changes |
| BreadthFirst.TracedPathIsShortest | src/main/java/net/coderodde/missionaries/BFS.java:20-37 | the traced path has as many nodes as the target's depth plus one, and no walk to the target is shorter |
| BreadthFirst.ExhaustedMeansUnreachable | src/main/java/net/coderodde/missionaries/BFS.java:25-40 | once the queue is empty without meeting the target, no walk from `source` reaches it |
| BreadthFirst.SearchIn | src/main/java/net/coderodde/missionaries/BFS.java:17-41 | for any finitely bounded successor function: `Ok` is a walk from `source` to `target` with no repeats and no longer than any other walk; `IllegalStateException` iff no walk exists; `[source]` when `source` equals `target` |
| BreadthFirst.StateSpaceIsFinite | src/main/java/net/coderodde/missionaries/BFS.java:25-37 | everything the search can reach from `source` lies in a finite set closed under `getNeighbors`, so the parent map cannot grow forever |
| BreadthFirst.Search | src/main/java/net/coderodde/missionaries/BFS.java:17-41 | `search` over `getNeighbors`, with the guarantees of `SearchIn` |
| KShortest.LeastExists | src/main/java/net/coderodde/missionaries/KShortestPathFinder.java:22-26 | a non-empty priority queue always has a least path under `compareTo` to hand out |
| KShortest.AddChildren | src/main/java/net/coderodde/missionaries/KShortestPathFinder.java:37-40 | the `for` loop adds to the heap, in order, the current path extended by each neighbour of its end point |
| KShortest.WeightDrops | src/main/java/net/coderodde/missionaries/KShortestPathFinder.java:25-40 | expanding a path of at most `requestedPathLength` nodes strictly lowers the number of walks the heap can still produce, so the loop ends |
| KShortest.ExpansionStep | src/main/java/net/coderodde/missionaries/KShortestPathFinder.java:25-40 | after one expansion, every heap path is a walk from `source` seen for the first time; every walk is either already removed or extends a heap path; and the collected paths are all removed walks to `target`, shortest first |
| KShortest.StopAtOverLength | src/main/java/net/coderodde/missionaries/KShortestPathFinder.java:29-31 | when the least path is over length, every walk to `target` within the limit has been collected, and some walk from `source` exceeds the limit |
| KShortest.ExhaustedMeansAllShort | src/main/java/net/coderodde/missionaries/KShortestPathFinder.java:25-43 | when the heap runs empty, no walk from `source` has more than `requestedPathLength` nodes |
| KShortest.SearchIn | src/main/java/net/coderodde/missionaries/KShortestPathFinder.java:17-44 | returns exactly the walks from `source` to `target` with at most `requestedPathLength` nodes, each once, in non-decreasing length, when a longer walk exists; otherwise throws `IllegalStateException`, and then no walk from `source` is longer than that |
| KShortest.Search | src/main/java/net/coderodde/missionaries/KShortestPathFinder.java:17-44 | `search` over `getNeighbors`, whose lists never repeat a state, with the guarantees of `SearchIn` |

## Left out

- `App.java`: a driver made of wall-clock timing and console output.
- The static `counter` in `StateNode`: a diagnostic count of constructions, with no bearing on any result.
- `toString` of `StateNode` and `StateNodePath`: library string formatting.
- `StateNode.hashCode` and the internals of `HashMap`, `ArrayDeque` and `PriorityQueue`: these become Dafny maps and sequences. Map lookups use value equality, which agrees with `equals` on states.
- `countMap` in `KShortestPathFinder.search`: it is created and never used.
- 32-bit overflow of the Java ints in counts and loop bounds: counts are unbounded integers. Only `GameParameters.hashCode` is computed on 32 bits.
- `StateNodePath.compareTo` on an argument that is not a path (a `ClassCastException`): the priority queue only ever compares paths.
- Path identity: paths are values, so `append` cannot alias and the receiver trivially stays unchanged.
- `Collections.reverse` working in place: it is the function `BreadthFirst.Reverse` on the list value.
- The solver's other packages and research code: they are not part of this model.
- BreadthFirst.SearchIn: termination and the "throws iff unreachable" guarantee require a finite set of states containing `source` and closed under the successor function. `BreadthFirst.Search` supplies that set for `getNeighbors`.
- KShortest.SearchIn: requires that no successor list repeats a state. `getNeighbors` meets this (`State.NeighborsOrderedWithoutDuplicates`), and `KShortest.Search` discharges it.

## Findings

| source | as written | input that shows it | evidently intended | confidence | as-written member | corrected member |
|---|---|---|---|---|---|---|
| src/main/java/net/coderodde/missionaries/StateNode.java:95-99 | the argument is cast to `StateNode` before its class is compared, so the class test can never return false | `equals` called with an object of any other class | `equals` returns false for an object of another class, as `GameParameters.equals` does | not executed | State.EqualsAsWrittenThrowsForOtherClass | State.Equals |
