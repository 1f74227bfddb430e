/**
 * An immutable walk through the state graph, as the enumeration keeps it in
 * its priority queue. Both constructors put at least one node in the list,
 * so the type carries that as an invariant.
 */
module Path {
  import opened Parameters
  import opened State

  /** A node list never empty: the constructors always add a node. */
  type NodeList = s: seq<StateNode> | |s| >= 1
    witness [StateNode(0, 0, GameParameters(0, 0, 0), SourceRiverBank)]

  datatype StateNodePath = StateNodePath(nodes: NodeList)
  {
    /** `getNumberOfNodes` */
    function NumberOfNodes(): (n: int)
      ensures n >= 1
    {
      |nodes|
    }

    /** `getEndPoint`: the last node; the index is always in range. */
    function EndPoint(): (x: StateNode)
      ensures x in nodes
    {
      nodes[|nodes| - 1]
    }

    /**
     * `append`: a new path, the receiver's nodes followed by `x`; being a
     * value, the receiver itself stays as it was.
     */
    function Append(x: StateNode): (p: StateNodePath)
      ensures p.NumberOfNodes() == NumberOfNodes() + 1
      ensures p.EndPoint() == x
      ensures p.nodes[..|nodes|] == nodes
    {
      StateNodePath(nodes + [x])
    }

    /**
     * `compareTo`: `Integer.compare` of the two node counts, so -1, 0 or 1
     * with the sign of the length difference.
     */
    function CompareTo(other: StateNodePath): (r: int)
      ensures r == -1 || r == 0 || r == 1
      ensures r < 0 <==> NumberOfNodes() < other.NumberOfNodes()
      ensures r == 0 <==> NumberOfNodes() == other.NumberOfNodes()
      ensures r > 0 <==> NumberOfNodes() > other.NumberOfNodes()
    {
      if |nodes| < |other.nodes| then -1
      else if |nodes| == |other.nodes| then 0
      else 1
    }
  }

  /** The public constructor: the one-node path. */
  function FromNode(x: StateNode): (p: StateNodePath)
    ensures p.NumberOfNodes() == 1 && p.EndPoint() == x && p.nodes[0] == x
  {
    StateNodePath([x])
  }

  /** Appending a node and reading it back as end point are inverse steps. */
  lemma {:induction false} AppendThenDrop(p: StateNodePath, x: StateNode)
    ensures p.Append(x).nodes[..p.NumberOfNodes()] == p.nodes
    ensures p.Append(x).EndPoint() == x
    ensures p.Append(x) != p
  {
    assert p.Append(x).NumberOfNodes() != p.NumberOfNodes();
  }

  /**
   * `compareTo` is a total preorder that looks at nothing but the lengths:
   * antisymmetric in sign, transitive, and blind to the nodes themselves.
   */
  lemma CompareToIsLengthPreorder(p: StateNodePath, q: StateNodePath, r: StateNodePath)
    ensures p.CompareTo(q) == -q.CompareTo(p)
    ensures p.CompareTo(q) <= 0 && q.CompareTo(r) <= 0 ==> p.CompareTo(r) <= 0
    ensures p.CompareTo(q) <= 0 || q.CompareTo(p) <= 0
    ensures p.NumberOfNodes() == q.NumberOfNodes() ==> p.CompareTo(r) == q.CompareTo(r)
  {
  }
}
