/**
 * The multi-source BFS benchmark fixture: a complete graph on `nodeCount`
 * nodes, whose relationship iterators hand every other node to a consumer,
 * and a list of source nodes `0 .. sourceCount - 1` at a few fixed scales.
 *
 * The consumer is modelled as the sequence of calls it receives.
 */
module MSBFS {
  import opened JavaTypes
  import opened Wrappers

  /** The `Direction` argument of the iterators, which they ignore. */
  datatype Direction = Outgoing | Incoming | Both

  /** One `RelationshipConsumer.accept(sourceNodeId, targetNodeId, relationId)` call. */
  datatype Relationship = Relationship(source: int, target: int, relationId: int)

  /** One `HugeRelationshipConsumer.accept(sourceNodeId, targetNodeId)` call. */
  datatype HugeRelationship = HugeRelationship(source: int, target: int)

  /** The integers of `[lo, hi)`, ascending. */
  ghost function Range(lo: int, hi: int): seq<int>
  {
    if hi <= lo then [] else seq(hi - lo, k => lo + k)
  }

  lemma RangeMembers(lo: int, hi: int)
    ensures forall t :: t in Range(lo, hi) <==> lo <= t < hi
  {
    forall t | lo <= t < hi
      ensures t in Range(lo, hi)
    {
      assert Range(lo, hi)[t - lo] == t;
    }
  }

  /** The neighbours of `nodeId` in the complete graph on `[0, nodeCount)`: every node but itself. */
  ghost function Targets(nodeCount: int, nodeId: int): seq<int>
  {
    if 0 <= nodeId < nodeCount then Range(0, nodeId) + Range(nodeId + 1, nodeCount)
    else Range(0, nodeCount)
  }

  /** A node is a target exactly when it is a node of the graph other than `nodeId`: no self-loops. */
  lemma TargetsMembers(nodeCount: int, nodeId: int)
    ensures forall t :: t in Targets(nodeCount, nodeId) <==> 0 <= t < nodeCount && t != nodeId
  {
    RangeMembers(0, nodeCount);
    RangeMembers(0, nodeId);
    RangeMembers(nodeId + 1, nodeCount);
  }

  /** Targets come in strictly ascending order, so each occurs once. */
  lemma TargetsAscending(nodeCount: int, nodeId: int)
    ensures forall j, k :: 0 <= j < k < |Targets(nodeCount, nodeId)| ==>
      Targets(nodeCount, nodeId)[j] < Targets(nodeCount, nodeId)[k]
  {
  }

  /** There are `nodeCount - 1` targets of a node of the graph, and `nodeCount` of any other id. */
  lemma TargetsCount(nodeCount: int, nodeId: int)
    ensures |Targets(nodeCount, nodeId)| ==
      if 0 <= nodeId < nodeCount then nodeCount - 1
      else if 0 <= nodeCount then nodeCount
      else 0
  {
  }

  /** Growing the graph by node `i` adds `i` as the last target, unless `i` is `nodeId`. */
  lemma TargetsStep(i: nat, nodeId: int)
    ensures Targets(i + 1, nodeId) == Targets(i, nodeId) + (if i != nodeId then [i] else [])
  {
    assert Range(0, i + 1) == Range(0, i) + [i];
    if 0 <= nodeId < i {
      assert Range(nodeId + 1, i + 1) == Range(nodeId + 1, i) + [i];
    }
  }

  /** `AllNodes`: the relationship iterator of the complete graph on `nodeCount` nodes. */
  class AllNodes {
    const nodeCount: Int

    constructor (nodeCount: Int)
      ensures this.nodeCount == nodeCount
    {
      this.nodeCount := nodeCount;
    }

    /**
     * `forEachRelationship`: one `accept(nodeId, t, -1)` per target `t`, in
     * ascending order; `direction` plays no part.
     */
    method ForEachRelationship(nodeId: Int, direction: Direction) returns (accepted: seq<Relationship>)
      ensures |accepted| == |Targets(nodeCount, nodeId)|
      ensures forall k :: 0 <= k < |accepted| ==>
        accepted[k] == Relationship(nodeId, Targets(nodeCount, nodeId)[k], -1)
    {
      accepted := [];
      var i: Int := 0;
      while i < nodeCount
        invariant 0 <= i && (0 <= nodeCount ==> i <= nodeCount) && (nodeCount < 0 ==> i == 0)
        invariant |accepted| == |Targets(i, nodeId)|
        invariant forall k :: 0 <= k < |accepted| ==> accepted[k] == Relationship(nodeId, Targets(i, nodeId)[k], -1)
      {
        if i != nodeId {
          accepted := accepted + [Relationship(nodeId, i, -1)];
        }
        TargetsStep(i, nodeId);
        i := i + 1;
      }
      assert nodeCount < 0 ==> Targets(nodeCount, nodeId) == [] && Targets(i, nodeId) == [];
    }
  }

  /** `HugeAllNodes`: the same iterator over `long` node ids, without a relationship id. */
  class HugeAllNodes {
    const nodeCount: Long

    constructor (nodeCount: Long)
      ensures this.nodeCount == nodeCount
    {
      this.nodeCount := nodeCount;
    }

    /** `forEachRelationship`: one `accept(nodeId, t)` per target `t`, in ascending order. */
    method ForEachRelationship(nodeId: Long, direction: Direction) returns (accepted: seq<HugeRelationship>)
      ensures |accepted| == |Targets(nodeCount, nodeId)|
      ensures forall k :: 0 <= k < |accepted| ==>
        accepted[k] == HugeRelationship(nodeId, Targets(nodeCount, nodeId)[k])
    {
      accepted := [];
      var i: Long := 0;
      while i < nodeCount
        invariant 0 <= i && (0 <= nodeCount ==> i <= nodeCount) && (nodeCount < 0 ==> i == 0)
        invariant |accepted| == |Targets(i, nodeId)|
        invariant forall k :: 0 <= k < |accepted| ==> accepted[k] == HugeRelationship(nodeId, Targets(i, nodeId)[k])
      {
        if i != nodeId {
          accepted := accepted + [HugeRelationship(nodeId, i)];
        }
        TargetsStep(i, nodeId);
        i := i + 1;
      }
      assert nodeCount < 0 ==> Targets(nodeCount, nodeId) == [] && Targets(i, nodeId) == [];
    }
  }

  /** One fixture instance: `nodeCount` nodes, both iterators, and the source lists (absent when not given). */
  class MSBFSSource {
    const nodeCount: Int
    const rels: AllNodes
    const hugeRels: HugeAllNodes
    const sources: array?<Int>
    const hugeSources: array?<Long>

    /** The two-argument constructor: sources are `0 .. sourceCount - 1`, as `int` and as `long`. */
    constructor WithSources(nodeCount: Int, sourceCount: Int)
      requires 0 <= sourceCount
      ensures this.nodeCount == nodeCount && rels.nodeCount == nodeCount && hugeRels.nodeCount == nodeCount
      ensures sources != null && hugeSources != null && fresh(sources) && fresh(hugeSources)
      ensures sources.Length == sourceCount && hugeSources.Length == sourceCount
      ensures forall i :: 0 <= i < sourceCount ==> sources[i] == i && hugeSources[i] == i
    {
      this.nodeCount := nodeCount;
      rels := new AllNodes(nodeCount);
      hugeRels := new HugeAllNodes(nodeCount);
      var ints := new Int[sourceCount];
      var longs := new Long[sourceCount];
      forall i | 0 <= i < sourceCount {
        ints[i] := i;
      }
      forall i | 0 <= i < sourceCount {
        longs[i] := i;
      }
      sources := ints;
      hugeSources := longs;
    }

    /** The one-argument constructor: no source lists. */
    constructor NodesOnly(nodeCount: Int)
      ensures this.nodeCount == nodeCount && rels.nodeCount == nodeCount && hugeRels.nodeCount == nodeCount
      ensures sources == null && hugeSources == null
    {
      this.nodeCount := nodeCount;
      rels := new AllNodes(nodeCount);
      hugeRels := new HugeAllNodes(nodeCount);
      sources := null;
      hugeSources := null;
    }
  }

  /** The enum constants, each a node count with an optional source count. */
  datatype Scale =
    | Nodes1024Sources32 | Nodes1024Sources128 | Nodes1024Sources1024 | Nodes1024
    | Nodes8192Sources32 | Nodes8192Sources128 | Nodes8192Sources1024 | Nodes8192Sources8192 | Nodes8192
    | Nodes16384Sources32 | Nodes16384Sources128 | Nodes16384Sources1024 | Nodes16384Sources8192
    | Nodes16384Sources16384 | Nodes16384

  /** The node count of a constant. */
  function NodeCount(scale: Scale): (n: Int)
    ensures n == 1024 || n == 8192 || n == 16384
  {
    match scale
    case Nodes1024Sources32 | Nodes1024Sources128 | Nodes1024Sources1024 | Nodes1024 => 1024
    case Nodes8192Sources32 | Nodes8192Sources128 | Nodes8192Sources1024 | Nodes8192Sources8192 | Nodes8192 => 8192
    case Nodes16384Sources32 | Nodes16384Sources128 | Nodes16384Sources1024 | Nodes16384Sources8192
       | Nodes16384Sources16384 | Nodes16384 => 16384
  }

  /** The source count of a constant, absent for the one-argument constants; never more than its node count. */
  function SourceCount(scale: Scale): (c: Option<Int>)
    ensures c.Some? ==> 0 < c.value <= NodeCount(scale)
    ensures c.None? <==> scale in {Nodes1024, Nodes8192, Nodes16384}
  {
    match scale
    case Nodes1024Sources32 | Nodes8192Sources32 | Nodes16384Sources32 => Some(32)
    case Nodes1024Sources128 | Nodes8192Sources128 | Nodes16384Sources128 => Some(128)
    case Nodes1024Sources1024 | Nodes8192Sources1024 | Nodes16384Sources1024 => Some(1024)
    case Nodes8192Sources8192 | Nodes16384Sources8192 => Some(8192)
    case Nodes16384Sources16384 => Some(16384)
    case Nodes1024 | Nodes8192 | Nodes16384 => None
  }

  /**
   * Builds the instance of a constant through the constructor it names.
   * Every source id is a node of the graph.
   */
  method Instantiate(scale: Scale) returns (source: MSBFSSource)
    ensures source.nodeCount == NodeCount(scale)
    ensures (source.sources != null) == (source.hugeSources != null) == SourceCount(scale).Some?
    ensures source.sources != null && source.hugeSources != null ==>
      source.sources.Length == source.hugeSources.Length == SourceCount(scale).value &&
      forall i :: 0 <= i < source.sources.Length ==>
        source.sources[i] == source.hugeSources[i] == i && 0 <= source.sources[i] < source.nodeCount
  {
    var sourceCount := SourceCount(scale);
    if sourceCount.Some? {
      source := new MSBFSSource.WithSources(NodeCount(scale), sourceCount.value);
    } else {
      source := new MSBFSSource.NodesOnly(NodeCount(scale));
    }
  }
}
