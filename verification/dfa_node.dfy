/**
 * A state of the burst-recognising DFA (`DFA_Node`): the set of tag IDs still
 * compatible with the bursts seen, an edge table from gaps to successor
 * states, and the longest gap after which any edge can still be taken.
 * Successors are handles into the node arena of the owning graph.
 */
module DfaNodes {
  import opened Common
  import opened Intervals
  import opened IntervalMaps

  /** `max_age` of a node without edges: no gap keeps a run alive there. */
  const DEAD_AGE: real := -1.0

  datatype Node = Node(depth: nat, ids: set<int>, edges: seq<Segment<nat>>, maxAge: real)

  /** The two `DFA_Node` constructors: no edges yet, so dead. */
  function NewNode(depth: nat, ids: set<int>): (n: Node)
    ensures n.depth == depth && n.ids == ids && n.edges == []
    ensures forall g :: Next(n, g) == None
    ensures MaxAgeAgrees(n) && n.maxAge == DEAD_AGE
  {
    Node(depth, ids, [], DEAD_AGE)
  }

  /** `next(gap)`: the successor along the edge whose interval holds the gap, if any. */
  function Next(n: Node, g: real): (r: Option<nat>)
    ensures r.None? <==> forall k :: 0 <= k < |n.edges| ==> !Contains(n.edges[k].iv, g)
    ensures r.Some? ==> exists k :: 0 <= k < |n.edges| && Contains(n.edges[k].iv, g) && n.edges[k].val == r.value
  {
    Find(n.edges, g)
  }

  /** `max_age` is the upper end of the highest edge interval, or dead when there are no edges. */
  predicate MaxAgeAgrees(n: Node) {
    n.maxAge == if n.edges == [] then DEAD_AGE else UpperEnd(n.edges)
  }

  /** `set_max_age`: recompute `max_age` from the edges; nothing else changes. */
  function SetMaxAge(n: Node): (r: Node)
    ensures MaxAgeAgrees(r)
    ensures r.depth == n.depth && r.ids == n.ids && r.edges == n.edges
  {
    n.(maxAge := if n.edges == [] then DEAD_AGE else UpperEnd(n.edges))
  }

  /** Every gap a node has an edge for is at most its `max_age`. */
  lemma NextWithinMaxAge(n: Node, g: real)
    requires Sorted(n.edges) && MaxAgeAgrees(n) && Next(n, g).Some?
    ensures g <= n.maxAge
  {
    UpperEndBounds(n.edges, g);
  }

  /** `is_unique`: the node stands for exactly one tag ID. */
  predicate IsUnique(n: Node) {
    |n.ids| == 1
  }

  lemma IsUniqueIffSingleton(n: Node)
    ensures IsUnique(n) <==> exists t :: n.ids == {t}
  {
    if IsUnique(n) {
      var t := GetId(n);
      var rest := n.ids - {t};
      assert n.ids == rest + {t};
      assert |rest| == 0;
      assert rest == {};
    }
  }

  /** `get_id`: the first (least) ID of the set; the sole ID when the node is unique. */
  function GetId(n: Node): (r: int)
    requires n.ids != {}
    ensures r in n.ids && forall x :: x in n.ids ==> r <= x
  {
    Least(n.ids)
  }

  lemma GetIdOfUnique(n: Node)
    requires IsUnique(n)
    ensures n.ids == {GetId(n)}
  {
    IsUniqueIffSingleton(n);
  }
}
