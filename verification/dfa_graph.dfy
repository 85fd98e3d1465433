/**
 * The DFA for one Lotek ID on one frequency (`DFA_Graph`): its registered
 * tags, its root, and per depth a registry `N` from tag-ID sets to the node
 * standing for that set. Nodes live in an arena (`nodes`) and are referred to
 * by their index in it; a null `DFA_Node *` is `None`.
 */
module DfaGraphs {
  import opened Common
  import opened Intervals
  import opened IntervalMaps
  import opened DfaNodes

  /** The messages of the `std::runtime_error`s a graph throws. */
  const LOTEK_ID_ERROR := "Internal error: attempt to add tags with different Lotek IDs to the same DFA_Graph!\n"
  const DEPTH_ERROR := "Internal error: attempt to increase depth by more than 1.\n"

  /** A registered tag (`Known_Tag`): full ID, Lotek ID, nominal frequency in kHz, burst interval in seconds. */
  datatype KnownTag = KnownTag(id: int, lid: int, freq: int, bi: real)

  /** Every registered node at depth `d` under key `k` has exactly the ID set `k`. */
  ghost predicate Registered(N: seq<map<set<int>, nat>>, nodes: seq<Node>) {
    forall d, k :: 0 <= d < |N| && k in N[d] ==> N[d][k] < |nodes| && nodes[N[d][k]].ids == k
  }

  /** Each registered node belongs to the level it is registered at. */
  ghost predicate Levelled(N: seq<map<set<int>, nat>>, level: seq<nat>) {
    forall d, k :: 0 <= d < |N| && k in N[d] && N[d][k] < |level| ==> level[N[d][k]] == d
  }

  /** Edges lead to nodes of the arena that stand for at least one tag. */
  ghost predicate EdgesInto(edges: seq<Segment<nat>>, nodes: seq<Node>) {
    forall k :: 0 <= k < |edges| ==> edges[k].val < |nodes| && nodes[edges[k].val].ids != {}
  }

  /** A well-formed node: sorted edges into the arena, and an up-to-date `max_age`. */
  ghost predicate NodeOk(n: Node, nodes: seq<Node>) {
    Sorted(n.edges) && MaxAgeAgrees(n) && EdgesInto(n.edges, nodes)
  }

  ghost predicate NodesOk(nodes: seq<Node>) {
    forall h {:trigger NodeOk(nodes[h], nodes)} :: 0 <= h < |nodes| ==> NodeOk(nodes[h], nodes)
  }

  /** Tags are keyed by their own ID and all share one Lotek ID. */
  ghost predicate TagsOk(tags: map<int, KnownTag>) {
    && (forall t :: t in tags ==> tags[t].id == t)
    && (forall a, b :: a in tags && b in tags ==> tags[a].lid == tags[b].lid)
  }

  /** The registry, the arena and the levels agree. */
  ghost predicate ArenaOk(N: seq<map<set<int>, nat>>, nodes: seq<Node>, level: seq<nat>) {
    |level| == |nodes| && Registered(N, nodes) && Levelled(N, level) && NodesOk(nodes)
  }

  /** The root, if any, is a depth-0 node registered at level 0 under its own ID set. */
  ghost predicate RootOk(root: Option<nat>, N: seq<map<set<int>, nat>>, nodes: seq<Node>, level: seq<nat>) {
    root.Some? ==>
      && root.value < |nodes| && root.value < |level| && |N| > 0 && level[root.value] == 0
      && nodes[root.value].depth == 0
      && nodes[root.value].ids in N[0] && N[0][nodes[root.value].ids] == root.value
  }

  /** The invariant of a graph, on the values of its fields. */
  ghost predicate GraphOk(
    maxDepth: nat, root: Option<nat>, N: seq<map<set<int>, nat>>, tags: map<int, KnownTag>,
    nodes: seq<Node>, level: seq<nat>)
  {
    && |N| >= maxDepth
    && ArenaOk(N, nodes, level)
    && TagsOk(tags)
    && RootOk(root, N, nodes, level)
  }

  /** The payloads of the first `i` segments of an interval map. */
  function PayloadsUpTo(s: seq<Segment<set<int>>>, i: nat): set<set<int>>
    requires i <= |s|
  {
    set k | 0 <= k < i :: s[k].val
  }

  class Graph {
    const maxDepth: nat
    var root: Option<nat>
    var N: seq<map<set<int>, nat>>
    var tags: map<int, KnownTag>
    var nodes: seq<Node>
    /** The depth index of `N` at which each node of the arena was registered. */
    ghost var level: seq<nat>

    ghost predicate Valid()
      reads this
    {
      GraphOk(maxDepth, root, N, tags, nodes, level)
    }

    /** `DFA_Graph(max_depth)`: no root, no tags, and `max_depth` empty levels. */
    constructor(maxDepth: nat)
      ensures Valid()
      ensures this.maxDepth == maxDepth && root == None && tags == map[] && nodes == []
      ensures |N| == maxDepth && forall d :: 0 <= d < |N| ==> N[d] == map[]
    {
      this.maxDepth := maxDepth;
      root := None;
      N := seq(maxDepth, _ => map[]);
      tags := map[];
      nodes := [];
      level := [];
    }

    /**
     * `add_tag`: refuse a tag whose Lotek ID differs from that of the first
     * (lowest-ID) tag already present; otherwise insert it, keeping an
     * existing entry with the same ID.
     */
    method AddTag(t: KnownTag) returns (r: Outcome)
      requires Valid()
      modifies this
      ensures Valid()
      ensures r.Fail? <==> old(tags) != map[] && old(tags)[Least(old(tags).Keys)].lid != t.lid
      ensures r.Fail? ==> tags == old(tags)
      ensures r.Pass? ==> tags == if t.id in old(tags) then old(tags) else old(tags)[t.id := t]
      ensures root == old(root) && N == old(N) && nodes == old(nodes) && level == old(level)
    {
      if tags != map[] && tags[Least(tags.Keys)].lid != t.lid {
        return Fail(LOTEK_ID_ERROR);
      }
      if t.id !in tags {
        tags := tags[t.id := t];
      }
      r := Pass;
    }

    /** `setup_root`: when there is no root yet, create one at depth 0 holding every tag and register it. */
    method SetupRoot()
      requires Valid() && |N| > 0
      modifies this
      ensures Valid()
      ensures old(root).Some? ==> root == old(root) && N == old(N) && nodes == old(nodes)
      ensures old(root).None? ==>
        && root == Some(|old(nodes)|)
        && nodes == old(nodes) + [NewNode(0, tags.Keys)]
        && |N| == |old(N)| && N[0] == old(N)[0][tags.Keys := |old(nodes)|]
        && (forall d :: 1 <= d < |N| ==> N[d] == old(N)[d])
      ensures tags == old(tags)
    {
      if root.None? {
        var ids: set<int> := {};
        var rest := tags.Keys;
        while rest != {}
          invariant ids + rest == tags.Keys && ids !! rest
          decreases |rest|
        {
          if forall x :: x !in rest {
            assert false;
          }
          var t :| t in rest;
          ids := ids + {t};
          rest := rest - {t};
        }
        var h := |nodes|;
        RegisterFresh(N, nodes, level, 0, NewNode(0, ids));
        NodesOkAppend(nodes, NewNode(0, ids));
        nodes := nodes + [NewNode(0, ids)];
        level := level + [0];
        N := N[0 := N[0][ids := h]];
        root := Some(h);
      }
    }

    /** `get_root`: the root, when set up, is a depth-0 node registered at depth 0 under its own ID set. */
    function GetRoot(): (r: Option<nat>)
      reads this
      requires Valid()
      ensures r.Some? ==> r.value < |nodes| && nodes[r.value].depth == 0
      ensures r.Some? ==> |N| > 0 && nodes[r.value].ids in N[0] && N[0][nodes[r.value].ids] == r.value
    {
      root
    }

    /**
     * `grow(p, s, depth)`: link `p` (or the root when `p` is null) through every
     * segment of `s` to the node registered at `depth` for the segment's tag
     * set, creating and registering that node at depth `p.depth + 1` when the
     * set is new there. Depth `|N|` opens one new level; a larger depth fails.
     */
    method Grow(p: Option<nat>, s: seq<Segment<set<int>>>, depth: nat) returns (r: Outcome)
      requires Valid()
      requires p.Some? ==> p.value < |nodes|
      requires p.None? ==> root.Some?
      requires Sorted(s) && forall k :: 0 <= k < |s| ==> s[k].val != {}
      modifies this
      ensures Valid()
      ensures tags == old(tags) && root == old(root)
      ensures r.Fail? <==> depth > old(|N|)
      ensures r.Fail? ==> N == old(N) && nodes == old(nodes) && level == old(level)
      ensures r.Pass? ==> GrowDone(old(N), old(nodes), old(level), if p.Some? then p.value else old(root).value, s, depth, N, nodes, level)
    {
      if depth > |N| {
        return Fail(DEPTH_ERROR);
      }
      var q := if p.Some? then p.value else root.value;
      var lv, ns;
      ghost var lev;
      lv, ns, lev := GrowValues(maxDepth, root, N, tags, nodes, level, q, s, depth);
      N, nodes, level := lv, ns, lev;
      r := Pass;
    }
  }

  /** The work of `grow` on the values of the graph's fields, with `q` the node grown from. */
  method GrowValues(
    ghost maxDepth: nat, ghost root: Option<nat>, N0: seq<map<set<int>, nat>>, ghost tags: map<int, KnownTag>,
    nodes0: seq<Node>, ghost level0: seq<nat>,
    q: nat, s: seq<Segment<set<int>>>, depth: nat)
    returns (N1: seq<map<set<int>, nat>>, nodes1: seq<Node>, ghost level1: seq<nat>)
    requires depth <= |N0| && q < |nodes0| && GraphOk(maxDepth, root, N0, tags, nodes0, level0)
    requires Sorted(s) && forall k :: 0 <= k < |s| ==> s[k].val != {}
    ensures GrowDone(N0, nodes0, level0, q, s, depth, N1, nodes1, level1)
    ensures GraphOk(maxDepth, root, N1, tags, nodes1, level1)
  {
    var lv := N0;
    if depth == |lv| {
      lv := lv + [map[]];
    }
    assert lv == Extended(N0, depth);
    GrowStart(N0, nodes0, level0, q, s, depth);
    var ns;
    ghost var lev;
    lv, ns, lev := LinkSegments(lv, nodes0, level0, q, s, depth);
    nodes1 := ns[q := SetMaxAge(ns[q])];
    GrowFinish(N0, nodes0, level0, q, s, depth, lv, ns, lev, root, nodes1);
    N1, level1 := lv, lev;
  }

  /**
   * The loop of `grow`: for each segment of `s` in turn, find the node
   * registered in `lv[depth]` for the segment's tag set or create and
   * register one, then set the edge of `q` over the segment's gaps to it.
   */
  method LinkSegments(
    Ne: seq<map<set<int>, nat>>, nodes0: seq<Node>, ghost level0: seq<nat>, q: nat,
    s: seq<Segment<set<int>>>, depth: nat)
    returns (lv: seq<map<set<int>, nat>>, ns: seq<Node>, ghost lev: seq<nat>)
    requires Sorted(s) && forall k :: 0 <= k < |s| ==> s[k].val != {}
    requires GrowStep(Ne, nodes0, level0, q, s, depth, 0, Ne, nodes0, level0)
    ensures GrowStep(Ne, nodes0, level0, q, s, depth, |s|, lv, ns, lev)
  {
    lv, ns, lev := Ne, nodes0, level0;
    var i := 0;
    while i < |s|
      invariant 0 <= i <= |s|
      // compared with `true` so that the invariant is checked as one fact rather than conjunct by conjunct
      invariant GrowStep(Ne, nodes0, level0, q, s, depth, i, lv, ns, lev) == true
    {
      ghost var lvPre, nsPre, levPre := lv, ns, lev;
      var key := s[i].val;
      var n: nat;
      if key !in lv[depth] {
        n := |ns|;
        ns := ns + [NewNode(ns[q].depth + 1, key)];
        lev := lev + [depth];
        var row: map<set<int>, nat> := lv[depth][key := n];
        lv := lv[depth := row];
      } else {
        n := lv[depth][key];
      }
      ghost var nsMid := ns;
      ns := ns[q := ns[q].(edges := Put(ns[q].edges, s[i].iv, n))];
      GrowStepNext(Ne, nodes0, level0, q, s, depth, i, lvPre, nsPre, levPre, n, lv, nsMid, lev, ns);
      i := i + 1;
    }
  }

  /** `N` with the level `depth` opened when it is one past the end. */
  function Extended(N: seq<map<set<int>, nat>>, depth: nat): (r: seq<map<set<int>, nat>>)
    requires depth <= |N|
    ensures |r| == if depth == |N| then |N| + 1 else |N|
    ensures forall d :: 0 <= d < |N| ==> r[d] == N[d]
    ensures depth == |N| ==> r[depth] == map[]
  {
    if depth == |N| then N + [map[]] else N
  }


  /** Level `depth` of `N`, empty when it is one past the end. */
  function LevelAt(N: seq<map<set<int>, nat>>, depth: nat): map<set<int>, nat> {
    if depth < |N| then N[depth] else map[]
  }

  /** What a successful `grow` of node `q` by `s` into `depth` leaves behind. */
  ghost predicate GrowDone(
    N0: seq<map<set<int>, nat>>, nodes0: seq<Node>, level0: seq<nat>, q: nat,
    s: seq<Segment<set<int>>>, depth: nat,
    N1: seq<map<set<int>, nat>>, nodes1: seq<Node>, level1: seq<nat>)
  {
    && LevelsGrown(N0, s, depth, N1)
    && NodesGrown(N0, nodes0, level0, q, depth, nodes1, level1)
    && NewFrom(|nodes0|, nodes1, PayloadsUpTo(s, |s|))
    && EdgesGrown(nodes0[q], s, N1[depth], nodes1[q])
  }

  /** The nodes from index `n0` on stand for tag sets among `keys`. */
  ghost predicate NewFrom(n0: nat, ns: seq<Node>, keys: set<set<int>>) {
    forall h :: n0 <= h < |ns| ==> ns[h].ids in keys
  }

  /** Only level `depth` changes (a new one when it is `|N0|`); it keeps its entries and gains the payloads of `s`. */
  ghost predicate LevelsGrown(N0: seq<map<set<int>, nat>>, s: seq<Segment<set<int>>>, depth: nat, N1: seq<map<set<int>, nat>>) {
    && depth <= |N0|
    && |N1| == (if depth == |N0| then |N0| + 1 else |N0|)
    && (forall d :: 0 <= d < |N0| && d != depth ==> N1[d] == N0[d])
    && (forall k :: k in LevelAt(N0, depth) ==> k in N1[depth] && N1[depth][k] == LevelAt(N0, depth)[k])
    && N1[depth].Keys == LevelAt(N0, depth).Keys + PayloadsUpTo(s, |s|)
  }

  /**
   * Among the old nodes only `q` changes, keeping its depth and IDs; the new
   * nodes are fresh (no edges), one level deeper than `q`, and registered at
   * `depth` under sets that were not registered there before.
   */
  ghost predicate NodesGrown(
    N0: seq<map<set<int>, nat>>, nodes0: seq<Node>, level0: seq<nat>, q: nat, depth: nat,
    nodes1: seq<Node>, level1: seq<nat>)
  {
    && q < |nodes0| && |nodes0| <= |nodes1| && |level0| <= |level1| && |level1| == |nodes1|
    && (forall h :: 0 <= h < |nodes0| && h != q ==> nodes1[h] == nodes0[h])
    && level1[..|level0|] == level0
    && (forall h :: |nodes0| <= h < |nodes1| ==>
          nodes1[h] == NewNode(nodes0[q].depth + 1, nodes1[h].ids) && level1[h] == depth
          && nodes1[h].ids !in LevelAt(N0, depth))
    && nodes1[q].depth == nodes0[q].depth && nodes1[q].ids == nodes0[q].ids
  }

  /**
   * The edges of `q` (`n0` before, `n1` after): every gap of a segment of `s`
   * now leads to the node registered in `m` for the segment's tag set, other
   * gaps lead where they led before, and `max_age` is up to date.
   */
  ghost predicate EdgesGrown(n0: Node, s: seq<Segment<set<int>>>, m: map<set<int>, nat>, n1: Node) {
    && PayloadsUpTo(s, |s|) <= m.Keys
    && (forall g :: Next(n1, g) == if Find(s, g).Some? then Some(m[Find(s, g).value]) else Next(n0, g))
    && MaxAgeAgrees(n1)
  }

  /** The shape part of the loop invariant of `grow` after `i` segments. */
  ghost predicate GrowShape(
    Ne: seq<map<set<int>, nat>>, nodes0: seq<Node>, level0: seq<nat>, q: nat,
    s: seq<Segment<set<int>>>, depth: nat, i: nat,
    lv: seq<map<set<int>, nat>>, ns: seq<Node>, lev: seq<nat>)
  {
    && GrowLevels(Ne, level0, s, depth, i, lv, lev)
    && GrowNodes(Ne, nodes0, level0, q, depth, ns, lev)
    && NewFrom(|nodes0|, ns, PayloadsUpTo(s, i))
    && GrowArena(q, lv, ns, lev)
  }

  /** Only level `depth` of the registry changes: it keeps its entries and gains the first `i` payloads. */
  ghost predicate GrowLevels(
    Ne: seq<map<set<int>, nat>>, level0: seq<nat>,
    s: seq<Segment<set<int>>>, depth: nat, i: nat,
    lv: seq<map<set<int>, nat>>, lev: seq<nat>)
  {
    && i <= |s| && depth < |Ne| && |level0| <= |lev| && lev[..|level0|] == level0
    && |lv| == |Ne| && lv == Ne[depth := lv[depth]]
    && (forall k :: k in Ne[depth] ==> k in lv[depth] && lv[depth][k] == Ne[depth][k])
    && lv[depth].Keys == Ne[depth].Keys + PayloadsUpTo(s, i)
  }

  /** Among the old nodes only `q` changes, and not its depth or IDs; new nodes are fresh and one level deeper. */
  ghost predicate GrowNodes(
    Ne: seq<map<set<int>, nat>>, nodes0: seq<Node>, level0: seq<nat>, q: nat, depth: nat,
    ns: seq<Node>, lev: seq<nat>)
  {
    && depth < |Ne| && q < |nodes0| && |nodes0| <= |ns| && |lev| == |ns| && |level0| == |nodes0|
    && (forall h :: 0 <= h < |nodes0| && h != q ==> ns[h] == nodes0[h])
    && (forall h :: |nodes0| <= h < |ns| ==>
          ns[h] == NewNode(nodes0[q].depth + 1, ns[h].ids) && lev[h] == depth && ns[h].ids !in Ne[depth])
    && ns[q].depth == nodes0[q].depth && ns[q].ids == nodes0[q].ids
  }

  /** The registry and the arena agree, and every node but `q`, whose `max_age` is stale, is well-formed. */
  ghost predicate GrowArena(q: nat, lv: seq<map<set<int>, nat>>, ns: seq<Node>, lev: seq<nat>) {
    && q < |ns|
    && Sorted(ns[q].edges) && EdgesInto(ns[q].edges, ns)
    && Registered(lv, ns) && Levelled(lv, lev)
    && (forall h :: 0 <= h < |ns| && h != q ==> NodeOk(ns[h], ns))
  }

  /**
   * One turn of the `grow` loop on segment `i`: `n` is the node for its tag
   * set, created and registered (`ns1`, `lev1`, `lv1`) when new, and `ns2`
   * has the edge of `q` over the segment's gaps set to `n`.
   */
  ghost predicate LinkStep(
    s: seq<Segment<set<int>>>, i: nat, q: nat, depth: nat,
    lv: seq<map<set<int>, nat>>, ns: seq<Node>, lev: seq<nat>, n: nat,
    lv1: seq<map<set<int>, nat>>, ns1: seq<Node>, lev1: seq<nat>, ns2: seq<Node>)
  {
    && i < |s| && s[i].val != {} && depth < |lv| && q < |ns|
    && (s[i].val !in lv[depth] ==>
          n == |ns| && ns1 == ns + [NewNode(ns[q].depth + 1, s[i].val)] && lev1 == lev + [depth]
          && lv1 == lv[depth := lv[depth][s[i].val := n]])
    && (s[i].val in lv[depth] ==> n == lv[depth][s[i].val] && ns1 == ns && lev1 == lev && lv1 == lv)
    && q < |ns1| && ns2 == ns1[q := ns1[q].(edges := Put(ns1[q].edges, s[i].iv, n))]
  }

  /** The edge part of the loop invariant: the first `i` segments of `s` are linked from `nq`. */
  ghost predicate GrowEdges(
    n0: Node, s: seq<Segment<set<int>>>, i: nat, m: map<set<int>, nat>, nq: Node)
  {
    && i <= |s| && PayloadsUpTo(s, i) <= m.Keys
    && (forall g :: Next(nq, g) ==
          if Find(s[..i], g).Some? then Some(m[Find(s[..i], g).value]) else Next(n0, g))
  }

  /** The loop invariant of `grow` after `i` segments. */
  ghost predicate GrowStep(
    Ne: seq<map<set<int>, nat>>, nodes0: seq<Node>, level0: seq<nat>, q: nat,
    s: seq<Segment<set<int>>>, depth: nat, i: nat,
    lv: seq<map<set<int>, nat>>, ns: seq<Node>, lev: seq<nat>)
  {
    && GrowShape(Ne, nodes0, level0, q, s, depth, i, lv, ns, lev)
    && GrowEdges(nodes0[q], s, i, lv[depth], ns[q])
  }

  /** The payload of the segment holding `g` is among the payloads of the prefix searched. */
  lemma FindPayload(s: seq<Segment<set<int>>>, i: nat, g: real)
    requires i <= |s| && Find(s[..i], g).Some?
    ensures Find(s[..i], g).value in PayloadsUpTo(s, i)
  {
    var k :| 0 <= k < i && Contains(s[..i][k].iv, g) && s[..i][k].val == Find(s[..i], g).value;
    assert s[..i][k] == s[k];
  }

  /** Node `b` keeps the ID sets of the nodes of `a`, possibly adding more nodes. */
  ghost predicate IdsKept(a: seq<Node>, b: seq<Node>) {
    |a| <= |b| && forall h :: 0 <= h < |a| ==> b[h].ids == a[h].ids
  }

  lemma EdgesIntoKept(e: seq<Segment<nat>>, a: seq<Node>, b: seq<Node>)
    requires EdgesInto(e, a) && IdsKept(a, b)
    ensures EdgesInto(e, b)
  {
  }

  lemma RegisteredKept(N: seq<map<set<int>, nat>>, a: seq<Node>, b: seq<Node>)
    requires Registered(N, a) && IdsKept(a, b)
    ensures Registered(N, b)
  {
  }

  lemma {:induction false} EdgesIntoRemove(e: seq<Segment<nat>>, i: Interval, ns: seq<Node>)
    requires EdgesInto(e, ns)
    ensures EdgesInto(Remove(e, i), ns)
    decreases |e|
  {
    if e != [] {
      EdgesIntoRemove(e[1..], i, ns);
      var a: seq<Segment<nat>> := Piece(Below(e[0].iv, i), e[0].val);
      var b: seq<Segment<nat>> := Piece(Above(e[0].iv, i), e[0].val);
      var r: seq<Segment<nat>> := Remove(e[1..], i);
      forall k | 0 <= k < |a + (b + r)|
        ensures (a + (b + r))[k].val < |ns| && ns[(a + (b + r))[k].val].ids != {}
      {
        if k >= |a| + |b| {
          assert (a + (b + r))[k] == r[k - |a| - |b|];
        }
      }
    }
  }

  lemma {:induction false} EdgesIntoInsert(e: seq<Segment<nat>>, i: Interval, v: nat, ns: seq<Node>)
    requires EdgesInto(e, ns) && v < |ns| && ns[v].ids != {}
    ensures EdgesInto(Insert(e, i, v), ns)
    decreases |e|
  {
    if e != [] && Before(e[0].iv, i) {
      EdgesIntoInsert(e[1..], i, v, ns);
      var r: seq<Segment<nat>> := Insert(e[1..], i, v);
      forall k | 0 <= k < |[e[0]] + r|
        ensures ([e[0]] + r)[k].val < |ns| && ns[([e[0]] + r)[k].val].ids != {}
      {
        if k > 0 {
          assert ([e[0]] + r)[k] == r[k - 1];
        }
      }
    }
  }

  /** Setting an edge to a node of the arena keeps every edge inside the arena. */
  lemma EdgesIntoPut(e: seq<Segment<nat>>, i: Interval, v: nat, ns: seq<Node>)
    requires EdgesInto(e, ns) && v < |ns| && ns[v].ids != {}
    ensures EdgesInto(Put(e, i, v), ns)
  {
    if !IsEmpty(i) {
      EdgesIntoRemove(e, i, ns);
      EdgesIntoInsert(Remove(e, i), i, v, ns);
    }
  }

  /** Registering a fresh node at level `d` under its own ID set keeps the registry consistent. */
  lemma RegisterFresh(N: seq<map<set<int>, nat>>, nodes: seq<Node>, level: seq<nat>, d: nat, x: Node)
    requires |level| == |nodes| && Registered(N, nodes) && Levelled(N, level) && d < |N|
    ensures var row: map<set<int>, nat> := N[d][x.ids := |nodes|];
      Registered(N[d := row], nodes + [x]) && Levelled(N[d := row], level + [d])
  {
    var row: map<set<int>, nat> := N[d][x.ids := |nodes|];
    var N1 := N[d := row];
    forall e, k | 0 <= e < |N1| && k in N1[e]
      ensures N1[e][k] < |nodes + [x]| && (nodes + [x])[N1[e][k]].ids == k
    {
      if e != d || k != x.ids {
        assert k in N[e] && N1[e][k] == N[e][k];
      }
    }
    forall e, k | 0 <= e < |N1| && k in N1[e] && N1[e][k] < |level + [d]|
      ensures (level + [d])[N1[e][k]] == e
    {
      if e != d || k != x.ids {
        assert k in N[e] && N1[e][k] == N[e][k];
      }
    }
  }

  /** Appending a node whose edges stay inside the arena keeps every node well-formed. */
  lemma NodesOkAppend(nodes: seq<Node>, x: Node)
    requires NodesOk(nodes) && NodeOk(x, nodes + [x])
    ensures NodesOk(nodes + [x])
  {
    forall h | 0 <= h < |nodes| ensures NodeOk((nodes + [x])[h], nodes + [x]) {
      assert NodeOk(nodes[h], nodes);
      EdgesIntoKept(nodes[h].edges, nodes, nodes + [x]);
    }
  }

  lemma GrowStart(N0: seq<map<set<int>, nat>>, nodes0: seq<Node>, level0: seq<nat>, q: nat,
                  s: seq<Segment<set<int>>>, depth: nat)
    requires depth <= |N0| && q < |nodes0|
    requires ArenaOk(N0, nodes0, level0)
    ensures GrowStep(Extended(N0, depth), nodes0, level0, q, s, depth, 0, Extended(N0, depth), nodes0, level0)
  {
    var Ne := Extended(N0, depth);
    assert Registered(Ne, nodes0) by {
      forall d, k | 0 <= d < |Ne| && k in Ne[d] ensures Ne[d][k] < |nodes0| && nodes0[Ne[d][k]].ids == k {
        assert d < |N0|;
      }
    }
    assert Levelled(Ne, level0) by {
      forall d, k | 0 <= d < |Ne| && k in Ne[d] && Ne[d][k] < |level0| ensures level0[Ne[d][k]] == d {
        assert d < |N0|;
      }
    }
    assert NodeOk(nodes0[q], nodes0);
    assert PayloadsUpTo(s, 0) == {};
    assert level0[..|level0|] == level0;
    assert Ne == Ne[depth := Ne[depth]];
    forall g ensures Find(s[..0], g) == None {
      assert s[..0] == [];
    }
  }

  /** One turn of the `grow` loop: find or create the node for the next segment's set, then set the edge. */
  lemma GrowStepNext(
    Ne: seq<map<set<int>, nat>>, nodes0: seq<Node>, level0: seq<nat>, q: nat,
    s: seq<Segment<set<int>>>, depth: nat, i: nat,
    lv: seq<map<set<int>, nat>>, ns: seq<Node>, lev: seq<nat>, n: nat,
    lv1: seq<map<set<int>, nat>>, ns1: seq<Node>, lev1: seq<nat>, ns2: seq<Node>)
    requires Sorted(s)
    requires GrowStep(Ne, nodes0, level0, q, s, depth, i, lv, ns, lev)
    requires LinkStep(s, i, q, depth, lv, ns, lev, n, lv1, ns1, lev1, ns2)
    ensures GrowStep(Ne, nodes0, level0, q, s, depth, i + 1, lv1, ns2, lev1)
  {
    GrowStepShape(Ne, nodes0, level0, q, s, depth, i, lv, ns, lev, n, lv1, ns1, lev1, ns2);
    GrowStepEdges(nodes0[q], s, i, lv[depth], ns[q], n, lv1[depth], ns2[q]);
  }

  lemma GrowStepShape(
    Ne: seq<map<set<int>, nat>>, nodes0: seq<Node>, level0: seq<nat>, q: nat,
    s: seq<Segment<set<int>>>, depth: nat, i: nat,
    lv: seq<map<set<int>, nat>>, ns: seq<Node>, lev: seq<nat>, n: nat,
    lv1: seq<map<set<int>, nat>>, ns1: seq<Node>, lev1: seq<nat>, ns2: seq<Node>)
    requires GrowShape(Ne, nodes0, level0, q, s, depth, i, lv, ns, lev)
    requires LinkStep(s, i, q, depth, lv, ns, lev, n, lv1, ns1, lev1, ns2)
    ensures GrowShape(Ne, nodes0, level0, q, s, depth, i + 1, lv1, ns2, lev1)
    ensures n < |ns2| && lv1[depth][s[i].val] == n
    ensures forall k :: k in lv[depth] ==> k in lv1[depth] && lv1[depth][k] == lv[depth][k]
  {
    StepLevels(Ne, level0, s, depth, i, q, lv, ns, lev, n, lv1, ns1, lev1, ns2);
    StepNodes(Ne, nodes0, level0, q, s, depth, i, lv, ns, lev, n, lv1, ns1, lev1, ns2);
    StepNew(|nodes0|, s, depth, i, q, lv, ns, lev, n, lv1, ns1, lev1, ns2);
    StepArena(s, i, q, depth, lv, ns, lev, n, lv1, ns1, lev1, ns2);
  }

  lemma StepLevels(
    Ne: seq<map<set<int>, nat>>, level0: seq<nat>,
    s: seq<Segment<set<int>>>, depth: nat, i: nat, q: nat,
    lv: seq<map<set<int>, nat>>, ns: seq<Node>, lev: seq<nat>, n: nat,
    lv1: seq<map<set<int>, nat>>, ns1: seq<Node>, lev1: seq<nat>, ns2: seq<Node>)
    requires GrowLevels(Ne, level0, s, depth, i, lv, lev)
    requires LinkStep(s, i, q, depth, lv, ns, lev, n, lv1, ns1, lev1, ns2)
    ensures GrowLevels(Ne, level0, s, depth, i + 1, lv1, lev1)
    ensures lv1[depth][s[i].val] == n
    ensures forall k :: k in lv[depth] ==> k in lv1[depth] && lv1[depth][k] == lv[depth][k]
  {
    assert PayloadsUpTo(s, i + 1) == PayloadsUpTo(s, i) + {s[i].val};
    if s[i].val !in lv[depth] {
      assert lev1[..|level0|] == lev[..|level0|];
    }
  }

  lemma StepNodes(
    Ne: seq<map<set<int>, nat>>, nodes0: seq<Node>, level0: seq<nat>, q: nat,
    s: seq<Segment<set<int>>>, depth: nat, i: nat,
    lv: seq<map<set<int>, nat>>, ns: seq<Node>, lev: seq<nat>, n: nat,
    lv1: seq<map<set<int>, nat>>, ns1: seq<Node>, lev1: seq<nat>, ns2: seq<Node>)
    requires GrowNodes(Ne, nodes0, level0, q, depth, ns, lev)
    requires depth < |lv| && forall k :: k in Ne[depth] ==> k in lv[depth]
    requires LinkStep(s, i, q, depth, lv, ns, lev, n, lv1, ns1, lev1, ns2)
    ensures GrowNodes(Ne, nodes0, level0, q, depth, ns2, lev1)
  {
  }

  lemma StepNew(
    n0: nat, s: seq<Segment<set<int>>>, depth: nat, i: nat, q: nat,
    lv: seq<map<set<int>, nat>>, ns: seq<Node>, lev: seq<nat>, n: nat,
    lv1: seq<map<set<int>, nat>>, ns1: seq<Node>, lev1: seq<nat>, ns2: seq<Node>)
    requires i < |s| && q < n0 && NewFrom(n0, ns, PayloadsUpTo(s, i))
    requires LinkStep(s, i, q, depth, lv, ns, lev, n, lv1, ns1, lev1, ns2)
    ensures NewFrom(n0, ns2, PayloadsUpTo(s, i + 1))
  {
    assert PayloadsUpTo(s, i + 1) == PayloadsUpTo(s, i) + {s[i].val};
  }

  lemma StepArena(
    s: seq<Segment<set<int>>>, i: nat, q: nat, depth: nat,
    lv: seq<map<set<int>, nat>>, ns: seq<Node>, lev: seq<nat>, n: nat,
    lv1: seq<map<set<int>, nat>>, ns1: seq<Node>, lev1: seq<nat>, ns2: seq<Node>)
    requires GrowArena(q, lv, ns, lev) && |lev| == |ns|
    requires LinkStep(s, i, q, depth, lv, ns, lev, n, lv1, ns1, lev1, ns2)
    ensures GrowArena(q, lv1, ns2, lev1)
    ensures n < |ns2|
  {
    var key := s[i].val;
    assert IdsKept(ns, ns1) && IdsKept(ns1, ns2) && IdsKept(ns, ns2);
    if key !in lv[depth] {
      RegisterFresh(lv, ns, lev, depth, NewNode(ns[q].depth + 1, key));
    }
    RegisteredKept(lv1, ns1, ns2);
    assert ns2[n].ids == key;
    EdgesIntoKept(ns[q].edges, ns, ns2);
    EdgesIntoPut(ns[q].edges, s[i].iv, n, ns2);
    PutSorted(ns[q].edges, s[i].iv, n);
    forall h | 0 <= h < |ns2| && h != q ensures NodeOk(ns2[h], ns2) {
      if h < |ns| {
        EdgesIntoKept(ns[h].edges, ns, ns2);
      }
    }
  }

  lemma GrowStepEdges(
    n0: Node, s: seq<Segment<set<int>>>, i: nat, m: map<set<int>, nat>, nq: Node,
    n: nat, m1: map<set<int>, nat>, nq2: Node)
    requires i < |s| && Sorted(s)
    requires GrowEdges(n0, s, i, m, nq)
    requires s[i].val in m1 && m1[s[i].val] == n
    requires forall k :: k in m ==> k in m1 && m1[k] == m[k]
    requires nq2.edges == Put(nq.edges, s[i].iv, n)
    ensures GrowEdges(n0, s, i + 1, m1, nq2)
  {
    assert PayloadsUpTo(s, i + 1) == PayloadsUpTo(s, i) + {s[i].val};
    assert s[..i + 1] == s[..i] + [s[i]];
    SortedPairwise(s);
    forall g ensures Next(nq2, g) ==
      if Find(s[..i + 1], g).Some? then Some(m1[Find(s[..i + 1], g).value]) else Next(n0, g)
    {
      FindPut(nq.edges, s[i].iv, n, g);
      FindAppend(s[..i], [s[i]], g);
      if Contains(s[i].iv, g) {
        forall k | 0 <= k < i ensures !Contains(s[..i][k].iv, g) {
          if Contains(s[k].iv, g) {
            BeforeSeparates(s[k].iv, s[i].iv, g, g);
          }
        }
      } else if Find(s[..i], g).Some? {
        FindPayload(s, i, g);
      }
    }
  }

  lemma GrowFinish(
    N0: seq<map<set<int>, nat>>, nodes0: seq<Node>, level0: seq<nat>, q: nat,
    s: seq<Segment<set<int>>>, depth: nat,
    lv: seq<map<set<int>, nat>>, ns: seq<Node>, lev: seq<nat>, root: Option<nat>, ns1: seq<Node>)
    requires depth <= |N0| && RootOk(root, N0, nodes0, level0)
    requires GrowStep(Extended(N0, depth), nodes0, level0, q, s, depth, |s|, lv, ns, lev)
    requires q < |ns| && ns1 == ns[q := SetMaxAge(ns[q])]
    ensures GrowDone(N0, nodes0, level0, q, s, depth, lv, ns1, lev)
    ensures ArenaOk(lv, ns1, lev) && RootOk(root, lv, ns1, lev) && |lv| >= |N0|
  {
    var Ne := Extended(N0, depth);
    assert LevelAt(N0, depth) == Ne[depth];
    FinishLevels(N0, s, depth, lv);
    FinishEdges(nodes0[q], s, lv[depth], ns[q], ns1[q]);
    FinishArena(q, lv, ns, lev, ns1);
    if root.Some? {
      var r := root.value;
      assert lev[r] == lev[..|level0|][r];
      assert lv[0] == Ne[0] || depth == 0;
    }
  }

  lemma FinishLevels(N0: seq<map<set<int>, nat>>, s: seq<Segment<set<int>>>, depth: nat, lv: seq<map<set<int>, nat>>)
    requires depth <= |N0|
    requires var Ne := Extended(N0, depth);
      && |lv| == |Ne| && lv == Ne[depth := lv[depth]]
      && (forall k :: k in Ne[depth] ==> k in lv[depth] && lv[depth][k] == Ne[depth][k])
      && lv[depth].Keys == Ne[depth].Keys + PayloadsUpTo(s, |s|)
    ensures LevelsGrown(N0, s, depth, lv)
  {
    assert LevelAt(N0, depth) == Extended(N0, depth)[depth];
    forall d | 0 <= d < |N0| && d != depth ensures lv[d] == N0[d] {
      assert lv[d] == Extended(N0, depth)[d];
    }
  }

  lemma FinishEdges(n0: Node, s: seq<Segment<set<int>>>, m: map<set<int>, nat>, nq: Node, nq1: Node)
    requires GrowEdges(n0, s, |s|, m, nq) && nq1 == SetMaxAge(nq)
    ensures EdgesGrown(n0, s, m, nq1)
  {
    assert s[..|s|] == s;
    forall g ensures Next(nq1, g) == Next(nq, g) {
    }
  }

  lemma FinishArena(q: nat, lv: seq<map<set<int>, nat>>, ns: seq<Node>, lev: seq<nat>, ns1: seq<Node>)
    requires GrowArena(q, lv, ns, lev) && |lev| == |ns| && ns1 == ns[q := SetMaxAge(ns[q])]
    ensures ArenaOk(lv, ns1, lev)
  {
    assert IdsKept(ns, ns1);
    RegisteredKept(lv, ns, ns1);
    EdgesIntoKept(ns[q].edges, ns, ns1);
    forall h | 0 <= h < |ns1| ensures NodeOk(ns1[h], ns1) {
      if h != q {
        assert NodeOk(ns[h], ns);
        EdgesIntoKept(ns[h].edges, ns, ns1);
      }
    }
  }
}
