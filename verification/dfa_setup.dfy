/**
 * `Run_Finder::setup_graphs` for one graph: the root holds every tag; then,
 * breadth-first, each node's edges are the gap map of its tags (every
 * skipped-burst multiple of each tag's burst interval, widened by a slop
 * that grows with the number of bursts skipped), leading to the nodes of
 * the next depth, or of the same depth at the last one; finally every node
 * of the last depth must stand for a single tag.
 */
module DfaSetup {
  import opened Common
  import opened Intervals
  import opened IntervalMaps
  import opened DfaNodes
  import opened DfaGraphs

  /** The finder's slop settings: `burst_slop`, `burst_slop_expansion` (seconds) and `max_skipped_bursts`. */
  datatype SlopParams = SlopParams(burstSlop: real, expansion: real, maxSkipped: nat)

  /** The slop allowed when `k - 1` bursts have been skipped. */
  function SkipSlop(p: SlopParams, k: nat): real {
    p.burstSlop + p.expansion * (k as real - 1.0)
  }

  /** The gaps accepted as `k` burst intervals `bi`: `[k·bi − slop_k, k·bi + slop_k]`. */
  function Window(bi: real, k: nat, p: SlopParams): Interval {
    Closed(bi * k as real - SkipSlop(p, k), bi * k as real + SkipSlop(p, k))
  }

  /** Gap `g` is within the window of one of the first `upTo` multiples of `bi`. */
  predicate Matches(bi: real, p: SlopParams, g: real, upTo: nat) {
    exists k :: 1 <= k <= upTo && Contains(Window(bi, k, p), g)
  }

  /** The tags of `ids` that gap `g` is compatible with: some multiple from 1 to `max_skipped_bursts` of the tag's interval fits it. */
  function Compatible(ids: set<int>, tags: map<int, KnownTag>, p: SlopParams, g: real): (r: set<int>)
    ensures r <= ids
  {
    set t | t in ids && t in tags && Matches(tags[t].bi, p, g, p.maxSkipped)
  }

  /** `Compatible` restricted to the tags listed in `q`. */
  function CompatibleAmong(q: seq<int>, tags: map<int, KnownTag>, p: SlopParams, g: real): set<int> {
    set t | t in q && t in tags && Matches(tags[t].bi, p, g, p.maxSkipped)
  }

  lemma MatchesStep(bi: real, p: SlopParams, g: real, k: nat)
    requires k >= 1
    ensures Matches(bi, p, g, k) <==> Matches(bi, p, g, k - 1) || Contains(Window(bi, k, p), g)
  {
    if Matches(bi, p, g, k) && !Contains(Window(bi, k, p), g) {
      var j :| 1 <= j <= k && Contains(Window(bi, j, p), g);
      assert j <= k - 1;
    }
  }

  lemma CompatibleAmongStep(q: seq<int>, t: int, tags: map<int, KnownTag>, p: SlopParams, g: real)
    requires t in tags
    ensures CompatibleAmong(q + [t], tags, p, g)
         == CompatibleAmong(q, tags, p, g) + (if Matches(tags[t].bi, p, g, p.maxSkipped) then {t} else {})
  {
    var a := CompatibleAmong(q + [t], tags, p, g);
    var b := CompatibleAmong(q, tags, p, g) + (if Matches(tags[t].bi, p, g, p.maxSkipped) then {t} else {});
    forall x ensures x in a <==> x in b {
      assert x in q + [t] <==> x in q || x == t;
    }
  }

  /**
   * The inner loop of the gap-map construction for tag `t`, whose burst
   * interval is `bi`: add the window of each skip count `k` from 1 to
   * `max_skipped_bursts`, mapped to `{t}`.
   */
  method AddWindows(m0: seq<Segment<set<int>>>, t: int, bi: real, p: SlopParams, ghost u: set<int>)
    returns (m: seq<Segment<set<int>>>)
    requires Sorted(m0) && PayloadsWithin(m0, u) && t in u
    ensures Sorted(m) && PayloadsWithin(m, u)
    ensures forall g :: Lookup(m, g) == Lookup(m0, g) + (if Matches(bi, p, g, p.maxSkipped) then {t} else {})
  {
    m := m0;
    var k := 1;
    while k <= p.maxSkipped
      invariant 1 <= k <= p.maxSkipped + 1
      invariant Sorted(m) && PayloadsWithin(m, u)
      invariant forall g :: Lookup(m, g) == Lookup(m0, g) + (if Matches(bi, p, g, k - 1) then {t} else {})
    {
      var slop := p.burstSlop + p.expansion * (k - 1) as real;
      var w := Closed(bi * k as real - slop, bi * k as real + slop);
      assert w == Window(bi, k, p);
      AddSorted(m, w, {t});
      AddWithin(m, w, {t}, u);
      forall g ensures Lookup(Add(m, w, {t}), g) == Lookup(m0, g) + (if Matches(bi, p, g, k) then {t} else {}) {
        AddLookup(m, w, {t}, g);
        MatchesStep(bi, p, g, k);
      }
      m := Add(m, w, {t});
      k := k + 1;
    }
  }

  /**
   * The gap map of a node holding `ids`: for each tag, in ascending ID
   * order, and each skip count `k` from 1 to `max_skipped_bursts`, add the
   * window of `k` burst intervals, mapped to that tag. Every gap then maps
   * to exactly the tags it is compatible with.
   */
  method BuildGapMap(ids: set<int>, tags: map<int, KnownTag>, p: SlopParams) returns (m: seq<Segment<set<int>>>)
    requires ids <= tags.Keys
    ensures Sorted(m) && PayloadsWithin(m, ids)
    ensures forall g :: Lookup(m, g) == Compatible(ids, tags, p, g)
  {
    m := [];
    var order := Ascending(ids);
    AscendingSpec(ids);
    var i := 0;
    while i < |order|
      invariant i <= |order|
      invariant Sorted(m) && PayloadsWithin(m, ids)
      invariant forall g :: Lookup(m, g) == CompatibleAmong(order[..i], tags, p, g)
    {
      ghost var m0 := m;
      m := AddWindows(m, order[i], tags[order[i]].bi, p, ids);
      GapMapStep(order, i, tags, p, m0, m);
      i := i + 1;
    }
    GapMapEnd(ids, order, tags, p, m);
  }

  lemma GapMapStep(order: seq<int>, i: nat, tags: map<int, KnownTag>, p: SlopParams, m0: seq<Segment<set<int>>>, m: seq<Segment<set<int>>>)
    requires i < |order| && order[i] in tags
    requires forall g :: Lookup(m0, g) == CompatibleAmong(order[..i], tags, p, g)
    requires forall g :: Lookup(m, g) == Lookup(m0, g) + (if Matches(tags[order[i]].bi, p, g, p.maxSkipped) then {order[i]} else {})
    ensures forall g :: Lookup(m, g) == CompatibleAmong(order[..i + 1], tags, p, g)
  {
    assert order[..i + 1] == order[..i] + [order[i]];
    forall g ensures Lookup(m, g) == CompatibleAmong(order[..i + 1], tags, p, g) {
      CompatibleAmongStep(order[..i], order[i], tags, p, g);
    }
  }

  lemma GapMapEnd(ids: set<int>, order: seq<int>, tags: map<int, KnownTag>, p: SlopParams, m: seq<Segment<set<int>>>)
    requires forall x :: x in ids <==> x in order
    requires forall g :: Lookup(m, g) == CompatibleAmong(order[..|order|], tags, p, g)
    ensures forall g :: Lookup(m, g) == Compatible(ids, tags, p, g)
  {
    assert order[..|order|] == order;
    forall g ensures Lookup(m, g) == Compatible(ids, tags, p, g) {
      forall t ensures t in CompatibleAmong(order, tags, p, g) <==> t in Compatible(ids, tags, p, g) {
        assert t in ids <==> t in order;
      }
    }
  }

  /** The depth the nodes of depth `d` link to: the next one, or the same one at the last depth. */
  function Successor(d: nat, maxDepth: nat): (r: nat)
    ensures d + 1 < maxDepth ==> r == d + 1
    ensures d + 1 >= maxDepth ==> r == d
  {
    if d + 1 < maxDepth then d + 1 else d
  }

  /**
   * At gap `g`, node `n` follows the gap map of its tags: no edge when no
   * tag is compatible, otherwise an edge to the node registered in `row`
   * for exactly the compatible tags.
   */
  ghost predicate LinkedAtGap(n: Node, tags: map<int, KnownTag>, p: SlopParams, row: map<set<int>, nat>, g: real) {
    var c := Compatible(n.ids, tags, p, g);
    if c == {} then Next(n, g) == None else c in row && Next(n, g) == Some(row[c])
  }

  ghost predicate LinkedTo(n: Node, tags: map<int, KnownTag>, p: SlopParams, row: map<set<int>, nat>) {
    forall g :: LinkedAtGap(n, tags, p, row, g)
  }

  /** `row1` keeps every entry of `row0`. */
  ghost predicate RowKept(row0: map<set<int>, nat>, row1: map<set<int>, nat>) {
    forall k :: k in row0 ==> k in row1 && row1[k] == row0[k]
  }

  lemma LinkedToGrows(n: Node, tags: map<int, KnownTag>, p: SlopParams, row0: map<set<int>, nat>, row1: map<set<int>, nat>)
    requires LinkedTo(n, tags, p, row0) && RowKept(row0, row1)
    ensures LinkedTo(n, tags, p, row1)
  {
    forall g ensures LinkedAtGap(n, tags, p, row1, g) {
      assert LinkedAtGap(n, tags, p, row0, g);
    }
  }

  /** Growing an edgeless node by the gap map of its tags links it as `setup_graphs` intends. */
  lemma GrowLinks(
    n0: Node, s: seq<Segment<set<int>>>, tags: map<int, KnownTag>, p: SlopParams,
    m: map<set<int>, nat>, n1: Node)
    requires n0.edges == [] && n1.ids == n0.ids
    requires Sorted(s) && PayloadsWithin(s, n0.ids)
    requires forall g :: Lookup(s, g) == Compatible(n0.ids, tags, p, g)
    requires EdgesGrown(n0, s, m, n1)
    ensures LinkedTo(n1, tags, p, m)
  {
    assert s[..|s|] == s;
    forall g ensures LinkedAtGap(n1, tags, p, m, g) {
      FindLookup(s, n0.ids, g);
      if Find(s, g).Some? {
        FindPayload(s, |s|, g);
      }
    }
  }

  /** Every node stands for registered tags only. */
  ghost predicate IdsWithin(nodes: seq<Node>, tags: map<int, KnownTag>) {
    forall h :: 0 <= h < |nodes| ==> nodes[h].ids <= tags.Keys
  }

  /** Only nodes above `depth`, and those at `depth` whose ID set is not in `todo`, have edges yet. */
  ghost predicate Pending(nodes: seq<Node>, level: seq<nat>, depth: nat, todo: set<set<int>>) {
    |level| == |nodes|
    && forall h :: 0 <= h < |nodes| && nodes[h].edges != [] ==>
         level[h] < depth || (level[h] == depth && nodes[h].ids !in todo)
  }

  /** Every node registered above depth `depth` is linked to the nodes of its successor depth. */
  ghost predicate LinkedBelow(
    N: seq<map<set<int>, nat>>, nodes: seq<Node>, tags: map<int, KnownTag>, p: SlopParams, depth: nat, maxDepth: nat)
  {
    depth <= |N| == maxDepth
    && forall d, k :: 0 <= d < depth && k in N[d] ==>
         N[d][k] < |nodes| && LinkedTo(nodes[N[d][k]], tags, p, N[Successor(d, maxDepth)])
  }

  /**
   * While the nodes `snap` of level `depth` are grown into `target`: their
   * entries stay, and those whose ID set is no longer in `todo` are linked.
   */
  ghost predicate LinkedAt(
    N: seq<map<set<int>, nat>>, nodes: seq<Node>, tags: map<int, KnownTag>, p: SlopParams,
    depth: nat, target: nat, snap: map<set<int>, nat>, todo: set<set<int>>)
  {
    depth < |N| && target < |N| && todo <= snap.Keys
    && RowKept(snap, N[depth])
    && forall k :: k in snap && k !in todo ==> snap[k] < |nodes| && LinkedTo(nodes[snap[k]], tags, p, N[target])
  }

  /**
   * Level `depth` gains no node while it grows into the next one; growing
   * into itself, it gains none as long as the nodes grown so far are unique.
   */
  ghost predicate LevelRow(N: seq<map<set<int>, nat>>, depth: nat, target: nat, snap: map<set<int>, nat>, todo: set<set<int>>) {
    depth < |N|
    && (target != depth ==> N[depth] == snap)
    && ((forall k :: k in snap && k !in todo ==> |k| <= 1) ==> N[depth].Keys == snap.Keys)
  }

  /** The invariant of the loop over the nodes of one level. */
  ghost predicate LevelInv(
    maxDepth: nat, tags: map<int, KnownTag>, p: SlopParams, depth: nat, target: nat,
    snap: map<set<int>, nat>, todo: set<set<int>>,
    N: seq<map<set<int>, nat>>, nodes: seq<Node>, level: seq<nat>)
  {
    && depth < maxDepth && target == Successor(depth, maxDepth)
    && IdsWithin(nodes, tags)
    && Pending(nodes, level, depth, todo)
    && LinkedBelow(N, nodes, tags, p, depth, maxDepth)
    && LinkedAt(N, nodes, tags, p, depth, target, snap, todo)
    && LevelRow(N, depth, target, snap, todo)
  }

  /** Only nodes above `depth` have edges yet. */
  ghost predicate EdgesAbove(nodes: seq<Node>, level: seq<nat>, depth: nat) {
    |level| == |nodes|
    && forall h :: 0 <= h < |nodes| && nodes[h].edges != [] ==> level[h] < depth
  }

  /** What holds before level `depth` is grown. */
  ghost predicate LevelStart(
    maxDepth: nat, tags: map<int, KnownTag>, p: SlopParams, depth: nat,
    N: seq<map<set<int>, nat>>, nodes: seq<Node>, level: seq<nat>)
  {
    && depth < maxDepth
    && IdsWithin(nodes, tags)
    && EdgesAbove(nodes, level, depth)
    && LinkedBelow(N, nodes, tags, p, depth, maxDepth)
  }

  /** Every node registered in `row` is linked to the nodes of `succ`. */
  ghost predicate RowLinked(row: map<set<int>, nat>, nodes: seq<Node>, tags: map<int, KnownTag>, p: SlopParams, succ: map<set<int>, nat>) {
    forall k :: k in row ==> row[k] < |nodes| && LinkedTo(nodes[row[k]], tags, p, succ)
  }

  /** At the last depth `d`: if its nodes are all unique, each is linked back into that depth. */
  ghost predicate LastLinked(N: seq<map<set<int>, nat>>, nodes: seq<Node>, tags: map<int, KnownTag>, p: SlopParams, d: nat) {
    d < |N|
    && ((forall k :: k in N[d] ==> |k| <= 1) ==> RowLinked(N[d], nodes, tags, p, N[d]))
  }

  /** What holds after level `depth` is grown. */
  ghost predicate LevelDone(
    maxDepth: nat, tags: map<int, KnownTag>, p: SlopParams, depth: nat,
    N: seq<map<set<int>, nat>>, nodes: seq<Node>, level: seq<nat>)
  {
    && depth < maxDepth
    && IdsWithin(nodes, tags)
    && EdgesAbove(nodes, level, depth + 1)
    && LinkedBelow(N, nodes, tags, p, Successor(depth, maxDepth), maxDepth)
    && (depth + 1 == maxDepth ==> LastLinked(N, nodes, tags, p, depth))
  }

  /** A non-empty subset of a set with at most one element is that set. */
  lemma SubsetOfUnique(a: set<int>, b: set<int>)
    requires a != {} && a <= b && |b| <= 1
    ensures a == b
  {
    if forall x :: x !in a {
      assert false;
    }
    var x :| x in a;
    var rest := b - {x};
    assert |rest| == 0;
    forall y | y in b ensures y == x {
      assert y !in rest;
    }
  }

  lemma LevelStepIds(
    tags: map<int, KnownTag>, q: nat, m: seq<Segment<set<int>>>, target: nat,
    N0: seq<map<set<int>, nat>>, nodes0: seq<Node>, level0: seq<nat>, nodes1: seq<Node>, level1: seq<nat>)
    requires IdsWithin(nodes0, tags) && q < |nodes0| && PayloadsWithin(m, nodes0[q].ids)
    requires NodesGrown(N0, nodes0, level0, q, target, nodes1, level1)
    requires NewFrom(|nodes0|, nodes1, PayloadsUpTo(m, |m|))
    ensures IdsWithin(nodes1, tags)
  {
    forall h | 0 <= h < |nodes1| ensures nodes1[h].ids <= tags.Keys {
      if h >= |nodes0| {
        var j :| 0 <= j < |m| && m[j].val == nodes1[h].ids;
      }
    }
  }

  lemma LevelStepPending(
    depth: nat, todo: set<set<int>>, k: set<int>, q: nat, target: nat,
    N0: seq<map<set<int>, nat>>, nodes0: seq<Node>, level0: seq<nat>, nodes1: seq<Node>, level1: seq<nat>)
    requires Pending(nodes0, level0, depth, todo) && q < |nodes0|
    requires level0[q] == depth && nodes0[q].ids == k
    requires NodesGrown(N0, nodes0, level0, q, target, nodes1, level1)
    ensures Pending(nodes1, level1, depth, todo - {k})
  {
    forall h | 0 <= h < |nodes1| && nodes1[h].edges != []
      ensures level1[h] < depth || (level1[h] == depth && nodes1[h].ids !in todo - {k})
    {
      if h < |nodes0| {
        assert level1[h] == level1[..|level0|][h];
      }
    }
  }

  lemma LevelStepBelow(
    maxDepth: nat, tags: map<int, KnownTag>, p: SlopParams, depth: nat, target: nat,
    q: nat, m: seq<Segment<set<int>>>,
    N0: seq<map<set<int>, nat>>, nodes0: seq<Node>, level0: seq<nat>,
    N1: seq<map<set<int>, nat>>, nodes1: seq<Node>, level1: seq<nat>)
    requires LinkedBelow(N0, nodes0, tags, p, depth, maxDepth)
    requires depth < maxDepth && target == Successor(depth, maxDepth)
    requires ArenaOk(N0, nodes0, level0) && q < |nodes0| && level0[q] == depth
    requires LevelsGrown(N0, m, target, N1)
    requires NodesGrown(N0, nodes0, level0, q, target, nodes1, level1)
    ensures LinkedBelow(N1, nodes1, tags, p, depth, maxDepth)
  {
    forall d, k | 0 <= d < depth && k in N1[d]
      ensures N1[d][k] < |nodes1| && LinkedTo(nodes1[N1[d][k]], tags, p, N1[Successor(d, maxDepth)])
    {
      var h := N0[d][k];
      assert level0[h] == d;
      assert nodes1[h] == nodes0[h];
      var e := Successor(d, maxDepth);
      if e == target {
        assert LevelAt(N0, target) == N0[target];
        LinkedToGrows(nodes0[h], tags, p, N0[e], N1[e]);
      }
    }
  }

  lemma LevelStepAt(
    tags: map<int, KnownTag>, p: SlopParams, depth: nat, target: nat,
    snap: map<set<int>, nat>, todo: set<set<int>>, k: set<int>, m: seq<Segment<set<int>>>,
    N0: seq<map<set<int>, nat>>, nodes0: seq<Node>, level0: seq<nat>,
    N1: seq<map<set<int>, nat>>, nodes1: seq<Node>, level1: seq<nat>)
    requires LinkedAt(N0, nodes0, tags, p, depth, target, snap, todo) && k in todo
    requires Registered(N0, nodes0) && nodes0[snap[k]].edges == []
    requires Sorted(m) && PayloadsWithin(m, k)
    requires forall g :: Lookup(m, g) == Compatible(k, tags, p, g)
    requires LevelsGrown(N0, m, target, N1)
    requires NodesGrown(N0, nodes0, level0, snap[k], target, nodes1, level1)
    requires EdgesGrown(nodes0[snap[k]], m, N1[target], nodes1[snap[k]])
    ensures LinkedAt(N1, nodes1, tags, p, depth, target, snap, todo - {k})
  {
    var q := snap[k];
    assert LevelAt(N0, target) == N0[target];
    assert LevelAt(N0, depth) == N0[depth];
    assert nodes0[q].ids == k;
    GrowLinks(nodes0[q], m, tags, p, N1[target], nodes1[q]);
    forall k2 | k2 in snap && k2 !in todo - {k}
      ensures snap[k2] < |nodes1| && LinkedTo(nodes1[snap[k2]], tags, p, N1[target])
    {
      if k2 != k {
        assert nodes0[snap[k2]].ids == k2;
        LinkedToGrows(nodes0[snap[k2]], tags, p, N0[target], N1[target]);
      }
    }
  }

  lemma LevelStepRow(
    depth: nat, target: nat, snap: map<set<int>, nat>, todo: set<set<int>>, k: set<int>,
    m: seq<Segment<set<int>>>, N0: seq<map<set<int>, nat>>, N1: seq<map<set<int>, nat>>)
    requires LevelRow(N0, depth, target, snap, todo) && k in todo && todo <= snap.Keys
    requires PayloadsWithin(m, k) && target < |N0|
    requires LevelsGrown(N0, m, target, N1)
    ensures LevelRow(N1, depth, target, snap, todo - {k})
  {
    assert LevelAt(N0, target) == N0[target];
    if target == depth && forall k2 :: k2 in snap && k2 !in todo - {k} ==> |k2| <= 1 {
      assert |k| <= 1;
      forall x | x in PayloadsUpTo(m, |m|) ensures x == k {
        var j :| 0 <= j < |m| && m[j].val == x;
        SubsetOfUnique(x, k);
      }
    }
  }

  /** One turn of the loop over a level: growing the node for `k` keeps the invariant with `k` done. */
  lemma LevelStep(
    maxDepth: nat, root: Option<nat>, tags: map<int, KnownTag>, p: SlopParams, depth: nat, target: nat,
    snap: map<set<int>, nat>, todo: set<set<int>>, k: set<int>, m: seq<Segment<set<int>>>,
    N0: seq<map<set<int>, nat>>, nodes0: seq<Node>, level0: seq<nat>,
    N1: seq<map<set<int>, nat>>, nodes1: seq<Node>, level1: seq<nat>)
    requires LevelInv(maxDepth, tags, p, depth, target, snap, todo, N0, nodes0, level0) && k in todo
    requires GraphOk(maxDepth, root, N0, tags, nodes0, level0)
    requires Sorted(m) && PayloadsWithin(m, k)
    requires forall g :: Lookup(m, g) == Compatible(k, tags, p, g)
    requires GrowDone(N0, nodes0, level0, snap[k], m, target, N1, nodes1, level1)
    ensures LevelInv(maxDepth, tags, p, depth, target, snap, todo - {k}, N1, nodes1, level1)
    ensures IdsKept(nodes0, nodes1)
  {
    var q := snap[k];
    assert q == N0[depth][k];
    assert level0[q] == depth && nodes0[q].ids == k;
    LevelStepIds(tags, q, m, target, N0, nodes0, level0, nodes1, level1);
    LevelStepPending(depth, todo, k, q, target, N0, nodes0, level0, nodes1, level1);
    LevelStepBelow(maxDepth, tags, p, depth, target, q, m, N0, nodes0, level0, N1, nodes1, level1);
    LevelStepAt(tags, p, depth, target, snap, todo, k, m, N0, nodes0, level0, N1, nodes1, level1);
    LevelStepRow(depth, target, snap, todo, k, m, N0, N1);
  }

  /** The node grown next stands for `k`, a set of registered tags, and lies in the arena. */
  lemma LevelPick(
    maxDepth: nat, root: Option<nat>, tags: map<int, KnownTag>, p: SlopParams, depth: nat, target: nat,
    snap: map<set<int>, nat>, todo: set<set<int>>, k: set<int>,
    N: seq<map<set<int>, nat>>, nodes: seq<Node>, level: seq<nat>)
    requires LevelInv(maxDepth, tags, p, depth, target, snap, todo, N, nodes, level) && k in todo
    requires GraphOk(maxDepth, root, N, tags, nodes, level)
    ensures snap[k] < |nodes| && nodes[snap[k]].ids == k && k <= tags.Keys
  {
    assert snap[k] == N[depth][k];
  }

  lemma LevelBegin(
    maxDepth: nat, tags: map<int, KnownTag>, p: SlopParams, depth: nat,
    N: seq<map<set<int>, nat>>, nodes: seq<Node>, level: seq<nat>)
    requires LevelStart(maxDepth, tags, p, depth, N, nodes, level)
    ensures LevelInv(maxDepth, tags, p, depth, Successor(depth, maxDepth), N[depth], N[depth].Keys, N, nodes, level)
  {
  }

  lemma LevelEnd(
    maxDepth: nat, tags: map<int, KnownTag>, p: SlopParams, depth: nat, snap: map<set<int>, nat>,
    N: seq<map<set<int>, nat>>, nodes: seq<Node>, level: seq<nat>)
    requires LevelInv(maxDepth, tags, p, depth, Successor(depth, maxDepth), snap, {}, N, nodes, level)
    ensures LevelDone(maxDepth, tags, p, depth, N, nodes, level)
  {
    var target := Successor(depth, maxDepth);
    if target != depth {
      forall d, k | 0 <= d < depth + 1 && k in N[d]
        ensures N[d][k] < |nodes| && LinkedTo(nodes[N[d][k]], tags, p, N[Successor(d, maxDepth)])
      {
        if d == depth {
          assert N[d][k] == snap[k];
        }
      }
    } else {
      forall k | k in N[depth] && (forall k2 :: k2 in N[depth] ==> |k2| <= 1)
        ensures N[depth][k] < |nodes| && LinkedTo(nodes[N[depth][k]], tags, p, N[depth])
      {
        assert k in snap;
      }
    }
  }

  /** Grow the node registered at `depth` for `k` by the gap map of its tags into `target`. */
  method GrowNode(
    g: Graph, p: SlopParams, depth: nat, target: nat, snap: map<set<int>, nat>, ghost todo: set<set<int>>, k: set<int>)
    requires g.Valid() && g.root.Some? && k in todo
    requires LevelInv(g.maxDepth, g.tags, p, depth, target, snap, todo, g.N, g.nodes, g.level)
    modifies g
    ensures g.Valid() && g.tags == old(g.tags) && g.root == old(g.root)
    ensures IdsKept(old(g.nodes), g.nodes)
    ensures LevelInv(g.maxDepth, g.tags, p, depth, target, snap, todo - {k}, g.N, g.nodes, g.level)
  {
    LevelPick(g.maxDepth, g.root, g.tags, p, depth, target, snap, todo, k, g.N, g.nodes, g.level);
    var m := BuildGapMap(k, g.tags, p);
    ghost var N0, nodes0, level0 := g.N, g.nodes, g.level;
    var r := g.Grow(Some(snap[k]), m, target);
    LevelStep(g.maxDepth, g.root, g.tags, p, depth, target, snap, todo, k, m, N0, nodes0, level0, g.N, g.nodes, g.level);
  }

  /**
   * One turn of the depth loop of `setup_graphs`: grow every node registered
   * at `depth` by the gap map of its tags into `Successor(depth)`. The nodes
   * are taken from the level as it stands when the turn begins.
   */
  method GrowLevel(g: Graph, p: SlopParams, depth: nat)
    requires g.Valid() && g.root.Some?
    requires LevelStart(g.maxDepth, g.tags, p, depth, g.N, g.nodes, g.level)
    modifies g
    ensures g.Valid() && g.tags == old(g.tags) && g.root == old(g.root)
    ensures IdsKept(old(g.nodes), g.nodes)
    ensures LevelDone(g.maxDepth, g.tags, p, depth, g.N, g.nodes, g.level)
  {
    var target := if depth < g.maxDepth - 1 then depth + 1 else depth;
    var snap := g.N[depth];
    var todo := snap.Keys;
    LevelBegin(g.maxDepth, g.tags, p, depth, g.N, g.nodes, g.level);
    while todo != {}
      invariant g.Valid() && g.tags == old(g.tags) && g.root == old(g.root)
      invariant IdsKept(old(g.nodes), g.nodes)
      invariant LevelInv(g.maxDepth, g.tags, p, depth, target, snap, todo, g.N, g.nodes, g.level) == true
      decreases |todo|
    {
      if forall x :: x !in todo {
        assert false;
      }
      var k :| k in todo;
      assert |todo - {k}| < |todo|;
      GrowNode(g, p, depth, target, snap, todo, k);
      todo := todo - {k};
    }
    LevelEnd(g.maxDepth, g.tags, p, depth, snap, g.N, g.nodes, g.level);
  }

  /** The outcome of `setup_graphs` for one graph: done, or the ID set of a last-depth node that is not unique. */
  datatype SetupResult = Ready | Indistinguishable(ids: set<int>)

  /**
   * The sanity check of `setup_graphs`: look through the ID sets of the
   * last depth for one holding more than one tag.
   */
  method CheckUnique(row: map<set<int>, nat>) returns (r: SetupResult)
    ensures r.Ready? <==> forall k :: k in row ==> |k| <= 1
    ensures r.Indistinguishable? ==> r.ids in row && |r.ids| > 1
  {
    var rest := row.Keys;
    while rest != {}
      invariant rest <= row.Keys
      invariant forall k :: k in row && k !in rest ==> |k| <= 1
      decreases |rest|
    {
      if forall x :: x !in rest {
        assert false;
      }
      var k :| k in rest;
      if |k| > 1 {
        return Indistinguishable(k);
      }
      rest := rest - {k};
    }
    return Ready;
  }

  /**
   * `setup_graphs` for one graph: set up the root, grow every depth in turn
   * (the last one into itself), then check that the last depth tells every
   * tag apart. Every node above the last depth, and when the check passes
   * every node of the last depth too, is linked by the gap map of its tags.
   */
  method SetupGraph(g: Graph, p: SlopParams) returns (r: SetupResult)
    requires g.Valid() && g.nodes == [] && |g.N| == g.maxDepth && g.maxDepth >= 1
    modifies g
    ensures g.Valid() && g.tags == old(g.tags) && |g.N| == g.maxDepth
    ensures g.root.Some? && g.nodes[g.root.value].ids == g.tags.Keys
    ensures IdsWithin(g.nodes, g.tags)
    ensures LinkedBelow(g.N, g.nodes, g.tags, p, g.maxDepth - 1, g.maxDepth)
    ensures r.Ready? <==> forall k :: k in g.N[g.maxDepth - 1] ==> |k| <= 1
    ensures r.Indistinguishable? ==> r.ids in g.N[g.maxDepth - 1] && |r.ids| > 1
    ensures r.Ready? ==> RowLinked(g.N[g.maxDepth - 1], g.nodes, g.tags, p, g.N[g.maxDepth - 1])
    ensures r.Ready? ==> FullyLinked(g.N, g.nodes, g.tags, p, g.maxDepth)
  {
    g.SetupRoot();
    ghost var rooted := g.nodes;
    var depth := 0;
    while depth < g.maxDepth
      invariant g.Valid() && g.tags == old(g.tags) && g.root == Some(0) && |g.N| == g.maxDepth
      invariant depth <= g.maxDepth && IdsKept(rooted, g.nodes)
      invariant depth < g.maxDepth ==> LevelStart(g.maxDepth, g.tags, p, depth, g.N, g.nodes, g.level)
      invariant depth == g.maxDepth ==> LevelDone(g.maxDepth, g.tags, p, depth - 1, g.N, g.nodes, g.level)
    {
      GrowLevel(g, p, depth);
      depth := depth + 1;
    }
    r := CheckUnique(g.N[g.maxDepth - 1]);
    if r.Ready? {
      AllLinked(g.N, g.nodes, g.tags, p, g.maxDepth);
    }
  }

  /** Every depth of the graph is linked to its successor depth: the DFA `setup_graphs` means to build. */
  ghost predicate FullyLinked(N: seq<map<set<int>, nat>>, nodes: seq<Node>, tags: map<int, KnownTag>, p: SlopParams, maxDepth: nat) {
    |N| == maxDepth
    && forall d :: 0 <= d < maxDepth ==> RowLinked(N[d], nodes, tags, p, N[Successor(d, maxDepth)])
  }

  lemma AllLinked(N: seq<map<set<int>, nat>>, nodes: seq<Node>, tags: map<int, KnownTag>, p: SlopParams, maxDepth: nat)
    requires maxDepth >= 1 && LinkedBelow(N, nodes, tags, p, maxDepth - 1, maxDepth)
    requires RowLinked(N[maxDepth - 1], nodes, tags, p, N[maxDepth - 1])
    ensures FullyLinked(N, nodes, tags, p, maxDepth)
  {
    forall d | 0 <= d < maxDepth ensures RowLinked(N[d], nodes, tags, p, N[Successor(d, maxDepth)]) {
      if d < maxDepth - 1 {
        forall k | k in N[d] ensures N[d][k] < |nodes| && LinkedTo(nodes[N[d][k]], tags, p, N[Successor(d, maxDepth)]) {
        }
      }
    }
  }

  /** The tags of `ids` whose burst interval is consistent with every gap of `gs`. */
  function Consistent(ids: set<int>, tags: map<int, KnownTag>, p: SlopParams, gs: seq<real>): (r: set<int>)
    ensures r <= ids
  {
    set t | t in ids && t in tags && forall i :: 0 <= i < |gs| ==> Matches(tags[t].bi, p, gs[i], p.maxSkipped)
  }

  lemma ConsistentStep(ids: set<int>, tags: map<int, KnownTag>, p: SlopParams, gs: seq<real>)
    requires gs != []
    ensures Consistent(ids, tags, p, gs) == Consistent(Compatible(ids, tags, p, gs[0]), tags, p, gs[1..])
  {
    var a := Consistent(ids, tags, p, gs);
    var b := Consistent(Compatible(ids, tags, p, gs[0]), tags, p, gs[1..]);
    forall t | t in b ensures t in a {
      forall i | 0 <= i < |gs| ensures Matches(tags[t].bi, p, gs[i], p.maxSkipped) {
        if i > 0 {
          assert gs[i] == gs[1..][i - 1];
        }
      }
    }
    forall t | t in a ensures t in b {
      forall i | 0 <= i < |gs| - 1 ensures Matches(tags[t].bi, p, gs[1..][i], p.maxSkipped) {
        assert gs[1..][i] == gs[i + 1];
      }
    }
  }

  /** The node reached from node `h` by following the edges for the gaps `gs` in turn, if every edge exists. */
  function Walk(nodes: seq<Node>, h: nat, gs: seq<real>): Option<nat>
    requires h < |nodes|
    decreases |gs|
  {
    if gs == [] then Some(h)
    else match Next(nodes[h], gs[0])
      case None => None
      case Some(n) => if n < |nodes| then Walk(nodes, n, gs[1..]) else None
  }

  /** The depth reached from depth `d` after `j` gaps: one deeper per gap, until the last depth. */
  function Reach(d: nat, j: nat, maxDepth: nat): (r: nat)
    requires d < maxDepth
    ensures d <= r < maxDepth
  {
    if d + j < maxDepth then d + j else maxDepth - 1
  }

  /**
   * The DFA tracks the tag IDs consistent with the gaps seen: walking from
   * a node registered at depth `d` for `k` along `gs` succeeds exactly when
   * some tag of `k` is consistent with every gap, and then ends at the node
   * registered, at the depth reached, for exactly those tags.
   */
  lemma {:induction false} WalkConsistent(
    N: seq<map<set<int>, nat>>, nodes: seq<Node>, tags: map<int, KnownTag>, p: SlopParams, maxDepth: nat,
    d: nat, k: set<int>, gs: seq<real>)
    requires FullyLinked(N, nodes, tags, p, maxDepth) && Registered(N, nodes)
    requires d < maxDepth && k in N[d] && k != {} && k <= tags.Keys
    ensures N[d][k] < |nodes|
    ensures Walk(nodes, N[d][k], gs).Some? <==> Consistent(k, tags, p, gs) != {}
    ensures Walk(nodes, N[d][k], gs).Some? ==>
      Consistent(k, tags, p, gs) in N[Reach(d, |gs|, maxDepth)]
      && Walk(nodes, N[d][k], gs).value == N[Reach(d, |gs|, maxDepth)][Consistent(k, tags, p, gs)]
    decreases |gs|
  {
    var h := N[d][k];
    if gs == [] {
      assert Consistent(k, tags, p, gs) == k;
    } else {
      var e := Successor(d, maxDepth);
      assert RowLinked(N[d], nodes, tags, p, N[e]);
      assert nodes[h].ids == k;
      assert LinkedAtGap(nodes[h], tags, p, N[e], gs[0]);
      var c := Compatible(k, tags, p, gs[0]);
      ConsistentStep(k, tags, p, gs);
      if c == {} {
        assert Consistent(c, tags, p, gs[1..]) == {};
      } else {
        WalkConsistent(N, nodes, tags, p, maxDepth, e, c, gs[1..]);
        assert Reach(e, |gs[1..]|, maxDepth) == Reach(d, |gs|, maxDepth);
      }
    }
  }

  /**
   * What the sanity check of `setup_graphs` buys: once the last depth holds
   * only unique nodes, at most one tag is consistent with any
   * `max_depth - 1` or more gaps, that is, with `max_depth` or more bursts.
   */
  lemma ReadySeparates(
    N: seq<map<set<int>, nat>>, nodes: seq<Node>, tags: map<int, KnownTag>, p: SlopParams, maxDepth: nat, gs: seq<real>)
    requires FullyLinked(N, nodes, tags, p, maxDepth) && Registered(N, nodes) && maxDepth >= 1
    requires tags.Keys in N[0]
    requires forall k :: k in N[maxDepth - 1] ==> |k| <= 1
    requires |gs| + 1 >= maxDepth
    ensures |Consistent(tags.Keys, tags, p, gs)| <= 1
  {
    if tags.Keys != {} {
      WalkConsistent(N, nodes, tags, p, maxDepth, 0, tags.Keys, gs);
    }
  }
}
