/**
 * `Run_Finder`: the run finder of one nominal frequency. It keeps a DFA
 * graph and a list of run candidates per Lotek ID, builds the graphs once
 * every tag is registered, feeds each hit to the candidates of its Lotek ID,
 * and at the end dumps whatever confirmed runs remain.
 */
module RunFinders {
  import opened Common
  import opened Hits
  import opened DfaNodes
  import opened DfaGraphs
  import opened DfaSetup
  import opened RunCandidates
  import opened RunScans

  /** The defaults of the slop settings: 10 ms, 1 ms more per skipped burst, and up to 60 skipped bursts. */
  const DEFAULT_BURST_SLOP: real := 0.010
  const DEFAULT_BURST_SLOP_EXPANSION: real := 0.001
  const DEFAULT_MAX_SKIPPED_BURSTS: nat := 60

  /** The message of the `std::runtime_error` thrown by `add_tag` for a tag on another frequency. */
  const FREQ_ERROR := "Internal error: attempt to add tag to Run_Finder on different nominal frequency!\n"

  /** Milliseconds to seconds, as the setters store their argument. */
  function MsToSeconds(ms: real): (s: real)
    ensures s * 1000.0 == ms
    ensures ms >= 0.0 ==> s >= 0.0
  {
    ms / 1000.0
  }

  /** The static defaults a new `Run_Finder` takes its slop settings from. */
  class Defaults {
    var burstSlop: real
    var burstSlopExpansion: real
    var maxSkippedBursts: nat

    constructor()
      ensures burstSlop == DEFAULT_BURST_SLOP && burstSlopExpansion == DEFAULT_BURST_SLOP_EXPANSION
      ensures maxSkippedBursts == DEFAULT_MAX_SKIPPED_BURSTS
    {
      burstSlop := DEFAULT_BURST_SLOP;
      burstSlopExpansion := DEFAULT_BURST_SLOP_EXPANSION;
      maxSkippedBursts := DEFAULT_MAX_SKIPPED_BURSTS;
    }

    /** `set_default_burst_slop_ms`: given in milliseconds, stored in seconds. */
    method SetBurstSlopMs(ms: real)
      modifies this
      ensures burstSlop == MsToSeconds(ms)
      ensures burstSlopExpansion == old(burstSlopExpansion) && maxSkippedBursts == old(maxSkippedBursts)
    {
      burstSlop := ms / 1000.0;
    }

    /** `set_default_burst_slop_expansion_ms`: given in milliseconds, stored in seconds. */
    method SetBurstSlopExpansionMs(ms: real)
      modifies this
      ensures burstSlopExpansion == MsToSeconds(ms)
      ensures burstSlop == old(burstSlop) && maxSkippedBursts == old(maxSkippedBursts)
    {
      burstSlopExpansion := ms / 1000.0;
    }

    /** `set_default_max_skipped_bursts` */
    method SetMaxSkippedBursts(skip: nat)
      modifies this
      ensures maxSkippedBursts == skip
      ensures burstSlop == old(burstSlop) && burstSlopExpansion == old(burstSlopExpansion)
    {
      maxSkippedBursts := skip;
    }
  }

  /** The static `run_id_counter` of the `Run_Candidate` constructor, shared by every finder. */
  class RunIds {
    /** The run ID given most recently (0 before any). */
    var last: nat

    constructor()
      ensures last == 0
    {
      last := 0;
    }

    /** `run_id = ++run_id_counter` */
    method Next() returns (id: nat)
      modifies this
      ensures id == old(last) + 1 && last == id
    {
      last := last + 1;
      id := last;
    }
  }

  /** The DFA that the candidates of graph `g` walk, confirming after `n` hits. */
  function DfaOf(g: Graph, n: nat): Dfa
    reads g
  {
    Dfa(g.nodes, g.tags, n)
  }

  /**
   * A graph that `setup_graphs` has finished with: rooted at a node holding
   * every tag, every depth linked to its successor depth, and every node of
   * the last depth unique.
   */
  ghost predicate GraphReady(g: Graph, p: SlopParams)
    reads g
  {
    && g.Valid() && g.maxDepth >= 1 && |g.N| == g.maxDepth
    && g.root.Some? && g.nodes[g.root.value].ids == g.tags.Keys
    && FullyLinked(g.N, g.nodes, g.tags, p, g.maxDepth)
    && (forall k :: k in g.N[g.maxDepth - 1] ==> |k| <= 1)
  }

  /**
   * A ready graph tells its tags apart after `max_depth` bursts: at most one
   * of its tags is consistent with `max_depth - 1` or more gaps.
   */
  lemma ReadyGraphSeparates(g: Graph, p: SlopParams, gs: seq<real>)
    requires GraphReady(g, p) && |gs| + 1 >= g.maxDepth
    ensures |Consistent(g.tags.Keys, g.tags, p, gs)| <= 1
  {
    ReadySeparates(g.N, g.nodes, g.tags, p, g.maxDepth, gs);
  }

  /** The graph of Lotek ID `lid` on frequency `freq`: well formed, of depth `n`, holding only tags of that ID and frequency. */
  ghost predicate GraphFits(g: Graph, lid: int, freq: int, n: nat)
    reads g
  {
    && g.Valid() && g.maxDepth == n
    && (forall t :: t in g.tags ==> g.tags[t].lid == lid && g.tags[t].freq == freq)
    && IdsWithin(g.nodes, g.tags)
  }

  /**
   * The candidates of a graph: none while the graph is not set up, and
   * otherwise each at a node of the graph with a run ID given already.
   */
  ghost predicate CandsFit(g: Graph, cs: seq<Candidate>, n: nat, last: nat)
    reads g
  {
    && ((g.nodes == [] && |g.N| == g.maxDepth && cs == []) || g.root.Some?)
    && Bounded(cs, DfaOf(g, n), last)
  }

  /** In a strictly increasing list, everything from position `i` on is at least the element at `i`. */
  lemma SuffixAtLeast(order: seq<int>, i: nat)
    requires StrictlyIncreasing(order) && i < |order|
    ensures forall l :: l in order[i..] ==> order[i] <= l
  {
    forall l | l in order[i..] ensures order[i] <= l {
      var k :| i <= k < |order| && order[k] == l;
      assert k == i || order[i] < order[k];
    }
  }

  /** The graph `add_tag` creates for a Lotek ID not seen before. */
  method NewGraphFor(lid: int, freq: int, n: nat, ghost last: nat) returns (g: Graph)
    ensures fresh(g) && g.tags == map[] && g.root == None
    ensures GraphFits(g, lid, freq, n) && CandsFit(g, [], n, last)
  {
    g := new Graph(n);
  }

  /** `G[lid].add_tag(t)`: a tag of the graph's own Lotek ID is always accepted. */
  method AddTagTo(g: Graph, t: KnownTag, freq: int, n: nat, ghost cs: seq<Candidate>, ghost last: nat)
    requires GraphFits(g, t.lid, freq, n) && CandsFit(g, cs, n, last) && t.freq == freq
    modifies g
    ensures GraphFits(g, t.lid, freq, n) && CandsFit(g, cs, n, last)
    ensures g.tags == if t.id in old(g.tags) then old(g.tags) else old(g.tags)[t.id := t]
    ensures g.root == old(g.root) && g.nodes == old(g.nodes) && g.N == old(g.N)
  {
    assert forall a :: a in g.tags ==> g.tags[a].lid == t.lid;
    var added := g.AddTag(t);
  }

  /** The body of the graph loop of `setup_graphs`, on the graph of Lotek ID `lid`. */
  method SetupFor(g: Graph, p: SlopParams, lid: int, freq: int, n: nat, ghost cs: seq<Candidate>, ghost last: nat)
    returns (r: SetupResult)
    requires GraphFits(g, lid, freq, n) && CandsFit(g, cs, n, last) && g.nodes == [] && n >= 1
    modifies g
    ensures cs == [] && GraphFits(g, lid, freq, n) && CandsFit(g, cs, n, last)
    ensures g.tags == old(g.tags) && g.root.Some? && g.nodes[g.root.value].ids == g.tags.Keys
    ensures r.Ready? <==> GraphReady(g, p)
    ensures r.Indistinguishable? ==> r.ids in g.N[n - 1] && |r.ids| > 1
  {
    r := SetupGraph(g, p);
  }

  /** Every graph of `G` is owned, in `owner`, by the Lotek ID it is stored under. */
  ghost predicate Owned(G: map<int, Graph>, owner: map<Graph, int>) {
    forall lid :: lid in G ==> G[lid] in owner && owner[G[lid]] == lid
  }

  /**
   * One pass of the loop of `setup_graphs`: set up the graph of the Lotek ID
   * at position `i` of the ascending list `order`; the graphs before it are
   * ready and those after it are untouched.
   */
  method SetupAt(G: map<int, Graph>, ghost owner: map<Graph, int>, ghost cands: map<int, seq<Candidate>>,
                 order: seq<int>, i: nat, p: SlopParams, freq: int, n: nat, ghost last: nat)
    returns (r: SetupResult)
    requires Owned(G, owner) && G.Keys <= cands.Keys && n >= 1
    requires StrictlyIncreasing(order) && i < |order| && forall l :: l in order ==> l in G
    requires forall l :: l in G ==> GraphFits(G[l], l, freq, n) && CandsFit(G[l], cands[l], n, last)
    requires forall l :: l in G && l !in order[i..] ==> GraphReady(G[l], p)
    requires forall l :: l in order[i..] ==> G[l].nodes == []
    modifies G[order[i]]
    ensures forall l :: l in G ==> GraphFits(G[l], l, freq, n) && CandsFit(G[l], cands[l], n, last)
    ensures forall l :: l in G ==> G[l].tags == old(G[l].tags)
    ensures forall l :: l in order[i + 1..] ==> G[l].nodes == []
    ensures r.Ready? ==> forall l :: l in G && l !in order[i + 1..] ==> GraphReady(G[l], p)
    ensures r.Indistinguishable? ==>
      && GraphFits(G[order[i]], order[i], freq, n) && r.ids in G[order[i]].N[n - 1] && |r.ids| > 1
      && forall l :: l in G && l < order[i] ==> GraphReady(G[l], p)
  {
    hide GraphFits;
    hide CandsFit;
    hide GraphReady;
    var lid := order[i];
    var g := G[lid];
    r := SetupFor(g, p, lid, freq, n, cands[lid], last);
    forall l | l in G
      ensures GraphFits(G[l], l, freq, n) && CandsFit(G[l], cands[l], n, last)
    {
      if l != lid {
        assert owner[G[l]] != owner[g];
      }
    }
    if r.Indistinguishable? {
      SuffixAtLeast(order, i);
      forall l | l in G && l < lid ensures GraphReady(G[l], p) {
        assert l !in order[i..];
      }
    } else {
      forall l | l in G && l !in order[i + 1..] ensures GraphReady(G[l], p) {
        if l != lid {
          assert owner[G[l]] != owner[g] && l !in order[i..];
        }
      }
    }
    forall l | l in order[i + 1..] ensures G[l].nodes == [] {
      assert l in order[i..] && owner[G[l]] != owner[g];
    }
    forall l | l in G && l != lid ensures G[l].tags == old(G[l].tags) {
      assert owner[G[l]] != owner[g];
    }
  }

  /** In a strictly increasing list, an element above the one at `i` comes after it. */
  lemma AboveInSuffix(order: seq<int>, i: nat, l: int)
    requires StrictlyIncreasing(order) && i < |order| && l in order && order[i] < l
    ensures l in order[i + 1..]
  {
    var k :| 0 <= k < |order| && order[k] == l;
    if k <= i {
      assert false;
    }
    assert order[i + 1..][k - (i + 1)] == l;
  }

  /**
   * The loop of `setup_graphs`: set up the graphs in ascending Lotek ID
   * order, stopping at the first one whose last depth still holds a set of
   * several tags; `bad` is that graph's Lotek ID.
   */
  method SetupEach(G: map<int, Graph>, ghost owner: map<Graph, int>, ghost cands: map<int, seq<Candidate>>,
                   p: SlopParams, freq: int, n: nat, ghost last: nat)
    returns (r: SetupResult, ghost bad: int)
    requires Owned(G, owner) && G.Keys <= cands.Keys && n >= 1
    requires forall lid :: lid in G ==> GraphFits(G[lid], lid, freq, n) && CandsFit(G[lid], cands[lid], n, last)
    requires forall lid :: lid in G ==> G[lid].nodes == []
    modifies owner.Keys
    ensures forall lid :: lid in G ==> GraphFits(G[lid], lid, freq, n) && CandsFit(G[lid], cands[lid], n, last)
    ensures forall lid :: lid in G ==> G[lid].tags == old(G[lid].tags)
    ensures r.Ready? ==> forall lid :: lid in G ==> GraphReady(G[lid], p)
    ensures r.Indistinguishable? ==>
      && bad in G && GraphFits(G[bad], bad, freq, n) && r.ids in G[bad].N[n - 1] && |r.ids| > 1
      && (forall l :: l in G && l < bad ==> GraphReady(G[l], p))
      && (forall l :: l in G && bad < l ==> G[l].nodes == [])
  {
    hide GraphFits;
    hide CandsFit;
    hide GraphReady;
    hide Ascending;
    var order := Ascending(G.Keys);
    AscendingSpec(G.Keys);
    var i := 0;
    bad := 0;
    while i < |order|
      invariant i <= |order|
      invariant forall l :: l in G ==> GraphFits(G[l], l, freq, n) && CandsFit(G[l], cands[l], n, last)
      invariant forall l :: l in G && l !in order[i..] ==> GraphReady(G[l], p)
      invariant forall l :: l in order[i..] ==> G[l].nodes == []
      invariant forall l :: l in G ==> G[l].tags == old(G[l].tags)
    {
      assert G[order[i]] in owner;
      r := SetupAt(G, owner, cands, order, i, p, freq, n, last);
      if r.Indistinguishable? {
        bad := order[i];
        forall l | l in G && bad < l ensures G[l].nodes == [] {
          AboveInSuffix(order, i, l);
        }
        return;
      }
      i := i + 1;
    }
    r := Ready;
  }

  /**
   * The body of `process` on the candidates `cs0` of the hit's Lotek ID:
   * the scan, the clones spliced after the survivors, and a new candidate
   * at the root, with a fresh run ID, unless the hit confirmed a candidate.
   */
  method ProcessOn(g: Graph, h: Hit, ghost freq: int, n: nat, cs0: seq<Candidate>, runIds: RunIds)
    returns (cs: seq<Candidate>, o: seq<Record>)
    requires GraphFits(g, h.lid, freq, n) && g.root.Some? && CandsFit(g, cs0, n, runIds.last)
    modifies runIds
    ensures var s := Scan(DfaOf(g, n), h, [], cs0, [], []);
      && cs == s.kept + s.clones + (if s.confirmed then [] else [NewCandidate(g.root.value, h, old(runIds.last) + 1)])
      && o == s.out
      && runIds.last == old(runIds.last) + (if s.confirmed then 0 else 1)
    ensures CandsFit(g, cs, n, runIds.last)
  {
    var d := DfaOf(g, n);
    ghost var bound := runIds.last;
    BoundedFit(cs0, d, bound);
    ScanBounded(d, h, [], cs0, [], [], bound);
    var kept, cloned, confirmed;
    kept, cloned, o, confirmed := ScanCandidates(d, h, cs0);
    cs := kept + cloned;
    BoundedJoin(kept, cloned, d, bound, bound);
    if !confirmed {
      var id := runIds.Next();
      BoundedJoin(cs, [NewCandidate(g.root.value, h, id)], d, bound, id);
      cs := cs + [NewCandidate(g.root.value, h, id)];
    }
  }

  /** `end_processing` keeps the candidates of a graph fitting it. */
  lemma EndFits(g: Graph, cs: seq<Candidate>, n: nat, last: nat)
    requires CandsFit(g, cs, n, last)
    ensures CandsFit(g, EndFrom(n, cs, 0, []).0, n, last)
  {
    EndBounded(n, cs, 0, [], DfaOf(g, n), last);
  }

  /** The candidate lists after `end_processing` has walked those of `lids`, in that order. */
  function EndLists(n: nat, cands: map<int, seq<Candidate>>, lids: seq<int>): (r: map<int, seq<Candidate>>)
    ensures r.Keys == cands.Keys
  {
    if lids == [] then cands
    else
      var last := lids[|lids| - 1];
      var r := EndLists(n, cands, lids[..|lids| - 1]);
      if last in cands then r[last := EndFrom(n, cands[last], 0, []).0] else r
  }

  /** Each list is walked on its own: the lists of `lids` are ended, the others untouched. */
  lemma {:induction false} EndListsAt(n: nat, cands: map<int, seq<Candidate>>, lids: seq<int>, l: int)
    requires l in cands
    ensures EndLists(n, cands, lids)[l] == if l in lids then EndFrom(n, cands[l], 0, []).0 else cands[l]
    decreases |lids|
  {
    if lids != [] {
      var pre := lids[..|lids| - 1];
      EndListsAt(n, cands, pre, l);
      assert lids == pre + [lids[|lids| - 1]];
    }
  }

  lemma EndListsStep(n: nat, cands: map<int, seq<Candidate>>, lids: seq<int>, i: nat)
    requires i < |lids| && lids[i] in cands
    ensures EndLists(n, cands, lids[..i + 1]) == EndLists(n, cands, lids[..i])[lids[i] := EndFrom(n, cands[lids[i]], 0, []).0]
    ensures EndOutputs(n, cands, lids[..i + 1]) == EndOutputs(n, cands, lids[..i]) + EndFrom(n, cands[lids[i]], 0, []).1
  {
    assert lids[..i + 1][..i] == lids[..i];
  }

  /** The list loop of `end_processing`, Lotek ID by Lotek ID in ascending order. */
  method EndAll(cands0: map<int, seq<Candidate>>, n: nat) returns (cands: map<int, seq<Candidate>>, o: seq<Record>)
    ensures cands == EndLists(n, cands0, Ascending(cands0.Keys))
    ensures o == EndOutputs(n, cands0, Ascending(cands0.Keys))
  {
    hide Ascending;
    var order := Ascending(cands0.Keys);
    AscendingSpec(cands0.Keys);
    cands, o := cands0, [];
    var i := 0;
    while i < |order|
      invariant i <= |order|
      invariant cands == EndLists(n, cands0, order[..i]) && o == EndOutputs(n, cands0, order[..i])
    {
      var lid := order[i];
      assert lid !in order[..i];
      EndListsAt(n, cands0, order[..i], lid);
      var cs, recs := EndCandidates(cands[lid], n);
      EndListsStep(n, cands0, order, i);
      cands, o := cands[lid := cs], o + recs;
      i := i + 1;
    }
    assert order[..|order|] == order;
  }

  class Finder {
    const nomFreq: int
    /** `burst_slop`, `burst_slop_expansion` and `max_skipped_bursts`, taken from the defaults at construction. */
    const params: SlopParams
    /** `Run_Candidate::hits_to_confirm_id`: the depth of every graph, and the hits that confirm a run. */
    const hitsToConfirm: nat
    const runIds: RunIds
    var G: map<int, Graph>
    var cands: map<int, seq<Candidate>>
    /** The records dumped so far, in order. */
    var out: seq<Record>
    /** The Lotek ID each graph was made for: no graph serves two IDs. */
    ghost var owner: map<Graph, int>

    ghost predicate Valid()
      reads this, owner.Keys, runIds
    {
      && hitsToConfirm >= 1
      && G.Keys == cands.Keys
      && Owned(G, owner)
      && (forall lid :: lid in G ==> GraphFits(G[lid], lid, nomFreq, hitsToConfirm))
      && (forall lid :: lid in G ==> CandsFit(G[lid], cands[lid], hitsToConfirm, runIds.last))
    }

    /** The `Run_Finder` constructor: no graphs, no candidates, settings from the defaults. */
    constructor(nomFreq: int, defaults: Defaults, hitsToConfirm: nat, runIds: RunIds)
      requires hitsToConfirm >= 1
      ensures Valid()
      ensures this.nomFreq == nomFreq && this.hitsToConfirm == hitsToConfirm && this.runIds == runIds
      ensures params == SlopParams(defaults.burstSlop, defaults.burstSlopExpansion, defaults.maxSkippedBursts)
      ensures G == map[] && cands == map[] && out == [] && owner == map[]
    {
      this.nomFreq := nomFreq;
      this.hitsToConfirm := hitsToConfirm;
      this.runIds := runIds;
      params := SlopParams(defaults.burstSlop, defaults.burstSlopExpansion, defaults.maxSkippedBursts);
      G := map[];
      cands := map[];
      out := [];
      owner := map[];
    }

    /**
     * `add_tag`: refuse a tag on another frequency; otherwise make sure its
     * Lotek ID has a graph and a candidate list, and register the tag in
     * that graph.
     */
    method AddTag(t: KnownTag) returns (r: Outcome)
      requires Valid()
      modifies this, owner.Keys
      ensures Valid()
      ensures r.Fail? <==> t.freq != nomFreq
      ensures r.Fail? ==> G == old(G) && cands == old(cands)
      ensures r.Pass? ==> G.Keys == old(G.Keys) + {t.lid} && t.id in G[t.lid].tags
      ensures r.Pass? ==> cands == if t.lid in old(cands) then old(cands) else old(cands)[t.lid := []]
      ensures r.Fail? ==> forall l :: l in G ==> G[l].tags == old(G[l].tags)
      ensures r.Pass? ==> forall l :: l in old(G) && l != t.lid ==> G[l] == old(G)[l] && G[l].tags == old(G[l].tags)
      ensures r.Pass? && t.lid in old(G) ==>
        && G[t.lid] == old(G)[t.lid]
        && G[t.lid].tags == (if t.id in old(G[t.lid].tags) then old(G[t.lid].tags) else old(G[t.lid].tags)[t.id := t])
        && G[t.lid].root == old(G[t.lid].root) && G[t.lid].nodes == old(G[t.lid].nodes) && G[t.lid].N == old(G[t.lid].N)
      ensures r.Pass? && t.lid !in old(G) ==> fresh(G[t.lid]) && G[t.lid].tags == map[t.id := t] && G[t.lid].root == None
      ensures forall l :: l in old(G) && (r.Fail? || l != t.lid) ==>
        G[l].root == old(G[l].root) && G[l].nodes == old(G[l].nodes) && G[l].N == old(G[l].N)
      ensures forall g :: g in owner.Keys && g !in old(owner.Keys) ==> fresh(g)
      ensures out == old(out)
    {
      hide GraphFits;
      hide CandsFit;
      if t.freq != nomFreq {
        return Fail(FREQ_ERROR);
      }
      if t.lid !in G {
        AddGraph(t.lid);
      }
      AddToGraph(t);
      r := Pass;
    }

    /** The new graph and the empty candidate list `add_tag` makes for a Lotek ID not seen before. */
    method AddGraph(lid: int)
      requires Valid() && lid !in G
      modifies this
      ensures Valid() && G.Keys == old(G.Keys) + {lid} && fresh(G[lid]) && G[lid].tags == map[] && G[lid].root == None
      ensures forall l :: l in old(G) ==> G[l] == old(G)[l]
      ensures cands == old(cands)[lid := []] && out == old(out)
      ensures owner == old(owner)[G[lid] := lid]
    {
      hide GraphFits;
      hide CandsFit;
      var g := NewGraphFor(lid, nomFreq, hitsToConfirm, runIds.last);
      ghost var G0, cands0, owner0 := G, cands, owner;
      G, cands, owner := G[lid := g], cands[lid := []], owner[g := lid];
      forall l | l in G
        ensures G[l] in owner && owner[G[l]] == l
        ensures GraphFits(G[l], l, nomFreq, hitsToConfirm) && CandsFit(G[l], cands[l], hitsToConfirm, runIds.last)
      {
        if l != lid {
          assert G[l] == G0[l] && cands[l] == cands0[l] && G0[l] in owner0 && G0[l] != g;
        }
      }
    }

    /** `G[lid].add_tag(t)` on the graph of the tag's own Lotek ID. */
    method AddToGraph(t: KnownTag)
      requires Valid() && t.lid in G && t.freq == nomFreq
      modifies G[t.lid]
      ensures Valid()
      ensures G[t.lid].tags == if t.id in old(G[t.lid].tags) then old(G[t.lid].tags) else old(G[t.lid].tags)[t.id := t]
      ensures G[t.lid].root == old(G[t.lid].root) && G[t.lid].nodes == old(G[t.lid].nodes) && G[t.lid].N == old(G[t.lid].N)
      ensures forall l :: l in G && l != t.lid ==>
        G[l].tags == old(G[l].tags) && G[l].root == old(G[l].root) && G[l].nodes == old(G[l].nodes) && G[l].N == old(G[l].N)
    {
      hide GraphFits;
      hide CandsFit;
      var g := G[t.lid];
      AddTagTo(g, t, nomFreq, hitsToConfirm, cands[t.lid], runIds.last);
      forall lid | lid in G
        ensures GraphFits(G[lid], lid, nomFreq, hitsToConfirm) && CandsFit(G[lid], cands[lid], hitsToConfirm, runIds.last)
      {
        if lid != t.lid {
          assert G[lid] != g;
        }
      }
      forall l | l in G && l != t.lid
        ensures G[l].tags == old(G[l].tags) && G[l].root == old(G[l].root) && G[l].nodes == old(G[l].nodes) && G[l].N == old(G[l].N)
      {
        assert owner[G[l]] != owner[g];
      }
    }

    /**
     * `setup_graphs`, graph by graph in ascending Lotek ID order, stopping at
     * the first graph whose last depth still holds a set of several tags.
     */
    method SetupGraphs() returns (r: SetupResult, ghost bad: int)
      requires Valid() && forall lid :: lid in G ==> G[lid].nodes == []
      modifies owner.Keys
      ensures Valid()
      ensures r.Ready? ==> forall lid :: lid in G ==> GraphReady(G[lid], params)
      ensures forall lid :: lid in G ==> G[lid].tags == old(G[lid].tags)
      ensures r.Indistinguishable? ==>
        && bad in G && r.ids in G[bad].N[hitsToConfirm - 1] && |r.ids| > 1
        && (forall l :: l in G && l < bad ==> GraphReady(G[l], params))
        && (forall l :: l in G && bad < l ==> G[l].nodes == [])
    {
      r, bad := SetupEach(G, owner, cands, params, nomFreq, hitsToConfirm, runIds.last);
    }

    /**
     * `process(h)`: run the candidate scan of the hit's Lotek ID, append the
     * clones after the survivors, and start a new candidate at the root with
     * the hit unless it confirmed a candidate.
     */
    method Process(h: Hit)
      requires Valid() && h.lid in G && G[h.lid].root.Some?
      modifies this, runIds
      ensures Valid() && G == old(G)
      ensures var s := Scan(DfaOf(G[h.lid], hitsToConfirm), h, [], old(cands[h.lid]), [], []);
        && cands == old(cands)[h.lid := s.kept + s.clones +
             (if s.confirmed then [] else [NewCandidate(G[h.lid].root.value, h, old(runIds.last) + 1)])]
        && runIds.last == old(runIds.last) + (if s.confirmed then 0 else 1)
        && out == old(out) + s.out
    {
      hide GraphFits;
      hide CandsFit;
      hide Scan;
      var g := G[h.lid];
      ghost var bound := runIds.last;
      var cs, o := ProcessOn(g, h, nomFreq, hitsToConfirm, cands[h.lid], runIds);
      CandsFitAfter(G, cands, h.lid, cs, hitsToConfirm, bound, runIds.last);
      cands, out := cands[h.lid := cs], out + o;
    }

    /**
     * `end_processing`: the candidate lists in ascending Lotek ID order,
     * each walked once, dumping every confirmed candidate after erasing its
     * rivals.
     */
    method EndProcessing()
      requires Valid()
      modifies this
      ensures Valid() && G == old(G) && cands.Keys == old(cands).Keys
      ensures forall lid :: lid in cands ==> cands[lid] == EndFrom(hitsToConfirm, old(cands)[lid], 0, []).0
      ensures out == old(out) + EndOutputs(hitsToConfirm, old(cands), Ascending(old(cands).Keys))
      ensures forall lid, c :: lid in cands && c in cands[lid] && IsConfirmed(c) ==> c.hits == map[]
      ensures forall lid :: lid in cands ==> DistinctConfirmedIds(cands[lid])
    {
      hide GraphFits;
      hide CandsFit;
      hide EndFrom;
      hide EndLists;
      hide EndOutputs;
      hide Ascending;
      hide DistinctConfirmedIds;
      var cs, o := EndAll(cands, hitsToConfirm);
      EndAllFacts(G, cands, cs, hitsToConfirm, runIds.last);
      cands, out := cs, out + o;
    }
  }

  /** Replacing one candidate list by a fitting one, with more run IDs given out, keeps every list fitting. */
  lemma CandsFitAfter(G: map<int, Graph>, cands: map<int, seq<Candidate>>, lid: int, cs: seq<Candidate>,
                      n: nat, bound: nat, last: nat)
    requires G.Keys <= cands.Keys && lid in G && bound <= last
    requires forall l :: l in G ==> CandsFit(G[l], cands[l], n, bound)
    requires CandsFit(G[lid], cs, n, last)
    ensures forall l :: l in G ==> CandsFit(G[l], cands[lid := cs][l], n, last)
  {
    forall l | l in G ensures CandsFit(G[l], cands[lid := cs][l], n, last) {
      if l != lid {
        CandsFitMono(G[l], cands[l], n, bound, last);
      }
    }
  }

  /**
   * What `end_processing` leaves: each list ended on its own, still
   * fitting its graph, with no confirmed candidate still holding hits.
   */
  lemma EndAllFacts(G: map<int, Graph>, cands: map<int, seq<Candidate>>, cs: map<int, seq<Candidate>>, n: nat, last: nat)
    requires cs == EndLists(n, cands, Ascending(cands.Keys)) && G.Keys == cands.Keys
    requires forall l :: l in G ==> CandsFit(G[l], cands[l], n, last)
    ensures cs.Keys == cands.Keys
    ensures forall l :: l in cands ==> cs[l] == EndFrom(n, cands[l], 0, []).0
    ensures forall l :: l in G ==> CandsFit(G[l], cs[l], n, last)
    ensures forall l, c :: l in cs && c in cs[l] && IsConfirmed(c) ==> c.hits == map[]
    ensures forall l :: l in cs ==> DistinctConfirmedIds(cs[l])
  {
    hide CandsFit;
    hide EndFrom;
    hide EndLists;
    hide Ascending;
    AscendingSpec(cands.Keys);
    forall l | l in cands ensures cs[l] == EndFrom(n, cands[l], 0, []).0 {
      EndListsAt(n, cands, Ascending(cands.Keys), l);
    }
    forall l | l in G ensures CandsFit(G[l], cs[l], n, last) {
      EndFits(G[l], cands[l], n, last);
    }
    forall l, c | l in cs && c in cs[l] && IsConfirmed(c) ensures c.hits == map[] {
      EndDumpsAll(n, cands[l], 0, []);
    }
    forall l | l in cs ensures DistinctConfirmedIds(cs[l]) {
      EndDistinctIds(n, cands[l]);
    }
  }

  /** Giving out more run IDs keeps the candidates of a graph fitting. */
  lemma CandsFitMono(g: Graph, cs: seq<Candidate>, n: nat, bound: nat, last: nat)
    requires CandsFit(g, cs, n, bound) && bound <= last
    ensures CandsFit(g, cs, n, last)
  {
  }

  lemma BoundedJoin(a: seq<Candidate>, b: seq<Candidate>, d: Dfa, bound: nat, last: nat)
    requires Bounded(a, d, bound) && Bounded(b, d, last) && bound <= last
    ensures Bounded(a + b, d, last)
  {
    forall x | x in a + b ensures x.state < |d.nodes| && x.runId <= last {
      if x !in a {
        assert x in b;
      }
    }
  }

  /** The records `end_processing` dumps from the lists of `lids`, in that order. */
  function EndOutputs(n: nat, cands: map<int, seq<Candidate>>, lids: seq<int>): seq<Record>
  {
    if lids == [] then []
    else
      var last := lids[|lids| - 1];
      EndOutputs(n, cands, lids[..|lids| - 1]) + (if last in cands then EndFrom(n, cands[last], 0, []).1 else [])
  }

  /**
   * `end_processing` never dumps an unconfirmed candidate: every record it
   * writes carries the run ID of a candidate that was confirmed when it
   * began.
   */
  lemma {:induction false} EndOutputsConfirmed(n: nat, cands: map<int, seq<Candidate>>, lids: seq<int>)
    ensures forall r :: r in EndOutputs(n, cands, lids) ==>
      exists lid :: lid in cands && r.runId in ConfirmedRuns(cands[lid])
    decreases |lids|
  {
    if lids != [] {
      var last := lids[|lids| - 1];
      EndOutputsConfirmed(n, cands, lids[..|lids| - 1]);
      if last in cands {
        EndRecordsConfirmed(n, cands[last], 0, [], ConfirmedRuns(cands[last]));
      }
    }
  }
}
