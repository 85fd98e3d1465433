/**
 * A run candidate (`Run_Candidate`): one walker through the DFA of a Lotek ID,
 * holding the hits it has accepted so far. A `std::list<Run_Candidate>`
 * stores candidates by value and clones them by copying, so a candidate is a
 * datatype value here and each mutating member function is a function that
 * returns the updated value. Its `state` is a handle into the node arena of
 * the graph it walks, and its confirmed tag is the registered tag record.
 */
module RunCandidates {
  import opened Common
  import opened Hits
  import opened Intervals
  import opened IntervalMaps
  import opened DfaNodes
  import opened DfaGraphs

  /** Not-a-timestamp: no hit of the run has been dumped yet. */
  const BOGUS_TIMESTAMP: real := -1.0
  /** The tag ID of a candidate whose tag is not confirmed. */
  const BOGUS_TAG_ID: int := -1
  /** The burst slop reported for the first dumped burst of a run. */
  const BOGUS_BURST_SLOP: real := 0.0
  /** The default of `Run_Candidate::hits_to_confirm_id`. */
  const DEFAULT_HITS_TO_CONFIRM: nat := 2

  datatype Candidate = Candidate(
    state: nat,                   // node handle in the arena of the graph walked
    hits: map<int, Hit>,          // the hit buffer, keyed by `seq_no`
    lastTs: real,                 // timestamp of the last accepted hit
    lastDumpedTs: real,           // timestamp of the last dumped hit, or BOGUS_TIMESTAMP
    confTag: Option<KnownTag>,    // the confirmed tag, or None (a null `conf_tag`)
    runId: nat,
    inARow: nat,                  // bursts of the run dumped so far
    bi: real)                     // burst interval of the confirmed tag, 0 before

  /** One output line of `dump_hits`: run, tag, position in the run, the hit, and its burst slop. */
  datatype Record = Record(runId: nat, tagId: int, posInRun: nat, hit: Hit, burstSlop: real)

  /** The buffer is keyed by the hits' own sequence numbers. */
  predicate HitsKeyed(c: Candidate) {
    forall k :: k in c.hits ==> c.hits[k].seqNo == k
  }

  /** The `Run_Candidate` constructor: at `state`, holding only `h`, unconfirmed, with the given run ID. */
  function NewCandidate(state: nat, h: Hit, runId: nat): (c: Candidate)
    ensures c.state == state && c.hits == map[h.seqNo := h] && c.lastTs == h.ts
    ensures c.lastDumpedTs == BOGUS_TIMESTAMP && c.confTag == None && c.runId == runId
    ensures c.inARow == 0 && c.bi == 0.0
    ensures HitsKeyed(c) && |c.hits| == 1
  {
    Candidate(state, map[h.seqNo := h], h.ts, BOGUS_TIMESTAMP, None, runId, 0, 0.0)
  }

  /** `is_confirmed` */
  predicate IsConfirmed(c: Candidate) {
    c.confTag.Some?
  }

  /** `get_tag_id`: the confirmed tag's ID, or BOGUS_TAG_ID. */
  function TagIdOf(c: Candidate): int {
    if c.confTag.Some? then c.confTag.value.id else BOGUS_TAG_ID
  }

  /** `has_same_id_as`: both candidates are confirmed to the same tag, whose ID is not the bogus one. */
  function HasSameIdAs(c: Candidate, tf: Candidate): (r: bool)
    ensures r <==>
      IsConfirmed(c) && IsConfirmed(tf) && c.confTag.value.id == tf.confTag.value.id
      && c.confTag.value.id != BOGUS_TAG_ID
  {
    TagIdOf(c) != BOGUS_TAG_ID && TagIdOf(c) == TagIdOf(tf)
  }

  /** Whether `c` holds one of the first `n` hits (in `seq_no` order) of `tf`. */
  predicate SharesFirstHits(c: Candidate, tf: Candidate, n: nat) {
    exists k :: k in FirstN(tf.hits.Keys, n) && k in c.hits
  }

  /** `shares_any_hits` with `hits_to_confirm_id == n`: walk `tf`'s buffer in order, at most `n` steps. */
  method SharesAnyHits(c: Candidate, tf: Candidate, n: nat) returns (r: bool)
    ensures r == SharesFirstHits(c, tf, n)
  {
    var q := Ascending(tf.hits.Keys);
    var i := 0;
    while i < n && i < |q|
      invariant 0 <= i <= |q|
      invariant i <= n
      invariant forall j :: 0 <= j < i ==> q[j] !in c.hits
    {
      if q[i] in c.hits {
        assert FirstN(tf.hits.Keys, n)[i] == q[i];
        return true;
      }
      i := i + 1;
    }
    forall k | k in FirstN(tf.hits.Keys, n) ensures k !in c.hits {
      var j :| 0 <= j < Min(n, |q|) && q[j] == k;
    }
    return false;
  }

  /** A candidate with a non-empty buffer shares its own first hit with itself. */
  lemma SharesWithSelf(c: Candidate, n: nat)
    requires c.hits != map[] && n >= 1
    ensures SharesFirstHits(c, c, n)
  {
    AscendingSpec(c.hits.Keys);
    var q := Ascending(c.hits.Keys);
    assert q[0] in FirstN(c.hits.Keys, n);
  }

  /** `is_too_old_given_hit_time`: the gap since the last hit exceeds the state's `max_age`. */
  predicate TooOld(c: Candidate, h: Hit, nodes: seq<Node>)
    requires c.state < |nodes|
  {
    h.ts - c.lastTs > nodes[c.state].maxAge
  }

  /** `advance_by_hit`: the state the gap since the last hit leads to, if any edge holds it. */
  function AdvanceByHit(c: Candidate, h: Hit, nodes: seq<Node>): (r: Option<nat>)
    requires c.state < |nodes|
    ensures r.None? <==>
      forall k :: 0 <= k < |nodes[c.state].edges| ==> !Contains(nodes[c.state].edges[k].iv, h.ts - c.lastTs)
    ensures r.Some? ==>
      exists k :: 0 <= k < |nodes[c.state].edges| && Contains(nodes[c.state].edges[k].iv, h.ts - c.lastTs)
        && nodes[c.state].edges[k].val == r.value
  {
    Next(nodes[c.state], h.ts - c.lastTs)
  }

  /** A candidate in a dead state (no edges) is too old for any hit that is not earlier than its last one. */
  lemma DeadStateTooOld(c: Candidate, h: Hit, nodes: seq<Node>)
    requires c.state < |nodes| && MaxAgeAgrees(nodes[c.state]) && nodes[c.state].edges == []
    requires h.ts >= c.lastTs
    ensures TooOld(c, h, nodes)
  {
  }

  /** A candidate that can accept a hit is never too old for it. */
  lemma AcceptingNotTooOld(c: Candidate, h: Hit, nodes: seq<Node>)
    requires c.state < |nodes| && Sorted(nodes[c.state].edges) && MaxAgeAgrees(nodes[c.state])
    requires AdvanceByHit(c, h, nodes).Some?
    ensures !TooOld(c, h, nodes)
  {
    NextWithinMaxAge(nodes[c.state], h.ts - c.lastTs);
  }

  /** What `add_hit` needs: the new state stands for some tag, and that tag is registered if this hit confirms. */
  predicate CanAddHit(c: Candidate, h: Hit, next: nat, nodes: seq<Node>, tags: map<int, KnownTag>, n: nat) {
    && next < |nodes| && nodes[next].ids != {}
    && (c.confTag.None? && |c.hits[h.seqNo := h]| >= n ==> GetId(nodes[next]) in tags)
  }

  /**
   * `add_hit`: put `h` in the buffer, move to `next`, and confirm the tag
   * of the new state when the candidate was unconfirmed and now holds at
   * least `n` hits. The flag says whether this call confirmed it.
   */
  function AddHit(c: Candidate, h: Hit, next: nat, nodes: seq<Node>, tags: map<int, KnownTag>, n: nat): (r: (bool, Candidate))
    requires CanAddHit(c, h, next, nodes, tags, n)
    ensures r.1.hits == c.hits[h.seqNo := h] && r.1.lastTs == h.ts && r.1.state == next
    ensures r.1.lastDumpedTs == c.lastDumpedTs && r.1.runId == c.runId && r.1.inARow == c.inARow
    ensures r.0 <==> !IsConfirmed(c) && |r.1.hits| >= n
    ensures r.0 ==> r.1.confTag == Some(tags[GetId(nodes[next])]) && r.1.bi == tags[GetId(nodes[next])].bi
    ensures !r.0 ==> r.1.confTag == c.confTag && r.1.bi == c.bi
  {
    var c1 := c.(hits := c.hits[h.seqNo := h], lastTs := h.ts, state := next);
    if c.confTag.None? && |c1.hits| >= n then
      var t := tags[GetId(nodes[next])];
      (true, c1.(confTag := Some(t), bi := t.bi))
    else
      (false, c1)
  }

  /** Confirmation is permanent: a confirmed candidate keeps its tag and is never confirmed again. */
  lemma ConfirmationPermanent(c: Candidate, h: Hit, next: nat, nodes: seq<Node>, tags: map<int, KnownTag>, n: nat)
    requires CanAddHit(c, h, next, nodes, tags, n) && IsConfirmed(c)
    ensures !AddHit(c, h, next, nodes, tags, n).0
    ensures AddHit(c, h, next, nodes, tags, n).1.confTag == c.confTag
  {
  }

  /** A confirmation names the tag of the state reached (the least ID of its set). */
  lemma ConfirmedToStateTag(c: Candidate, h: Hit, next: nat, nodes: seq<Node>, tags: map<int, KnownTag>, n: nat)
    requires CanAddHit(c, h, next, nodes, tags, n) && TagsOk(tags)
    requires AddHit(c, h, next, nodes, tags, n).0
    ensures TagIdOf(AddHit(c, h, next, nodes, tags, n).1) == GetId(nodes[next])
    ensures GetId(nodes[next]) in nodes[next].ids
  {
  }

  /** Adding a hit keeps the buffer keyed by sequence number. */
  lemma AddHitKeyed(c: Candidate, h: Hit, next: nat, nodes: seq<Node>, tags: map<int, KnownTag>, n: nat)
    requires CanAddHit(c, h, next, nodes, tags, n) && HitsKeyed(c)
    ensures HitsKeyed(AddHit(c, h, next, nodes, tags, n).1)
  {
  }

  /**
   * A clone taken before `add_hit` is a rival of the candidate it was taken
   * from: when every buffered hit is older than the new one, the clone holds
   * the first hit of the extended buffer.
   */
  lemma CloneSharesHits(c: Candidate, h: Hit, next: nat, nodes: seq<Node>, tags: map<int, KnownTag>, n: nat)
    requires CanAddHit(c, h, next, nodes, tags, n)
    requires c.hits != map[] && n >= 1
    requires forall k :: k in c.hits ==> k < h.seqNo
    ensures SharesFirstHits(c, AddHit(c, h, next, nodes, tags, n).1, n)
  {
    var c1 := AddHit(c, h, next, nodes, tags, n).1;
    var m := Least(c.hits.Keys);
    assert c1.hits.Keys == c.hits.Keys + {h.seqNo};
    assert Least(c1.hits.Keys) == m;
    AscendingHead(c1.hits.Keys);
    assert FirstN(c1.hits.Keys, n)[0] == m;
  }

  /** `clear_hits`: empty the buffer and nothing else. */
  function ClearHits(c: Candidate): (r: Candidate)
    ensures r.hits == map[]
    ensures r == c.(hits := map[])
  {
    c.(hits := map[])
  }

  /** A candidate with an empty buffer is nobody's rival by shared hits. */
  lemma ClearedSharesNothing(c: Candidate, tf: Candidate, n: nat)
    ensures !SharesFirstHits(ClearHits(c), tf, n)
  {
  }

  /** C's `round`: to the nearest integer, halves away from zero. */
  function Round(x: real): (r: int)
    ensures x - 0.5 <= r as real <= x + 0.5
    ensures x >= 0.0 ==> r >= 0
    ensures x <= 0.0 ==> r <= 0
  {
    if x >= 0.0 then (x + 0.5).Floor else -((-x + 0.5).Floor)
  }

  function Abs(x: real): real { if x < 0.0 then -x else x }

  /**
   * The burst slop of a gap: how far it is from the nearest whole number of
   * burst intervals. With a zero burst interval the model keeps the gap.
   */
  function BurstSlop(gap: real, bi: real): (r: real)
    ensures bi != 0.0 ==> -Abs(bi) / 2.0 <= r <= Abs(bi) / 2.0
  {
    if bi == 0.0 then gap
    else
      var x := gap / bi;
      var k := Round(x);
      SlopBound(gap, bi, x, k);
      gap - k as real * bi
  }

  lemma SlopBound(gap: real, bi: real, x: real, k: int)
    requires bi != 0.0 && x == gap / bi && x - 0.5 <= k as real <= x + 0.5
    ensures -Abs(bi) / 2.0 <= gap - k as real * bi <= Abs(bi) / 2.0
  {
    var d := x - k as real;
    assert gap == x * bi;
    assert gap - k as real * bi == d * bi;
    assert -0.5 <= d <= 0.5;
    if bi > 0.0 {
      assert -0.5 * bi <= d * bi <= 0.5 * bi;
    } else {
      assert 0.5 * bi <= d * bi <= -0.5 * bi;
    }
  }

  /** Whole burst intervals have no slop. */
  lemma WholeIntervalsNoSlop(k: int, bi: real)
    requires bi != 0.0
    ensures BurstSlop(k as real * bi, bi) == 0.0
  {
    var x := k as real * bi / bi;
    assert x == k as real;
    assert Round(x) == k;
  }

  /** The burst slop of a hit at `ts`, given the timestamp of the last dumped hit. */
  function SlopFor(lastDumped: real, ts: real, bi: real): real {
    if lastDumped != BOGUS_TIMESTAMP then BurstSlop(ts - lastDumped, bi) else BOGUS_BURST_SLOP
  }

  /** The buffered hits in `seq_no` order: the iteration order of the `std::map` buffer. */
  function InOrder(hits: map<int, Hit>): (r: seq<Hit>)
    ensures |r| == |hits|
    ensures forall j :: 0 <= j < |r| ==> r[j] == hits[Ascending(hits.Keys)[j]]
  {
    var q := Ascending(hits.Keys);
    seq(|q|, j requires 0 <= j < |q| => hits[q[j]])
  }

  /** The records `dump_hits` writes for the hits `hs`, given the last dumped timestamp and position. */
  function Emitted(hs: seq<Hit>, lastDumped: real, pos: nat, runId: nat, tagId: int, bi: real): seq<Record>
    decreases |hs|
  {
    if hs == [] then []
    else
      [Record(runId, tagId, pos + 1, hs[0], SlopFor(lastDumped, hs[0].ts, bi))]
      + Emitted(hs[1..], hs[0].ts, pos + 1, runId, tagId, bi)
  }

  /**
   * Record by record: the `j`-th emitted record carries the `j`-th hit, the
   * next position in the run, and its slop against the hit before it (or
   * against the last dumped one, for the first).
   */
  lemma {:induction false} EmittedSpec(hs: seq<Hit>, lastDumped: real, pos: nat, runId: nat, tagId: int, bi: real)
    ensures |Emitted(hs, lastDumped, pos, runId, tagId, bi)| == |hs|
    ensures forall j :: 0 <= j < |hs| ==>
      Emitted(hs, lastDumped, pos, runId, tagId, bi)[j] ==
        Record(runId, tagId, pos + j + 1, hs[j], SlopFor(if j == 0 then lastDumped else hs[j - 1].ts, hs[j].ts, bi))
    decreases |hs|
  {
    if hs != [] {
      var rest := Emitted(hs[1..], hs[0].ts, pos + 1, runId, tagId, bi);
      EmittedSpec(hs[1..], hs[0].ts, pos + 1, runId, tagId, bi);
      var r := Emitted(hs, lastDumped, pos, runId, tagId, bi);
      assert r == [Record(runId, tagId, pos + 1, hs[0], SlopFor(lastDumped, hs[0].ts, bi))] + rest;
      forall j | 1 <= j < |hs|
        ensures r[j] == Record(runId, tagId, pos + j + 1, hs[j], SlopFor(hs[j - 1].ts, hs[j].ts, bi))
      {
        assert r[j] == rest[j - 1];
        assert hs[1..][j - 1] == hs[j];
        if j > 1 {
          assert hs[1..][j - 2] == hs[j - 1];
        }
      }
    }
  }

  lemma EmittedAppend(hs: seq<Hit>, x: Hit, lastDumped: real, pos: nat, runId: nat, tagId: int, bi: real)
    ensures Emitted(hs + [x], lastDumped, pos, runId, tagId, bi) ==
      Emitted(hs, lastDumped, pos, runId, tagId, bi)
      + [Record(runId, tagId, pos + |hs| + 1, x, SlopFor(if hs == [] then lastDumped else hs[|hs| - 1].ts, x.ts, bi))]
  {
    var a := Emitted(hs + [x], lastDumped, pos, runId, tagId, bi);
    var b := Emitted(hs, lastDumped, pos, runId, tagId, bi);
    var e := Record(runId, tagId, pos + |hs| + 1, x, SlopFor(if hs == [] then lastDumped else hs[|hs| - 1].ts, x.ts, bi));
    EmittedSpec(hs + [x], lastDumped, pos, runId, tagId, bi);
    EmittedSpec(hs, lastDumped, pos, runId, tagId, bi);
    forall j | 0 <= j < |a| ensures a[j] == (b + [e])[j] {
      if j < |hs| {
        assert (hs + [x])[j] == hs[j];
        if j > 0 {
          assert (hs + [x])[j - 1] == hs[j - 1];
        }
      } else if j > 0 {
        assert (hs + [x])[j - 1] == hs[j - 1];
      }
    }
    assert a == b + [e];
  }

  /**
   * What `dump_hits` does to a confirmed candidate: the records for its
   * buffered hits in order, a run position advanced past them, the last
   * dumped timestamp moved to the last of them, and an empty buffer.
   */
  function Dump(c: Candidate): (r: (Candidate, seq<Record>))
    requires IsConfirmed(c)
  {
    var hs := InOrder(c.hits);
    (c.(hits := map[], inARow := c.inARow + |hs|,
        lastDumpedTs := if hs == [] then c.lastDumpedTs else hs[|hs| - 1].ts),
     Emitted(hs, c.lastDumpedTs, c.inARow, c.runId, c.confTag.value.id, c.bi))
  }

  /** `dump_hits`, one buffered hit per turn of the loop, in `seq_no` order. */
  method DumpHits(c: Candidate) returns (c1: Candidate, recs: seq<Record>)
    requires IsConfirmed(c)
    ensures (c1, recs) == Dump(c)
  {
    var hs := InOrder(c.hits);
    var tagId := c.confTag.value.id;
    var i := 0;
    var last := c.lastDumpedTs;
    var pos := c.inARow;
    recs := [];
    while i < |hs|
      invariant 0 <= i <= |hs|
      invariant pos == c.inARow + i
      invariant last == if i == 0 then c.lastDumpedTs else hs[i - 1].ts
      invariant recs == Emitted(hs[..i], c.lastDumpedTs, c.inARow, c.runId, tagId, c.bi)
    {
      var bs := if last != BOGUS_TIMESTAMP then BurstSlop(hs[i].ts - last, c.bi) else BOGUS_BURST_SLOP;
      EmittedAppend(hs[..i], hs[i], c.lastDumpedTs, c.inARow, c.runId, tagId, c.bi);
      assert hs[..i + 1] == hs[..i] + [hs[i]];
      pos := pos + 1;
      recs := recs + [Record(c.runId, tagId, pos, hs[i], bs)];
      last := hs[i].ts;
      i := i + 1;
    }
    assert hs[..i] == hs;
    c1 := c.(hits := map[], inARow := pos, lastDumpedTs := last);
  }

  /**
   * The dump writes one record per buffered hit, in the buffer's order, at
   * the positions following the run's previous ones, under the run's ID and
   * its confirmed tag's ID.
   */
  lemma DumpRecords(c: Candidate)
    requires IsConfirmed(c)
    ensures |Dump(c).1| == |c.hits|
    ensures forall j :: 0 <= j < |Dump(c).1| ==>
      Dump(c).1[j].hit == c.hits[Ascending(c.hits.Keys)[j]]
      && Dump(c).1[j].posInRun == c.inARow + j + 1 && Dump(c).1[j].runId == c.runId
      && Dump(c).1[j].tagId == c.confTag.value.id
  {
    var hs := InOrder(c.hits);
    var recs := Dump(c).1;
    assert recs == Emitted(hs, c.lastDumpedTs, c.inARow, c.runId, c.confTag.value.id, c.bi);
    EmittedSpec(hs, c.lastDumpedTs, c.inARow, c.runId, c.confTag.value.id, c.bi);
    forall j | 0 <= j < |recs|
      ensures recs[j].hit == c.hits[Ascending(c.hits.Keys)[j]]
      ensures recs[j].posInRun == c.inARow + j + 1
      ensures recs[j].runId == c.runId && recs[j].tagId == c.confTag.value.id
    {
      assert |recs| == |hs|;
      assert recs[j] == Record(c.runId, c.confTag.value.id, c.inARow + j + 1, hs[j],
        SlopFor(if j == 0 then c.lastDumpedTs else hs[j - 1].ts, hs[j].ts, c.bi));
    }
  }

  /**
   * When the buffer is keyed by sequence number, the dump writes every
   * buffered hit exactly once, in strictly increasing `seq_no` order.
   */
  lemma DumpInOrder(c: Candidate)
    requires IsConfirmed(c) && HitsKeyed(c)
    ensures var recs := Dump(c).1;
      && (forall j :: 0 <= j < |recs| ==> recs[j].hit.seqNo in c.hits && c.hits[recs[j].hit.seqNo] == recs[j].hit)
      && (forall k :: k in c.hits ==> exists j :: 0 <= j < |recs| && recs[j].hit.seqNo == k)
      && (forall i, j :: 0 <= i < j < |recs| ==> recs[i].hit.seqNo < recs[j].hit.seqNo)
  {
    var recs := Dump(c).1;
    var q := Ascending(c.hits.Keys);
    AscendingSpec(c.hits.Keys);
    DumpRecords(c);
    assert forall j :: 0 <= j < |recs| ==> recs[j].hit.seqNo == q[j];
    forall k | k in c.hits ensures exists j :: 0 <= j < |recs| && recs[j].hit.seqNo == k {
      var j :| 0 <= j < |q| && q[j] == k;
      assert recs[j].hit.seqNo == k;
    }
  }

  /**
   * Burst slops: the first dumped burst of a run reports BOGUS_BURST_SLOP;
   * every later one its distance from a whole number of burst intervals
   * after the burst dumped before it.
   */
  lemma DumpSlops(c: Candidate)
    requires IsConfirmed(c)
    ensures var recs := Dump(c).1;
      && (c.lastDumpedTs == BOGUS_TIMESTAMP && |recs| > 0 ==> recs[0].burstSlop == BOGUS_BURST_SLOP)
      && (c.lastDumpedTs != BOGUS_TIMESTAMP && |recs| > 0 ==>
            recs[0].burstSlop == BurstSlop(recs[0].hit.ts - c.lastDumpedTs, c.bi))
      && (forall j :: 0 < j < |recs| && recs[j - 1].hit.ts != BOGUS_TIMESTAMP ==>
            recs[j].burstSlop == BurstSlop(recs[j].hit.ts - recs[j - 1].hit.ts, c.bi))
  {
    var hs := InOrder(c.hits);
    var recs := Dump(c).1;
    assert recs == Emitted(hs, c.lastDumpedTs, c.inARow, c.runId, c.confTag.value.id, c.bi);
    EmittedSpec(hs, c.lastDumpedTs, c.inARow, c.runId, c.confTag.value.id, c.bi);
    forall j | 0 < j < |recs| && recs[j - 1].hit.ts != BOGUS_TIMESTAMP
      ensures recs[j].burstSlop == BurstSlop(recs[j].hit.ts - recs[j - 1].hit.ts, c.bi)
    {
      assert |recs| == |hs|;
      assert recs[j - 1] == Record(c.runId, c.confTag.value.id, c.inARow + (j - 1) + 1, hs[j - 1],
        SlopFor(if j - 1 == 0 then c.lastDumpedTs else hs[j - 2].ts, hs[j - 1].ts, c.bi));
      assert recs[j] == Record(c.runId, c.confTag.value.id, c.inARow + j + 1, hs[j],
        SlopFor(hs[j - 1].ts, hs[j].ts, c.bi));
    }
  }

  /** After a dump the buffer is empty, so dumping again writes nothing and changes nothing. */
  lemma DumpEmpties(c: Candidate)
    requires IsConfirmed(c)
    ensures Dump(c).0.hits == map[] && IsConfirmed(Dump(c).0)
    ensures Dump(Dump(c).0).1 == [] && Dump(Dump(c).0).0 == Dump(c).0
    ensures Dump(c).0.inARow == c.inARow + |c.hits|
  {
    var d := Dump(c).0;
    assert InOrder(d.hits) == [];
  }
}
