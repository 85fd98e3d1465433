/**
 * The work `Run_Finder` does on the candidate list of one Lotek ID: the
 * purge of a confirmed candidate's rivals, the scan of the list for one hit
 * (`process`), and the final flush (`end_processing`). Each is an in-place
 * walk over the list, erasing as it goes; here the list is a sequence, an
 * iterator is an index into it, and each walk is a method proved equal to a
 * recursive function that says what the walk computes.
 */
module RunScans {
  import opened Common
  import opened Hits
  import opened IntervalMaps
  import opened DfaNodes
  import opened DfaGraphs
  import opened RunCandidates

  /** What candidates need of their graph: the node arena, the tag table, and `hits_to_confirm_id`. */
  datatype Dfa = Dfa(nodes: seq<Node>, tags: map<int, KnownTag>, n: nat)

  /** Well-formed nodes, each standing only for registered tags. */
  ghost predicate DfaOk(d: Dfa) {
    && NodesOk(d.nodes)
    && forall h :: 0 <= h < |d.nodes| ==> d.nodes[h].ids <= d.tags.Keys
  }

  /** Every candidate's state is a node of the arena. */
  predicate AllFit(cs: seq<Candidate>, d: Dfa) {
    forall i :: 0 <= i < |cs| ==> cs[i].state < |d.nodes|
  }

  /** Where a candidate accepts a hit, `add_hit` can be applied with the state reached. */
  lemma AdvanceFits(d: Dfa, c: Candidate, h: Hit)
    requires DfaOk(d) && c.state < |d.nodes| && AdvanceByHit(c, h, d.nodes).Some?
    ensures CanAddHit(c, h, AdvanceByHit(c, h, d.nodes).value, d.nodes, d.tags, d.n)
  {
    assert NodeOk(d.nodes[c.state], d.nodes);
    var next := AdvanceByHit(c, h, d.nodes).value;
    assert next < |d.nodes| && d.nodes[next].ids != {};
    assert d.nodes[next].ids <= d.tags.Keys;
  }

  // ---------------------------------------------------------------- purge

  /** `x` must give way to the newly confirmed `c`: same confirmed ID, or it holds one of `c`'s first `n` hits. */
  predicate Rival(x: Candidate, c: Candidate, n: nat) {
    HasSameIdAs(x, c) || SharesFirstHits(x, c, n)
  }

  /** The first `j` candidates of `cs` that survive the purge on behalf of `cs[i]`. */
  function PurgeUpTo(cs: seq<Candidate>, i: nat, j: nat, n: nat): (r: seq<Candidate>)
    requires i < |cs| && j <= |cs|
    ensures |r| <= j
    decreases j
  {
    if j == 0 then []
    else PurgeUpTo(cs, i, j - 1, n) + (if j - 1 == i || !Rival(cs[j - 1], cs[i], n) then [cs[j - 1]] else [])
  }

  /** The list after the rivals of `cs[i]` are erased. */
  function Purge(cs: seq<Candidate>, i: nat, n: nat): seq<Candidate>
    requires i < |cs|
  {
    PurgeUpTo(cs, i, |cs|, n)
  }

  /** Where `cs[i]` stands once its rivals are erased. */
  function Position(cs: seq<Candidate>, i: nat, n: nat): nat
    requires i < |cs|
  {
    |PurgeUpTo(cs, i, i, n)|
  }

  /** Past `i`, the purged prefix holds the purged part before `i`, then `cs[i]`, then at most the rest. */
  lemma {:induction false} PurgeFrom(cs: seq<Candidate>, i: nat, j: nat, n: nat)
    requires i < j <= |cs|
    ensures var p := PurgeUpTo(cs, i, i, n); var r := PurgeUpTo(cs, i, j, n);
      |p| < |r| && r[..|p|] == p && r[|p|] == cs[i] && |r| - |p| <= j - i
    decreases j
  {
    if j > i + 1 {
      PurgeFrom(cs, i, j - 1, n);
      var p := PurgeUpTo(cs, i, i, n);
      var r0 := PurgeUpTo(cs, i, j - 1, n);
      var r := PurgeUpTo(cs, i, j, n);
      assert r[..|r0|] == r0;
      assert r[..|p|] == r0[..|p|];
    }
  }

  /** The purge keeps `cs[i]`, at `Position`, and keeps no more than it had after `i`. */
  lemma PurgeKeeps(cs: seq<Candidate>, i: nat, n: nat)
    requires i < |cs|
    ensures Position(cs, i, n) < |Purge(cs, i, n)| && Purge(cs, i, n)[Position(cs, i, n)] == cs[i]
    ensures |Purge(cs, i, n)| - Position(cs, i, n) <= |cs| - i
  {
    PurgeFrom(cs, i, |cs|, n);
  }

  /** `has_same_id_as(c) || shares_any_hits(c)`, evaluated left to right. */
  method IsRival(x: Candidate, c: Candidate, n: nat) returns (r: bool)
    ensures r == Rival(x, c, n)
  {
    r := HasSameIdAs(x, c);
    if !r {
      r := SharesAnyHits(x, c, n);
    }
  }

  /** Every survivor of the purge but `cs[i]` itself is no rival of `cs[i]`. */
  lemma {:induction false} PurgeNoRivals(cs: seq<Candidate>, i: nat, j: nat, n: nat)
    requires i < |cs| && j <= |cs|
    ensures forall p :: 0 <= p < |PurgeUpTo(cs, i, j, n)| && (j <= i || p != Position(cs, i, n)) ==>
      !Rival(PurgeUpTo(cs, i, j, n)[p], cs[i], n)
    decreases j
  {
    if j > 0 {
      PurgeNoRivals(cs, i, j - 1, n);
      var r0 := PurgeUpTo(cs, i, j - 1, n);
      var r := PurgeUpTo(cs, i, j, n);
      if j - 1 > i {
        PurgeFrom(cs, i, j - 1, n);
      }
      forall p | 0 <= p < |r| && (j <= i || p != Position(cs, i, n)) ensures !Rival(r[p], cs[i], n) {
        if p < |r0| {
          assert r[p] == r0[p];
          assert j - 1 <= i || p != Position(cs, i, n);
          assert !Rival(r0[p], cs[i], n);
        } else {
          if j - 1 == i {
            assert false;
          }
          assert r == r0 + [cs[j - 1]];
        }
      }
    }
  }

  /** Every survivor of the purge comes from the list. */
  lemma {:induction false} PurgeFromList(cs: seq<Candidate>, i: nat, j: nat, n: nat)
    requires i < |cs| && j <= |cs|
    ensures forall x :: x in PurgeUpTo(cs, i, j, n) ==> x in cs
    decreases j
  {
    if j > 0 {
      PurgeFromList(cs, i, j - 1, n);
      var r0 := PurgeUpTo(cs, i, j - 1, n);
      var r := PurgeUpTo(cs, i, j, n);
      forall x | x in r ensures x in cs {
        if x !in r0 {
          assert x == cs[j - 1];
        }
      }
    }
  }

  /** Every candidate that is no rival of `cs[i]`, and `cs[i]` itself, survives the purge. */
  lemma {:induction false} PurgeKeepsOthers(cs: seq<Candidate>, i: nat, j: nat, n: nat)
    requires i < |cs| && j <= |cs|
    ensures var r := PurgeUpTo(cs, i, j, n);
      forall k :: 0 <= k < j && (k == i || !Rival(cs[k], cs[i], n)) ==> cs[k] in r
    decreases j
  {
    if j > 0 {
      PurgeKeepsOthers(cs, i, j - 1, n);
      var r0 := PurgeUpTo(cs, i, j - 1, n);
      var r := PurgeUpTo(cs, i, j, n);
      forall k | 0 <= k < j && (k == i || !Rival(cs[k], cs[i], n)) ensures cs[k] in r {
        if k < j - 1 {
          assert cs[k] in r0;
        } else {
          assert r[|r| - 1] == cs[k];
        }
      }
    }
  }

  /**
   * The purge erases exactly the rivals: every survivor but `cs[i]` itself
   * is no rival of it, every survivor comes from the list, and every
   * candidate that is no rival survives.
   */
  lemma PurgeSpec(cs: seq<Candidate>, i: nat, n: nat)
    requires i < |cs|
    ensures var r := Purge(cs, i, n);
      && (forall p :: 0 <= p < |r| && p != Position(cs, i, n) ==> !Rival(r[p], cs[i], n))
      && (forall p :: 0 <= p < |r| ==> r[p] in cs)
      && (forall k :: 0 <= k < |cs| && !Rival(cs[k], cs[i], n) ==> cs[k] in r)
  {
    PurgeNoRivals(cs, i, |cs|, n);
    PurgeFromList(cs, i, |cs|, n);
    PurgeKeepsOthers(cs, i, |cs|, n);
  }

  /**
   * The invariant of the purge loop: `k` candidates of the original list
   * `cs` have been looked at, the survivors among them fill `kept[..j]`,
   * the rest of the list is untouched, and `at` is where `cs[i]` stands.
   */
  ghost predicate PurgeInv(cs: seq<Candidate>, i: nat, n: nat, k: nat, kept: seq<Candidate>, j: nat, at: nat) {
    && i < |cs| && k <= |cs|
    && kept == PurgeUpTo(cs, i, k, n) + cs[k..] && j == |PurgeUpTo(cs, i, k, n)|
    && (k <= i ==> at == j + (i - k))
    && (k > i ==> at == Position(cs, i, n) && at < j)
    && at < |kept| && kept[at] == cs[i]
  }

  /** A turn of the purge loop that erases the rival `kept[j]` keeps the invariant. */
  lemma PurgeErase(cs: seq<Candidate>, i: nat, n: nat, k: nat, kept: seq<Candidate>, j: nat, at: nat)
    requires PurgeInv(cs, i, n, k, kept, j, at) && j < |kept|
    requires j != at && Rival(kept[j], kept[at], n)
    ensures PurgeInv(cs, i, n, k + 1, kept[..j] + kept[j + 1..], j, if j < at then at - 1 else at)
  {
    assert cs[k..] == [cs[k]] + cs[k + 1..];
    if k > i {
      PurgeFrom(cs, i, k, n);
    }
  }

  /** A turn of the purge loop that steps past `kept[j]` keeps the invariant. */
  lemma PurgeSkip(cs: seq<Candidate>, i: nat, n: nat, k: nat, kept: seq<Candidate>, j: nat, at: nat)
    requires PurgeInv(cs, i, n, k, kept, j, at) && j < |kept|
    requires !(j != at && Rival(kept[j], kept[at], n))
    ensures PurgeInv(cs, i, n, k + 1, kept, j + 1, at)
  {
    assert cs[k..] == [cs[k]] + cs[k + 1..];
    if k > i {
      PurgeFrom(cs, i, k, n);
    }
    if k + 1 > i {
      PurgeFrom(cs, i, k + 1, n);
    }
  }

  /**
   * The purge loop of `process` and `end_processing`: walk the list with a
   * second iterator and erase every other candidate that is a rival of the
   * one at `i`. Also returns where that candidate ends up.
   */
  method PurgeRivals(cs: seq<Candidate>, i: nat, n: nat) returns (kept: seq<Candidate>, at: nat)
    requires i < |cs|
    ensures kept == Purge(cs, i, n) && at == Position(cs, i, n)
    ensures at < |kept| && kept[at] == cs[i]
  {
    kept := cs;
    at := i;
    var j := 0;
    ghost var k := 0;
    while j < |kept|
      invariant PurgeInv(cs, i, n, k, kept, j, at) == true
      decreases |kept| - j
    {
      var rival := IsRival(kept[j], kept[at], n);
      if j != at && rival {
        PurgeErase(cs, i, n, k, kept, j, at);
        kept := kept[..j] + kept[j + 1..];
        at := if j < at then at - 1 else at;
      } else {
        PurgeSkip(cs, i, n, k, kept, j, at);
        j := j + 1;
      }
      k := k + 1;
    }
    assert PurgeInv(cs, i, n, k, kept, j, at);
    assert k == |cs|;
  }

  // ---------------------------------------------------------------- process

  /** The list after a scan, the clones to append, the records written, and whether the hit confirmed a candidate. */
  datatype ScanResult = ScanResult(kept: seq<Candidate>, clones: seq<Candidate>, out: seq<Record>, confirmed: bool)

  /**
   * The candidate loop of `process` for hit `h`: `done` have been passed,
   * `rest` are still to come, `clones` and `out` are what has been collected.
   * A candidate too old for `h` is erased, after being dumped if confirmed.
   * One that cannot take `h` is passed over. One that can is cloned first
   * when unconfirmed, then takes the hit; if that confirms it, its rivals in
   * the whole list are erased, it is dumped, and the scan stops.
   */
  function Scan(d: Dfa, h: Hit, done: seq<Candidate>, rest: seq<Candidate>, clones: seq<Candidate>, out: seq<Record>): ScanResult
    requires DfaOk(d) && AllFit(rest, d)
    decreases |rest|
  {
    if rest == [] then ScanResult(done, clones, out, false)
    else
      var c := rest[0];
      if TooOld(c, h, d.nodes) then
        Scan(d, h, done, rest[1..], clones, if IsConfirmed(c) then out + Dump(c).1 else out)
      else
        var next := AdvanceByHit(c, h, d.nodes);
        if next.None? then Scan(d, h, done + [c], rest[1..], clones, out)
        else
          AdvanceFits(d, c, h);
          var clones1 := if IsConfirmed(c) then clones else clones + [c];
          var a := AddHit(c, h, next.value, d.nodes, d.tags, d.n);
          if !a.0 then Scan(d, h, done + [a.1], rest[1..], clones1, out)
          else
            var cs := done + [a.1] + rest[1..];
            PurgeKeeps(cs, |done|, d.n);
            var kept := Purge(cs, |done|, d.n);
            var at := Position(cs, |done|, d.n);
            var dumped := Dump(kept[at]);
            ScanResult(kept[at := dumped.0], clones1, out + dumped.1, true)
  }

  /** The invariant of the `process` loop: scanning on from index `i` of `cs` yields `target`. */
  ghost predicate ScanInv(d: Dfa, h: Hit, target: ScanResult, cs: seq<Candidate>, i: nat, cloned: seq<Candidate>, o: seq<Record>) {
    && DfaOk(d) && i <= |cs| && AllFit(cs[i..], d)
    && Scan(d, h, cs[..i], cs[i..], cloned, o) == target
  }

  lemma ScanDropOld(d: Dfa, h: Hit, target: ScanResult, cs: seq<Candidate>, i: nat, cloned: seq<Candidate>, o: seq<Record>)
    requires ScanInv(d, h, target, cs, i, cloned, o) && i < |cs| && TooOld(cs[i], h, d.nodes)
    ensures ScanInv(d, h, target, cs[..i] + cs[i + 1..], i, cloned, if IsConfirmed(cs[i]) then o + Dump(cs[i]).1 else o)
  {
    var cs1 := cs[..i] + cs[i + 1..];
    assert cs1[..i] == cs[..i] && cs1[i..] == cs[i..][1..];
  }

  lemma ScanPass(d: Dfa, h: Hit, target: ScanResult, cs: seq<Candidate>, i: nat, cloned: seq<Candidate>, o: seq<Record>)
    requires ScanInv(d, h, target, cs, i, cloned, o) && i < |cs| && !TooOld(cs[i], h, d.nodes)
    requires AdvanceByHit(cs[i], h, d.nodes).None?
    ensures ScanInv(d, h, target, cs, i + 1, cloned, o)
  {
    assert cs[..i + 1] == cs[..i] + [cs[i]] && cs[i + 1..] == cs[i..][1..];
  }

  lemma ScanAccept(d: Dfa, h: Hit, target: ScanResult, cs: seq<Candidate>, i: nat, cloned: seq<Candidate>, o: seq<Record>)
    requires ScanInv(d, h, target, cs, i, cloned, o) && i < |cs| && !TooOld(cs[i], h, d.nodes)
    requires AdvanceByHit(cs[i], h, d.nodes).Some?
    ensures CanAddHit(cs[i], h, AdvanceByHit(cs[i], h, d.nodes).value, d.nodes, d.tags, d.n)
    ensures var a := AddHit(cs[i], h, AdvanceByHit(cs[i], h, d.nodes).value, d.nodes, d.tags, d.n);
      !a.0 ==> ScanInv(d, h, target, cs[i := a.1], i + 1,
                       if IsConfirmed(cs[i]) then cloned else cloned + [cs[i]], o)
  {
    AdvanceFits(d, cs[i], h);
    var a := AddHit(cs[i], h, AdvanceByHit(cs[i], h, d.nodes).value, d.nodes, d.tags, d.n);
    var cs1 := cs[i := a.1];
    assert cs1[..i + 1] == cs[..i] + [a.1] && cs1[i + 1..] == cs[i..][1..];
    assert a.1.state < |d.nodes|;
  }

  lemma ScanConfirm(d: Dfa, h: Hit, target: ScanResult, cs: seq<Candidate>, i: nat, cloned: seq<Candidate>, o: seq<Record>)
    requires ScanInv(d, h, target, cs, i, cloned, o) && i < |cs| && !TooOld(cs[i], h, d.nodes)
    requires AdvanceByHit(cs[i], h, d.nodes).Some?
    requires CanAddHit(cs[i], h, AdvanceByHit(cs[i], h, d.nodes).value, d.nodes, d.tags, d.n)
    requires AddHit(cs[i], h, AdvanceByHit(cs[i], h, d.nodes).value, d.nodes, d.tags, d.n).0
    ensures var a := AddHit(cs[i], h, AdvanceByHit(cs[i], h, d.nodes).value, d.nodes, d.tags, d.n);
      var cs1 := cs[i := a.1];
      var kept := Purge(cs1, i, d.n);
      var at := Position(cs1, i, d.n);
      && at < |kept| && kept[at] == a.1 && IsConfirmed(kept[at])
      && target == ScanResult(kept[at := Dump(kept[at]).0],
                              if IsConfirmed(cs[i]) then cloned else cloned + [cs[i]],
                              o + Dump(kept[at]).1, true)
  {
    var a := AddHit(cs[i], h, AdvanceByHit(cs[i], h, d.nodes).value, d.nodes, d.tags, d.n);
    var cs1 := cs[i := a.1];
    assert cs1 == cs[..i] + [a.1] + cs[i..][1..];
    PurgeKeeps(cs1, i, d.n);
  }

  /** The candidate loop of `process`, on the list of the hit's Lotek ID. */
  method ScanCandidates(d: Dfa, h: Hit, cs0: seq<Candidate>)
    returns (cs: seq<Candidate>, cloned: seq<Candidate>, o: seq<Record>, confirmed: bool)
    requires DfaOk(d) && AllFit(cs0, d)
    ensures Scan(d, h, [], cs0, [], []) == ScanResult(cs, cloned, o, confirmed)
  {
    ghost var target := Scan(d, h, [], cs0, [], []);
    cs, cloned, o, confirmed := cs0, [], [], false;
    var i := 0;
    assert cs[..0] == [] && cs[0..] == cs0;
    while i < |cs|
      invariant ScanInv(d, h, target, cs, i, cloned, o) == true
      decreases |cs| - i
    {
      if TooOld(cs[i], h, d.nodes) {
        ScanDropOld(d, h, target, cs, i, cloned, o);
        if IsConfirmed(cs[i]) {
          var _, recs := DumpHits(cs[i]);
          o := o + recs;
        }
        cs := cs[..i] + cs[i + 1..];
      } else {
        var next := AdvanceByHit(cs[i], h, d.nodes);
        if next.None? {
          ScanPass(d, h, target, cs, i, cloned, o);
          i := i + 1;
        } else {
          ScanAccept(d, h, target, cs, i, cloned, o);
          var a := AddHit(cs[i], h, next.value, d.nodes, d.tags, d.n);
          if a.0 {
            ScanConfirm(d, h, target, cs, i, cloned, o);
            cloned := if IsConfirmed(cs[i]) then cloned else cloned + [cs[i]];
            var kept, at := PurgeRivals(cs[i := a.1], i, d.n);
            var c1, recs := DumpHits(kept[at]);
            cs, o, confirmed := kept[at := c1], o + recs, true;
            break;
          }
          cloned := if IsConfirmed(cs[i]) then cloned else cloned + [cs[i]];
          cs := cs[i := a.1];
          i := i + 1;
        }
      }
    }
    if !confirmed {
      assert cs[..i] == cs && cs[i..] == [];
    }
  }

  // ---------------------------------------------------------------- what a scan does

  /** `c` is not too old for `h` and its state has an edge for the gap to `h`. */
  predicate Accepts(d: Dfa, h: Hit, c: Candidate)
    requires c.state < |d.nodes|
  {
    !TooOld(c, h, d.nodes) && AdvanceByHit(c, h, d.nodes).Some?
  }

  /** `add_hit` applied to a candidate that accepts `h`: whether it confirmed, and the candidate after. */
  function Accepted(d: Dfa, h: Hit, c: Candidate): (r: (bool, Candidate))
    requires DfaOk(d) && c.state < |d.nodes| && Accepts(d, h, c)
    ensures r.1.state < |d.nodes| && r.1.runId == c.runId
    ensures r.0 <==> !IsConfirmed(c) && |c.hits[h.seqNo := h]| >= d.n
    ensures r.0 ==> IsConfirmed(r.1)
    ensures !r.0 ==> r.1.confTag == c.confTag
  {
    AdvanceFits(d, c, h);
    AddHit(c, h, AdvanceByHit(c, h, d.nodes).value, d.nodes, d.tags, d.n)
  }

  /** `h` confirms `c`. */
  predicate Confirms(d: Dfa, h: Hit, c: Candidate)
    requires DfaOk(d) && c.state < |d.nodes|
  {
    Accepts(d, h, c) && Accepted(d, h, c).0
  }

  /** What a scan that goes past `c` leaves of it: nothing if too old, else `c`, having taken `h` if it accepts it. */
  function Kept(d: Dfa, h: Hit, c: Candidate): (r: seq<Candidate>)
    requires DfaOk(d) && c.state < |d.nodes|
    ensures |r| <= 1
  {
    if TooOld(c, h, d.nodes) then [] else if !Accepts(d, h, c) then [c] else [Accepted(d, h, c).1]
  }

  /** The clone a scan takes of `c`: `c` itself when it is unconfirmed and accepts `h`. */
  function CloneOf(d: Dfa, h: Hit, c: Candidate): seq<Candidate>
    requires c.state < |d.nodes|
  {
    if Accepts(d, h, c) && !IsConfirmed(c) then [c] else []
  }

  /** The records a scan writes for `c` when it erases it as too old. */
  function StaleOf(d: Dfa, h: Hit, c: Candidate): seq<Record>
    requires c.state < |d.nodes|
  {
    if TooOld(c, h, d.nodes) && IsConfirmed(c) then Dump(c).1 else []
  }

  /** What becomes of each candidate in a scan that confirms none. */
  function Survivors(d: Dfa, h: Hit, rest: seq<Candidate>): (r: seq<Candidate>)
    requires DfaOk(d) && AllFit(rest, d)
    ensures |r| <= |rest|
    decreases |rest|
  {
    if rest == [] then [] else Kept(d, h, rest[0]) + Survivors(d, h, rest[1..])
  }

  /** The unconfirmed candidates that accept `h`, as they were before taking it. */
  function Clones(d: Dfa, h: Hit, rest: seq<Candidate>): (r: seq<Candidate>)
    requires AllFit(rest, d)
    ensures |r| <= |rest|
    decreases |rest|
  {
    if rest == [] then [] else CloneOf(d, h, rest[0]) + Clones(d, h, rest[1..])
  }

  /** The records of the confirmed candidates that are too old for `h`. */
  function StaleOut(d: Dfa, h: Hit, rest: seq<Candidate>): seq<Record>
    requires AllFit(rest, d)
    decreases |rest|
  {
    if rest == [] then [] else StaleOf(d, h, rest[0]) + StaleOut(d, h, rest[1..])
  }

  lemma Assoc<T>(a: seq<T>, b: seq<T>, c: seq<T>)
    ensures a + b + c == a + (b + c)
  {
  }

  lemma AllFitTail(d: Dfa, rest: seq<Candidate>)
    requires AllFit(rest, d) && rest != []
    ensures AllFit(rest[1..], d) && rest[0].state < |d.nodes|
  {
    assert forall k :: 0 <= k < |rest| - 1 ==> rest[1..][k] == rest[k + 1];
  }

  /** One step of a scan past a candidate that `h` does not confirm. */
  lemma ScanStep(d: Dfa, h: Hit, done: seq<Candidate>, rest: seq<Candidate>, clones: seq<Candidate>, out: seq<Record>)
    requires DfaOk(d) && AllFit(rest, d) && rest != [] && !Confirms(d, h, rest[0])
    ensures AllFit(rest[1..], d)
    ensures Scan(d, h, done, rest, clones, out)
         == Scan(d, h, done + Kept(d, h, rest[0]), rest[1..], clones + CloneOf(d, h, rest[0]), out + StaleOf(d, h, rest[0]))
  {
    AllFitTail(d, rest);
    var c := rest[0];
    if TooOld(c, h, d.nodes) {
      assert done + Kept(d, h, c) == done && clones + CloneOf(d, h, c) == clones;
      assert out + StaleOf(d, h, c) == if IsConfirmed(c) then out + Dump(c).1 else out;
    } else if !Accepts(d, h, c) {
      assert clones + CloneOf(d, h, c) == clones && out + StaleOf(d, h, c) == out;
    } else {
      assert out + StaleOf(d, h, c) == out;
      assert clones + CloneOf(d, h, c) == if IsConfirmed(c) then clones else clones + [c];
    }
  }

  /**
   * A scan in which no candidate is confirmed by `h` runs to the end of
   * the list: the too old are erased, the rest are kept in order, the
   * unconfirmed that accept `h` are cloned, and only the too old that were
   * confirmed are dumped.
   */
  lemma {:induction false} ScanWithout(d: Dfa, h: Hit, done: seq<Candidate>, rest: seq<Candidate>, clones: seq<Candidate>, out: seq<Record>)
    requires DfaOk(d) && AllFit(rest, d)
    requires forall k :: 0 <= k < |rest| ==> !Confirms(d, h, rest[k])
    ensures Scan(d, h, done, rest, clones, out)
         == ScanResult(done + Survivors(d, h, rest), clones + Clones(d, h, rest), out + StaleOut(d, h, rest), false)
    decreases |rest|
  {
    if rest != [] {
      ScanStep(d, h, done, rest, clones, out);
      var c := rest[0];
      var tail := rest[1..];
      assert forall k :: 0 <= k < |tail| ==> tail[k] == rest[k + 1];
      ScanWithout(d, h, done + Kept(d, h, c), tail, clones + CloneOf(d, h, c), out + StaleOf(d, h, c));
      assert Survivors(d, h, rest) == Kept(d, h, c) + Survivors(d, h, tail);
      assert Clones(d, h, rest) == CloneOf(d, h, c) + Clones(d, h, tail);
      assert StaleOut(d, h, rest) == StaleOf(d, h, c) + StaleOut(d, h, tail);
      Assoc(done, Kept(d, h, c), Survivors(d, h, tail));
      Assoc(clones, CloneOf(d, h, c), Clones(d, h, tail));
      Assoc(out, StaleOf(d, h, c), StaleOut(d, h, tail));
    }
  }

  /**
   * The end of a scan at a candidate `c` that `h` confirms, `done` having
   * been passed and `after` not yet reached: `c` takes the hit, its rivals
   * in the whole list are erased, it is dumped, and the scan stops.
   */
  function ConfirmedAt(d: Dfa, h: Hit, done: seq<Candidate>, c: Candidate, after: seq<Candidate>,
                       clones: seq<Candidate>, out: seq<Record>): ScanResult
    requires DfaOk(d) && c.state < |d.nodes| && Confirms(d, h, c)
  {
    var c1 := Accepted(d, h, c).1;
    var cs := done + [c1] + after;
    PurgeKeeps(cs, |done|, d.n);
    var kept := Purge(cs, |done|, d.n);
    var at := Position(cs, |done|, d.n);
    ScanResult(kept[at := Dump(c1).0], clones + CloneOf(d, h, c), out + Dump(c1).1, true)
  }

  /**
   * A scan whose first candidate confirmed by `h` is `rest[k]` passes the
   * candidates before it as a scan without confirmation would, then ends
   * at `rest[k]`.
   */
  lemma {:induction false} ScanWith(d: Dfa, h: Hit, done: seq<Candidate>, rest: seq<Candidate>, clones: seq<Candidate>, out: seq<Record>, k: nat)
    requires DfaOk(d) && AllFit(rest, d) && k < |rest| && Confirms(d, h, rest[k])
    requires forall j :: 0 <= j < k ==> !Confirms(d, h, rest[j])
    ensures AllFit(rest[..k], d)
    ensures Scan(d, h, done, rest, clones, out)
         == ConfirmedAt(d, h, done + Survivors(d, h, rest[..k]), rest[k], rest[k + 1..],
                        clones + Clones(d, h, rest[..k]), out + StaleOut(d, h, rest[..k]))
    decreases k
  {
    if k == 0 {
      ScanStops(d, h, done, rest, clones, out);
      assert rest[..0] == [];
      assert done + [] == done && clones + [] == clones && out + [] == out;
    } else {
      var c := rest[0];
      ScanStep(d, h, done, rest, clones, out);
      var tail := rest[1..];
      assert forall j :: 0 <= j < |tail| ==> tail[j] == rest[j + 1];
      ScanWith(d, h, done + Kept(d, h, c), tail, clones + CloneOf(d, h, c), out + StaleOf(d, h, c), k - 1);
      PrefixParts(d, h, rest, k);
      assert tail[k - 1] == rest[k] && tail[k..] == rest[k + 1..];
      Assoc(done, Kept(d, h, c), Survivors(d, h, tail[..k - 1]));
      Assoc(clones, CloneOf(d, h, c), Clones(d, h, tail[..k - 1]));
      Assoc(out, StaleOf(d, h, c), StaleOut(d, h, tail[..k - 1]));
    }
  }

  /** A scan whose first candidate `h` confirms ends there. */
  lemma ScanStops(d: Dfa, h: Hit, done: seq<Candidate>, rest: seq<Candidate>, clones: seq<Candidate>, out: seq<Record>)
    requires DfaOk(d) && AllFit(rest, d) && rest != [] && Confirms(d, h, rest[0])
    ensures Scan(d, h, done, rest, clones, out) == ConfirmedAt(d, h, done, rest[0], rest[1..], clones, out)
  {
    var c := rest[0];
    AllFitTail(d, rest);
    AdvanceFits(d, c, h);
    var a := Accepted(d, h, c);
    assert a == AddHit(c, h, AdvanceByHit(c, h, d.nodes).value, d.nodes, d.tags, d.n);
    var cs := done + [a.1] + rest[1..];
    PurgeKeeps(cs, |done|, d.n);
    assert clones + CloneOf(d, h, c) == if IsConfirmed(c) then clones else clones + [c];
  }

  /** The parts of a scan over the first `k` candidates split off the first one. */
  lemma PrefixParts(d: Dfa, h: Hit, rest: seq<Candidate>, k: nat)
    requires DfaOk(d) && AllFit(rest, d) && 0 < k <= |rest|
    ensures AllFit(rest[..k], d) && AllFit(rest[1..][..k - 1], d)
    ensures Survivors(d, h, rest[..k]) == Kept(d, h, rest[0]) + Survivors(d, h, rest[1..][..k - 1])
    ensures Clones(d, h, rest[..k]) == CloneOf(d, h, rest[0]) + Clones(d, h, rest[1..][..k - 1])
    ensures StaleOut(d, h, rest[..k]) == StaleOf(d, h, rest[0]) + StaleOut(d, h, rest[1..][..k - 1])
  {
    var pre := rest[..k];
    assert forall j :: 0 <= j < k ==> pre[j] == rest[j];
    assert pre[0] == rest[0] && pre[1..] == rest[1..][..k - 1];
  }

  /** Past `at`, the purge keeps every candidate that is no rival of `cs[i]`. */
  lemma {:induction false} PurgeKeepsAfter(cs: seq<Candidate>, i: nat, j: nat, n: nat)
    requires i < j <= |cs|
    ensures Position(cs, i, n) < |PurgeUpTo(cs, i, j, n)|
    ensures forall k :: i < k < j && !Rival(cs[k], cs[i], n) ==>
      cs[k] in PurgeUpTo(cs, i, j, n)[Position(cs, i, n) + 1..]
    decreases j
  {
    PurgeFrom(cs, i, j, n);
    if j > i + 1 {
      PurgeKeepsAfter(cs, i, j - 1, n);
      var at := Position(cs, i, n);
      var r0 := PurgeUpTo(cs, i, j - 1, n);
      var r := PurgeUpTo(cs, i, j, n);
      assert r[..|r0|] == r0;
      forall k | i < k < j && !Rival(cs[k], cs[i], n) ensures cs[k] in r[at + 1..] {
        if k < j - 1 {
          assert cs[k] in r0[at + 1..];
          assert r0[at + 1..] == r[at + 1..|r0|];
        } else {
          assert r == r0 + [cs[k]];
          assert r[|r| - 1] == cs[k];
        }
      }
    }
  }

  /** Before `at`, the purge keeps every candidate that is no rival of `cs[i]`. */
  lemma PurgeKeepsBefore(cs: seq<Candidate>, i: nat, n: nat)
    requires i < |cs|
    ensures Position(cs, i, n) < |Purge(cs, i, n)|
    ensures forall k :: 0 <= k < i && !Rival(cs[k], cs[i], n) ==>
      cs[k] in Purge(cs, i, n)[..Position(cs, i, n)]
  {
    PurgeFrom(cs, i, |cs|, n);
    PurgeKeepsOthers(cs, i, i, n);
  }

  /**
   * At the candidate `c` a scan ends with, every rival of `c` (having
   * taken `h`) is gone from the list, every other candidate is still in
   * it, and `c` itself stands dumped in its place.
   */
  lemma ConfirmedAtSpec(d: Dfa, h: Hit, done: seq<Candidate>, c: Candidate, after: seq<Candidate>,
                        clones: seq<Candidate>, out: seq<Record>)
    requires DfaOk(d) && c.state < |d.nodes| && Confirms(d, h, c)
    ensures var c1 := Accepted(d, h, c).1;
      var r := ConfirmedAt(d, h, done, c, after, clones, out);
      exists p :: 0 <= p < |r.kept| && r.kept[p] == Dump(c1).0
        && (forall q :: 0 <= q < |r.kept| && q != p ==> !Rival(r.kept[q], c1, d.n))
        && (forall x :: x in done + after && !Rival(x, c1, d.n) ==> x in r.kept[..p] + r.kept[p + 1..])
  {
    var c1 := Accepted(d, h, c).1;
    var cs := done + [c1] + after;
    var i := |done|;
    PurgeSpec(cs, i, d.n);
    PurgeKeeps(cs, i, d.n);
    PurgeKeepsBefore(cs, i, d.n);
    PurgeKeepsAfter(cs, i, |cs|, d.n);
    var kept := Purge(cs, i, d.n);
    var at := Position(cs, i, d.n);
    var r := ConfirmedAt(d, h, done, c, after, clones, out);
    assert r.kept == kept[at := Dump(c1).0];
    assert cs[i] == c1;
    assert r.kept[..at] == kept[..at] && r.kept[at + 1..] == kept[at + 1..];
    forall x | x in done + after && !Rival(x, c1, d.n) ensures x in r.kept[..at] + r.kept[at + 1..] {
      if x in done {
        var k :| 0 <= k < |done| && done[k] == x;
        assert cs[k] == x;
      } else {
        var k :| 0 <= k < |after| && after[k] == x;
        assert cs[i + 1 + k] == x;
      }
    }
  }

  /** The first candidate of `cs` that `h` confirms, if there is one. */
  lemma {:induction false} FirstConfirming(d: Dfa, h: Hit, cs: seq<Candidate>, from: nat, w: nat) returns (k: nat)
    requires DfaOk(d) && AllFit(cs, d) && from <= w < |cs| && Confirms(d, h, cs[w])
    requires forall j :: 0 <= j < from ==> !Confirms(d, h, cs[j])
    ensures k < |cs| && Confirms(d, h, cs[k]) && forall j :: 0 <= j < k ==> !Confirms(d, h, cs[j])
    decreases w - from
  {
    if from == w || Confirms(d, h, cs[from]) {
      k := from;
    } else {
      k := FirstConfirming(d, h, cs, from + 1, w);
    }
  }

  /** The scan of `process` reports a confirmation exactly when some candidate is confirmed by `h`. */
  lemma ScanConfirmsIff(d: Dfa, h: Hit, cs: seq<Candidate>)
    requires DfaOk(d) && AllFit(cs, d)
    ensures Scan(d, h, [], cs, [], []).confirmed <==> exists k :: 0 <= k < |cs| && Confirms(d, h, cs[k])
  {
    if exists k :: 0 <= k < |cs| && Confirms(d, h, cs[k]) {
      var w :| 0 <= w < |cs| && Confirms(d, h, cs[w]);
      var k := FirstConfirming(d, h, cs, 0, w);
      ScanWith(d, h, [], cs, [], [], k);
    } else {
      ScanWithout(d, h, [], cs, [], []);
    }
  }

  /**
   * A scan of `process` that confirms no candidate: the list keeps, in
   * order, every candidate not too old for `h` (having taken `h` if it
   * accepts it), the unconfirmed that accept `h` are cloned, and only the
   * too old that were confirmed are dumped.
   */
  lemma ScanNoConfirmation(d: Dfa, h: Hit, cs: seq<Candidate>)
    requires DfaOk(d) && AllFit(cs, d)
    requires forall k :: 0 <= k < |cs| ==> !Confirms(d, h, cs[k])
    ensures Scan(d, h, [], cs, [], []) == ScanResult(Survivors(d, h, cs), Clones(d, h, cs), StaleOut(d, h, cs), false)
  {
    ScanWithout(d, h, [], cs, [], []);
  }

  /**
   * A scan of `process` in which `cs[k]` is the first candidate confirmed
   * by `h`: the candidates before it are treated as in a scan without
   * confirmation; `cs[k]` takes `h` and is dumped; no rival of it stays in
   * the list, and every other candidate does; the records written are
   * those of the too old confirmed candidates before it, then its own.
   */
  lemma ScanConfirmation(d: Dfa, h: Hit, cs: seq<Candidate>, k: nat)
    requires DfaOk(d) && AllFit(cs, d) && k < |cs| && Confirms(d, h, cs[k])
    requires forall j :: 0 <= j < k ==> !Confirms(d, h, cs[j])
    ensures AllFit(cs[..k], d)
    ensures var r := Scan(d, h, [], cs, [], []);
      var c1 := Accepted(d, h, cs[k]).1;
      && r.confirmed
      && r.clones == Clones(d, h, cs[..k]) + CloneOf(d, h, cs[k])
      && r.out == StaleOut(d, h, cs[..k]) + Dump(c1).1
      && (exists p :: 0 <= p < |r.kept| && r.kept[p] == Dump(c1).0
           && (forall q :: 0 <= q < |r.kept| && q != p ==> !Rival(r.kept[q], c1, d.n))
           && (forall x :: x in Survivors(d, h, cs[..k]) + cs[k + 1..] && !Rival(x, c1, d.n) ==>
                 x in r.kept[..p] + r.kept[p + 1..]))
  {
    ScanWith(d, h, [], cs, [], [], k);
    ConfirmedAtSpec(d, h, Survivors(d, h, cs[..k]), cs[k], cs[k + 1..], Clones(d, h, cs[..k]), StaleOut(d, h, cs[..k]));
    assert [] + Survivors(d, h, cs[..k]) == Survivors(d, h, cs[..k]);
    assert [] + Clones(d, h, cs[..k]) == Clones(d, h, cs[..k]);
    assert [] + StaleOut(d, h, cs[..k]) == StaleOut(d, h, cs[..k]);
  }

  /**
   * The clone a scan takes of an unconfirmed candidate that `h` then
   * confirms shares that candidate's first hit, so it is a rival of it;
   * it escapes the purge only because clones join the list after it.
   */
  lemma CloneIsRival(d: Dfa, h: Hit, c: Candidate)
    requires DfaOk(d) && c.state < |d.nodes| && Confirms(d, h, c)
    requires c.hits != map[] && d.n >= 1 && forall k :: k in c.hits ==> k < h.seqNo
    ensures CloneOf(d, h, c) == [c] && Rival(c, Accepted(d, h, c).1, d.n)
  {
    AdvanceFits(d, c, h);
    CloneSharesHits(c, h, AdvanceByHit(c, h, d.nodes).value, d.nodes, d.tags, d.n);
  }

  /**
   * When every candidate that accepts `h` is already confirmed, `add_hit`
   * confirms none of them, so the scan runs on to the end and `process`
   * starts a new candidate with `h`.
   */
  lemma ScanPastConfirmed(d: Dfa, h: Hit, cs: seq<Candidate>)
    requires DfaOk(d) && AllFit(cs, d)
    requires forall k :: 0 <= k < |cs| && Accepts(d, h, cs[k]) ==> IsConfirmed(cs[k])
    ensures !Scan(d, h, [], cs, [], []).confirmed
  {
    ScanConfirmsIff(d, h, cs);
  }

  // ---------------------------------------------------------------- end_processing

  /**
   * The loop of `end_processing` over one list, from index `i`: each
   * confirmed candidate erases its rivals and is dumped, and the walk goes
   * on after it.
   */
  function EndFrom(n: nat, cs: seq<Candidate>, i: nat, out: seq<Record>): (seq<Candidate>, seq<Record>)
    decreases |cs| - i
  {
    if i >= |cs| then (cs, out)
    else if IsConfirmed(cs[i]) then
      PurgeKeeps(cs, i, n);
      var kept := Purge(cs, i, n);
      var at := Position(cs, i, n);
      var dumped := Dump(kept[at]);
      EndFrom(n, kept[at := dumped.0], at + 1, out + dumped.1)
    else EndFrom(n, cs, i + 1, out)
  }

  /** `end_processing` on the candidate list of one Lotek ID. */
  method EndCandidates(cs0: seq<Candidate>, n: nat) returns (cs: seq<Candidate>, o: seq<Record>)
    ensures (cs, o) == EndFrom(n, cs0, 0, [])
  {
    cs, o := cs0, [];
    var i := 0;
    while i < |cs|
      invariant EndFrom(n, cs, i, o) == EndFrom(n, cs0, 0, [])
      decreases |cs| - i
    {
      if IsConfirmed(cs[i]) {
        PurgeKeeps(cs, i, n);
        var kept, at := PurgeRivals(cs, i, n);
        var c1, recs := DumpHits(kept[at]);
        cs, o, i := kept[at := c1], o + recs, at + 1;
      } else {
        i := i + 1;
      }
    }
  }

  /** Every survivor of the purge ahead of `j` comes from the first `j` candidates. */
  lemma {:induction false} PurgePrefixFrom(cs: seq<Candidate>, i: nat, j: nat, n: nat)
    requires i < |cs| && j <= |cs|
    ensures forall x :: x in PurgeUpTo(cs, i, j, n) ==> x in cs[..j]
    decreases j
  {
    if j > 0 {
      PurgePrefixFrom(cs, i, j - 1, n);
      var r0 := PurgeUpTo(cs, i, j - 1, n);
      forall x | x in PurgeUpTo(cs, i, j, n) ensures x in cs[..j] {
        if x in r0 {
          assert x in cs[..j - 1];
          assert cs[..j - 1] == cs[..j][..j - 1];
        } else {
          assert x == cs[j - 1] == cs[..j][j - 1];
        }
      }
    }
  }

  /** `end_processing` changes nothing and dumps nothing where no candidate is confirmed. */
  lemma {:induction false} EndNoneConfirmed(n: nat, cs: seq<Candidate>, i: nat, out: seq<Record>)
    requires forall j :: i <= j < |cs| ==> !IsConfirmed(cs[j])
    ensures EndFrom(n, cs, i, out) == (cs, out)
    decreases |cs| - i
  {
    if i < |cs| {
      EndNoneConfirmed(n, cs, i + 1, out);
    }
  }

  /** After `end_processing`, every confirmed candidate left has had its buffer dumped. */
  lemma {:induction false} EndDumpsAll(n: nat, cs: seq<Candidate>, i: nat, out: seq<Record>)
    requires i <= |cs|
    requires forall x :: x in cs[..i] && IsConfirmed(x) ==> x.hits == map[]
    ensures forall x :: x in EndFrom(n, cs, i, out).0 && IsConfirmed(x) ==> x.hits == map[]
    decreases |cs| - i
  {
    if i == |cs| {
      assert cs[..i] == cs;
    } else if IsConfirmed(cs[i]) {
      PurgeKeeps(cs, i, n);
      PurgeFrom(cs, i, |cs|, n);
      PurgePrefixFrom(cs, i, i, n);
      var kept := Purge(cs, i, n);
      var at := Position(cs, i, n);
      var dumped := Dump(kept[at]);
      DumpEmpties(kept[at]);
      var next := kept[at := dumped.0];
      assert next[..at + 1] == kept[..at] + [dumped.0];
      assert kept[..at] == PurgeUpTo(cs, i, i, n);
      EndDumpsAll(n, next, at + 1, out + dumped.1);
    } else {
      assert cs[..i + 1] == cs[..i] + [cs[i]];
      EndDumpsAll(n, cs, i + 1, out);
    }
  }

  /** The run IDs of the confirmed candidates of `cs`. */
  function ConfirmedRuns(cs: seq<Candidate>): (r: set<nat>)
    ensures forall x :: x in cs && IsConfirmed(x) ==> x.runId in r
  {
    set x | x in cs && IsConfirmed(x) :: x.runId
  }

  /** `end_processing` dumps the hits of confirmed candidates only: every record carries the run ID of one. */
  lemma {:induction false} EndRecordsConfirmed(n: nat, cs: seq<Candidate>, i: nat, out: seq<Record>, runs: set<nat>)
    requires forall x :: x in cs && IsConfirmed(x) ==> x.runId in runs
    requires forall r :: r in out ==> r.runId in runs
    ensures forall r :: r in EndFrom(n, cs, i, out).1 ==> r.runId in runs
    decreases |cs| - i
  {
    if i < |cs| {
      if IsConfirmed(cs[i]) {
        PurgeKeeps(cs, i, n);
        PurgeFromList(cs, i, |cs|, n);
        var kept := Purge(cs, i, n);
        var at := Position(cs, i, n);
        var dumped := Dump(kept[at]);
        DumpRecords(kept[at]);
        var next := kept[at := dumped.0];
        forall x | x in next && IsConfirmed(x) ensures x.runId in runs {
          var j :| 0 <= j < |next| && next[j] == x;
          if j != at {
            assert kept[j] in kept;
          }
        }
        forall r | r in out + dumped.1 ensures r.runId in runs {
          if r !in out {
            var j :| 0 <= j < |dumped.1| && dumped.1[j] == r;
          }
        }
        EndRecordsConfirmed(n, next, at + 1, out + dumped.1, runs);
      } else {
        EndRecordsConfirmed(n, cs, i + 1, out, runs);
      }
    }
  }

  /** Where each survivor of the purge stood in `cs`: strictly increasing indices, `i` among them. */
  ghost function PurgeIndices(cs: seq<Candidate>, i: nat, j: nat, n: nat): (r: seq<nat>)
    requires i < |cs| && j <= |cs|
    ensures |r| == |PurgeUpTo(cs, i, j, n)|
    ensures forall p :: 0 <= p < |r| ==> r[p] < j && PurgeUpTo(cs, i, j, n)[p] == cs[r[p]]
    ensures forall p, q :: 0 <= p < q < |r| ==> r[p] < r[q]
    ensures i < j ==> Position(cs, i, n) < |r| && r[Position(cs, i, n)] == i
    decreases j
  {
    if j == 0 then []
    else
      var r0 := PurgeIndices(cs, i, j - 1, n);
      r0 + (if j - 1 == i || !Rival(cs[j - 1], cs[i], n) then [j - 1] else [])
  }

  /** No two candidates of `cs` are confirmed to the same tag. */
  predicate DistinctConfirmedIds(cs: seq<Candidate>) {
    forall p, q :: 0 <= p < q < |cs| ==> !HasSameIdAs(cs[p], cs[q])
  }

  /**
   * The walk of `end_processing` from `i`: if no candidate before `i` shares
   * its confirmed ID with a later one, then no two candidates left do, since
   * each confirmed candidate reached erases every other one of its ID.
   */
  lemma {:induction false} EndDistinctFrom(n: nat, cs: seq<Candidate>, i: nat, out: seq<Record>)
    requires forall p, q :: 0 <= p < q < |cs| && p < i ==> !HasSameIdAs(cs[p], cs[q])
    ensures DistinctConfirmedIds(EndFrom(n, cs, i, out).0)
    decreases |cs| - i
  {
    if i < |cs| {
      if IsConfirmed(cs[i]) {
        PurgeKeeps(cs, i, n);
        PurgeNoRivals(cs, i, |cs|, n);
        var kept := Purge(cs, i, n);
        var at := Position(cs, i, n);
        var idx := PurgeIndices(cs, i, |cs|, n);
        var dumped := Dump(kept[at]);
        var next := kept[at := dumped.0];
        assert dumped.0.confTag == cs[i].confTag;
        forall p, q | 0 <= p < q < |next| && p < at + 1 ensures !HasSameIdAs(next[p], next[q]) {
          if p == at {
            assert next[q] == kept[q] && !Rival(kept[q], cs[i], n);
          } else {
            assert idx[p] < idx[at] == i && idx[p] < idx[q];
            assert next[p] == cs[idx[p]] && next[q].confTag == cs[idx[q]].confTag;
          }
        }
        EndDistinctFrom(n, next, at + 1, out + dumped.1);
      } else {
        EndDistinctFrom(n, cs, i + 1, out);
      }
    } else {
      assert EndFrom(n, cs, i, out).0 == cs;
    }
  }

  /** After `end_processing`, no two candidates left in a list are confirmed to the same tag. */
  lemma EndDistinctIds(n: nat, cs: seq<Candidate>)
    ensures DistinctConfirmedIds(EndFrom(n, cs, 0, []).0)
  {
    EndDistinctFrom(n, cs, 0, []);
  }

  // ---------------------------------------------------------------- bounds

  /** Every candidate of `cs` sits on a node of the arena and has a run ID of at most `bound`. */
  predicate Bounded(cs: seq<Candidate>, d: Dfa, bound: nat) {
    forall c :: c in cs ==> c.state < |d.nodes| && c.runId <= bound
  }

  lemma BoundedFit(cs: seq<Candidate>, d: Dfa, bound: nat)
    requires Bounded(cs, d, bound)
    ensures AllFit(cs, d)
  {
    forall i | 0 <= i < |cs| ensures cs[i].state < |d.nodes| {
      assert cs[i] in cs;
    }
  }

  /** The scan keeps every candidate on the arena and issues no run ID: what it keeps and clones stays within the bounds. */
  lemma {:induction false} ScanBounded(
    d: Dfa, h: Hit, done: seq<Candidate>, rest: seq<Candidate>, clones: seq<Candidate>, out: seq<Record>, bound: nat)
    requires DfaOk(d) && AllFit(rest, d)
    requires Bounded(done, d, bound) && Bounded(rest, d, bound) && Bounded(clones, d, bound)
    ensures Bounded(Scan(d, h, done, rest, clones, out).kept, d, bound)
    ensures Bounded(Scan(d, h, done, rest, clones, out).clones, d, bound)
    decreases |rest|
  {
    if rest != [] {
      var c := rest[0];
      assert c in rest;
      AllFitTail(d, rest);
      assert Bounded(rest[1..], d, bound) by {
        forall x | x in rest[1..] ensures x in rest {
        }
      }
      if TooOld(c, h, d.nodes) {
        ScanBounded(d, h, done, rest[1..], clones, if IsConfirmed(c) then out + Dump(c).1 else out, bound);
      } else if AdvanceByHit(c, h, d.nodes).None? {
        ScanBounded(d, h, done + [c], rest[1..], clones, out, bound);
      } else {
        var next := AdvanceByHit(c, h, d.nodes);
        AdvanceFits(d, c, h);
        var clones1 := if IsConfirmed(c) then clones else clones + [c];
        var a := AddHit(c, h, next.value, d.nodes, d.tags, d.n);
        assert Bounded(clones1, d, bound);
        if !a.0 {
          ScanBounded(d, h, done + [a.1], rest[1..], clones1, out, bound);
        } else {
          var cs := done + [a.1] + rest[1..];
          assert Bounded(cs, d, bound);
          PurgeKeeps(cs, |done|, d.n);
          PurgeFromList(cs, |done|, |cs|, d.n);
          var kept := Purge(cs, |done|, d.n);
          var at := Position(cs, |done|, d.n);
          var r := kept[at := Dump(kept[at]).0];
          forall x | x in r ensures x.state < |d.nodes| && x.runId <= bound {
            var j :| 0 <= j < |r| && r[j] == x;
            assert kept[j] in kept;
          }
        }
      }
    }
  }

  /** `end_processing` keeps every candidate on the arena and issues no run ID. */
  lemma {:induction false} EndBounded(n: nat, cs: seq<Candidate>, i: nat, out: seq<Record>, d: Dfa, bound: nat)
    requires Bounded(cs, d, bound)
    ensures Bounded(EndFrom(n, cs, i, out).0, d, bound)
    decreases |cs| - i
  {
    if i < |cs| {
      if IsConfirmed(cs[i]) {
        PurgeKeeps(cs, i, n);
        PurgeFromList(cs, i, |cs|, n);
        var kept := Purge(cs, i, n);
        var at := Position(cs, i, n);
        var next := kept[at := Dump(kept[at]).0];
        forall x | x in next ensures x.state < |d.nodes| && x.runId <= bound {
          var j :| 0 <= j < |next| && next[j] == x;
          assert kept[j] in kept;
        }
        EndBounded(n, next, at + 1, out + Dump(kept[at]).1, d, bound);
      } else {
        EndBounded(n, cs, i + 1, out, d, bound);
      }
    }
  }
}
