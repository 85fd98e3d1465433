/**
 * An interval map from gaps to payloads, standing for `boost::icl::interval_map`:
 * a sequence of non-empty, disjoint segments in ascending order. Two ways of
 * inserting an interval are modelled, the two the DFA code uses:
 *  - `Add` (`interval_map::add`) merges payloads where intervals overlap; it is
 *    used for maps whose payloads are tag-ID sets, where merging is set union;
 *  - `Put` (`interval_map::set`) overwrites the payload on the interval; it is
 *    used for the edge table of a DFA node.
 * Boost also joins neighbouring segments that carry equal payloads; that only
 * changes how a map is cut into segments, never what a point looks up to, and
 * is not modelled.
 */
module IntervalMaps {
  import opened Common
  import opened Intervals

  datatype Segment<V> = Segment(iv: Interval, val: V)

  /** The first segment of `m`, if any, lies entirely after `a`. */
  predicate StartsAfter<V>(a: Interval, m: seq<Segment<V>>) {
    m == [] || Before(a, m[0].iv)
  }

  /** Non-empty segments, each entirely before the next: the shape of every interval map. */
  predicate Sorted<V>(m: seq<Segment<V>>) {
    m == [] || (!IsEmpty(m[0].iv) && StartsAfter(m[0].iv, m[1..]) && Sorted(m[1..]))
  }

  /** A one-segment map, or the empty map when the interval is empty. */
  function Piece<V>(iv: Interval, v: V): seq<Segment<V>> {
    if IsEmpty(iv) then [] else [Segment(iv, v)]
  }

  lemma SortedCons<V>(x: Segment<V>, m: seq<Segment<V>>)
    ensures Sorted([x] + m) <==> !IsEmpty(x.iv) && StartsAfter(x.iv, m) && Sorted(m)
  {
    assert ([x] + m)[1..] == m;
  }

  /** Prepending a piece that ends before the rest begins keeps a map well formed. */
  lemma SortedPiece<V>(iv: Interval, v: V, m: seq<Segment<V>>)
    requires Sorted(m) && (IsEmpty(iv) || StartsAfter(iv, m))
    ensures Sorted(Piece(iv, v) + m)
  {
    if IsEmpty(iv) {
      assert Piece(iv, v) + m == m;
    } else {
      SortedCons(Segment(iv, v), m);
    }
  }

  lemma StartsAfterPiece<V>(a: Interval, iv: Interval, v: V, m: seq<Segment<V>>)
    requires IsEmpty(iv) ==> StartsAfter(a, m)
    requires !IsEmpty(iv) ==> Before(a, iv)
    ensures StartsAfter(a, Piece(iv, v) + m)
  {
    if IsEmpty(iv) {
      assert Piece(iv, v) + m == m;
    }
  }

  /** In a well-formed map every segment is non-empty and lies before every later one. */
  lemma {:induction false} SortedPairwise<V>(m: seq<Segment<V>>)
    requires Sorted(m)
    ensures forall k :: 0 <= k < |m| ==> !IsEmpty(m[k].iv)
    ensures forall i, j :: 0 <= i < j < |m| ==> Before(m[i].iv, m[j].iv)
  {
    if m != [] {
      var r := m[1..];
      SortedPairwise(r);
      assert forall k :: 0 <= k < |r| ==> r[k] == m[k + 1];
      forall j | 1 <= j < |m| ensures Before(m[0].iv, m[j].iv) {
        if j > 1 {
          BeforeTransitive(m[0].iv, r[0].iv, r[j - 1].iv);
        }
      }
    }
  }

  /** A well-formed map whose first segment follows `a` lies wholly after `a`. */
  lemma AfterAll<V>(a: Interval, m: seq<Segment<V>>, k: nat)
    requires Sorted(m) && StartsAfter(a, m) && k < |m|
    ensures Before(a, m[k].iv)
  {
    SortedPairwise(m);
    if k > 0 {
      BeforeTransitive(a, m[0].iv, m[k].iv);
    }
  }

  // ---------------------------------------------------------------------------
  // Tag-set payloads: point lookup and union-on-add
  // ---------------------------------------------------------------------------

  /** The payload a gap maps to: the union of the payloads of all segments containing it. */
  function Lookup(m: seq<Segment<set<int>>>, g: real): set<int> {
    if m == [] then {}
    else (if Contains(m[0].iv, g) then m[0].val else {}) + Lookup(m[1..], g)
  }

  /** `m.add(make_pair(i, s))`: the payload of every point of `i` gains `s`. */
  function Add(m: seq<Segment<set<int>>>, i: Interval, s: set<int>): seq<Segment<set<int>>>
    decreases |m|
  {
    if IsEmpty(i) then m
    else if m == [] then [Segment(i, s)]
    else
      var j, t := m[0].iv, m[0].val;
      if Before(i, j) then [Segment(i, s)] + m
      else if Before(j, i) then [m[0]] + Add(m[1..], i, s)
      else
        Piece(Below(j, i), t) + (Piece(Below(i, j), s) + (Piece(Intersect(j, i), t + s)
        + (Piece(Above(j, i), t) + Add(m[1..], Above(i, j), s))))
  }

  lemma {:induction false} LookupAppend(a: seq<Segment<set<int>>>, b: seq<Segment<set<int>>>, g: real)
    ensures Lookup(a + b, g) == Lookup(a, g) + Lookup(b, g)
  {
    if a == [] {
      assert a + b == b;
    } else {
      assert (a + b)[1..] == a[1..] + b;
      LookupAppend(a[1..], b, g);
    }
  }

  lemma LookupSingle(x: Segment<set<int>>, g: real)
    ensures Lookup([x], g) == if Contains(x.iv, g) then x.val else {}
  {
    assert [x][1..] == [];
  }

  lemma LookupPiece(iv: Interval, v: set<int>, m: seq<Segment<set<int>>>, g: real)
    ensures Lookup(Piece(iv, v) + m, g) == (if Contains(iv, g) then v else {}) + Lookup(m, g)
  {
    LookupAppend(Piece(iv, v), m, g);
    if !IsEmpty(iv) {
      LookupSingle(Segment(iv, v), g);
    }
  }

  /** Adding `s` on `i` adds `s` to exactly the points of `i`. */
  lemma {:induction false} AddLookup(m: seq<Segment<set<int>>>, i: Interval, s: set<int>, g: real)
    ensures Lookup(Add(m, i, s), g) == Lookup(m, g) + (if Contains(i, g) then s else {})
    decreases |m|
  {
    if IsEmpty(i) {
    } else if m == [] {
      LookupSingle(Segment(i, s), g);
    } else {
      var j := m[0].iv;
      assert m == [m[0]] + m[1..];
      LookupAppend([m[0]], m[1..], g);
      LookupSingle(m[0], g);
      if Before(i, j) {
        LookupAppend([Segment(i, s)], m, g);
        LookupSingle(Segment(i, s), g);
      } else if Before(j, i) {
        AddLookup(m[1..], i, s, g);
        LookupAppend([m[0]], Add(m[1..], i, s), g);
      } else {
        AddLookup(m[1..], Above(i, j), s, g);
        AddOverlapLookup(m, i, s, g);
      }
    }
  }

  /** The overlap step of `Add`, given what the recursive call adds. */
  lemma AddOverlapLookup(m: seq<Segment<set<int>>>, i: Interval, s: set<int>, g: real)
    requires m != [] && !IsEmpty(i) && !Before(i, m[0].iv) && !Before(m[0].iv, i)
    requires Lookup(m, g) == (if Contains(m[0].iv, g) then m[0].val else {}) + Lookup(m[1..], g)
    requires Lookup(Add(m[1..], Above(i, m[0].iv), s), g)
      == Lookup(m[1..], g) + (if Contains(Above(i, m[0].iv), g) then s else {})
    ensures Lookup(Add(m, i, s), g) == Lookup(m, g) + (if Contains(i, g) then s else {})
  {
    var j, t := m[0].iv, m[0].val;
    var r := Add(m[1..], Above(i, j), s);
    var r4 := Piece(Above(j, i), t) + r;
    var r3 := Piece(Intersect(j, i), t + s) + r4;
    var r2 := Piece(Below(i, j), s) + r3;
    LookupPiece(Above(j, i), t, r, g);
    LookupPiece(Intersect(j, i), t + s, r4, g);
    LookupPiece(Below(i, j), s, r3, g);
    LookupPiece(Below(j, i), t, r2, g);
  }

  /** Adding inside the region after `a` keeps the map starting after `a`. */
  lemma AddStartsAfter(a: Interval, m: seq<Segment<set<int>>>, i: Interval, s: set<int>)
    requires Sorted(m) && StartsAfter(a, m) && (IsEmpty(i) || Before(a, i))
    ensures StartsAfter(a, Add(m, i, s))
  {
    if !IsEmpty(i) && m != [] {
      var j, t := m[0].iv, m[0].val;
      if !Before(i, j) && !Before(j, i) {
        var ai := Above(i, j);
        var r := Add(m[1..], ai, s);
        assert StartsAfter(a, r) by {
          SortedCons(m[0], m[1..]);
          assert m == [m[0]] + m[1..];
          if m[1..] != [] {
            BeforeTransitive(a, j, m[1..][0].iv);
          }
          if !IsEmpty(ai) {
            BeforeShrinkLo(a, i, ai);
          }
          AddStartsAfter(a, m[1..], ai, s);
        }
        BeforeShrinkLo(a, j, Above(j, i));
        StartsAfterPiece(a, Above(j, i), t, r);
        BeforeShrinkLo(a, j, Intersect(j, i));
        StartsAfterPiece(a, Intersect(j, i), t + s, Piece(Above(j, i), t) + r);
        BeforeShrinkLo(a, i, Below(i, j));
        StartsAfterPiece(a, Below(i, j), s, Piece(Intersect(j, i), t + s) + (Piece(Above(j, i), t) + r));
        BeforeShrinkLo(a, j, Below(j, i));
        StartsAfterPiece(a, Below(j, i), t,
          Piece(Below(i, j), s) + (Piece(Intersect(j, i), t + s) + (Piece(Above(j, i), t) + r)));
      }
    }
  }

  /** `Add` keeps an interval map well formed. */
  lemma {:induction false} AddSorted(m: seq<Segment<set<int>>>, i: Interval, s: set<int>)
    requires Sorted(m)
    ensures Sorted(Add(m, i, s))
    decreases |m|
  {
    if IsEmpty(i) {
    } else if m == [] {
      SortedCons(Segment(i, s), m);
    } else {
      var j := m[0].iv;
      assert m == [m[0]] + m[1..];
      SortedCons(m[0], m[1..]);
      if Before(i, j) {
        SortedCons(Segment(i, s), m);
      } else if Before(j, i) {
        AddSorted(m[1..], i, s);
        AddStartsAfter(j, m[1..], i, s);
        SortedCons(m[0], Add(m[1..], i, s));
      } else {
        AddSorted(m[1..], Above(i, j), s);
        AddOverlapSorted(m, i, s);
      }
    }
  }

  /** The overlap step of `Add`: the four pieces cut from the first segment, then the rest. */
  lemma AddOverlapSorted(m: seq<Segment<set<int>>>, i: Interval, s: set<int>)
    requires Sorted(m) && m != [] && !IsEmpty(i)
    requires !Before(i, m[0].iv) && !Before(m[0].iv, i)
    requires Sorted(Add(m[1..], Above(i, m[0].iv), s))
    ensures Sorted(Add(m, i, s))
  {
    var j, t, rest := m[0].iv, m[0].val, m[1..];
    SortedCons(m[0], rest);
    assert m == [m[0]] + rest;
    var b1, b2, b3, b4, ai := Below(j, i), Below(i, j), Intersect(j, i), Above(j, i), Above(i, j);
    var r := Add(rest, ai, s);
    var r4 := Piece(b4, t) + r;
    var r3 := Piece(b3, t + s) + r4;
    var r2 := Piece(b2, s) + r3;
    NotBothBelow(j, i);
    NotBothAbove(j, i);
    // the fourth piece
    if !IsEmpty(b4) {
      if rest != [] { BeforeShrinkHi(b4, j, rest[0].iv); }
      AddStartsAfter(b4, rest, ai, s);
    }
    SortedPiece(b4, t, r);
    // the third piece
    if !IsEmpty(b3) {
      if rest != [] { BeforeShrinkHi(b3, j, rest[0].iv); }
      BeforeAbove(b3, j, i);
      AddStartsAfter(b3, rest, ai, s);
      BeforeAbove(b3, i, j);
      StartsAfterPiece(b3, b4, t, r);
    }
    SortedPiece(b3, t + s, r4);
    // the second piece
    if !IsEmpty(b2) {
      if rest != [] { BelowBeforeAfter(i, j, rest[0].iv); }
      BelowBeforeAbove(i, i, j);
      AddStartsAfter(b2, rest, ai, s);
      BelowBefore(i, j, b4);
      StartsAfterPiece(b2, b4, t, r);
      BelowBefore(i, j, b3);
      StartsAfterPiece(b2, b3, t + s, r4);
    }
    SortedPiece(b2, s, r3);
    // the first piece
    if !IsEmpty(b1) {
      if rest != [] { BeforeShrinkHi(b1, j, rest[0].iv); }
      BelowBefore(j, i, ai);
      AddStartsAfter(b1, rest, ai, s);
      BelowBeforeAbove(j, j, i);
      StartsAfterPiece(b1, b4, t, r);
      BelowBefore(j, i, b3);
      StartsAfterPiece(b1, b3, t + s, r4);
      StartsAfterPiece(b1, b2, s, r3);
    }
    SortedPiece(b1, t, r2);
  }

  /** In a well-formed map a point lies in at most one segment, whose payload is its lookup. */
  lemma {:induction false} LookupSorted(m: seq<Segment<set<int>>>, g: real)
    requires Sorted(m)
    ensures forall k :: 0 <= k < |m| && Contains(m[k].iv, g) ==> Lookup(m, g) == m[k].val
    ensures (forall k :: 0 <= k < |m| ==> !Contains(m[k].iv, g)) ==> Lookup(m, g) == {}
  {
    if m != [] {
      var r := m[1..];
      SortedCons(m[0], r);
      assert m == [m[0]] + r;
      LookupSorted(r, g);
      assert forall k :: 0 <= k < |r| ==> r[k] == m[k + 1];
      if Contains(m[0].iv, g) {
        forall k | 0 <= k < |r| ensures !Contains(r[k].iv, g) {
          AfterAll(m[0].iv, r, k);
          if Contains(r[k].iv, g) {
            BeforeSeparates(m[0].iv, r[k].iv, g, g);
          }
        }
      }
    }
  }

  /** Every payload is a non-empty subset of `u`. */
  predicate PayloadsWithin(m: seq<Segment<set<int>>>, u: set<int>) {
    forall k :: 0 <= k < |m| ==> m[k].val != {} && m[k].val <= u
  }

  lemma PayloadsWithinAppend(a: seq<Segment<set<int>>>, b: seq<Segment<set<int>>>, u: set<int>)
    requires PayloadsWithin(a, u) && PayloadsWithin(b, u)
    ensures PayloadsWithin(a + b, u)
  {
    forall k | 0 <= k < |a + b| ensures (a + b)[k].val != {} && (a + b)[k].val <= u {
      if k >= |a| {
        assert (a + b)[k] == b[k - |a|];
      }
    }
  }

  /** Adding a non-empty subset of `u` keeps every payload a non-empty subset of `u`. */
  lemma {:induction false} AddWithin(m: seq<Segment<set<int>>>, i: Interval, s: set<int>, u: set<int>)
    requires PayloadsWithin(m, u) && s != {} && s <= u
    ensures PayloadsWithin(Add(m, i, s), u)
    decreases |m|
  {
    if !IsEmpty(i) && m != [] {
      var j, t := m[0].iv, m[0].val;
      var r := m[1..];
      assert PayloadsWithin(r, u) by {
        forall k | 0 <= k < |r| ensures r[k].val != {} && r[k].val <= u {
          assert r[k] == m[k + 1];
        }
      }
      assert PayloadsWithin([m[0]], u);
      if Before(i, j) {
        assert PayloadsWithin([Segment(i, s)], u);
        PayloadsWithinAppend([Segment(i, s)], m, u);
      } else if Before(j, i) {
        AddWithin(r, i, s, u);
        PayloadsWithinAppend([m[0]], Add(r, i, s), u);
      } else {
        AddWithin(r, Above(i, j), s, u);
        var r4 := Piece(Above(j, i), t) + Add(r, Above(i, j), s);
        PayloadsWithinAppend(Piece(Above(j, i), t), Add(r, Above(i, j), s), u);
        var r3 := Piece(Intersect(j, i), t + s) + r4;
        PayloadsWithinAppend(Piece(Intersect(j, i), t + s), r4, u);
        var r2 := Piece(Below(i, j), s) + r3;
        PayloadsWithinAppend(Piece(Below(i, j), s), r3, u);
        PayloadsWithinAppend(Piece(Below(j, i), t), r2, u);
      }
    }
  }

  /**
   * In a well-formed map with non-empty payloads, `Find` and `Lookup`
   * agree: a point lies in a segment exactly when it looks up to a
   * non-empty set, and that set is the segment's payload.
   */
  lemma FindLookup(m: seq<Segment<set<int>>>, u: set<int>, g: real)
    requires Sorted(m) && PayloadsWithin(m, u)
    ensures Find(m, g).Some? <==> Lookup(m, g) != {}
    ensures Find(m, g).Some? ==> Find(m, g).value == Lookup(m, g)
  {
    LookupSorted(m, g);
    if Find(m, g).Some? {
      var k :| 0 <= k < |m| && Contains(m[k].iv, g) && m[k].val == Find(m, g).value;
    }
  }

  // ---------------------------------------------------------------------------
  // Edge tables: first-match lookup and overwriting insertion
  // ---------------------------------------------------------------------------

  /** `m.find(g)`: the payload of the segment containing `g`, if any. */
  function Find<V>(m: seq<Segment<V>>, g: real): (r: Option<V>)
    ensures r.Some? ==> exists k :: 0 <= k < |m| && Contains(m[k].iv, g) && m[k].val == r.value
    ensures r.None? <==> forall k :: 0 <= k < |m| ==> !Contains(m[k].iv, g)
  {
    if m == [] then None
    else if Contains(m[0].iv, g) then Some(m[0].val)
    else
      var r := Find(m[1..], g);
      assert forall k :: 1 <= k < |m| ==> m[k] == m[1..][k - 1];
      r
  }

  /** In a well-formed map, `Find` returns the payload of the one segment holding the point. */
  lemma FindSorted<V>(m: seq<Segment<V>>, k: nat, g: real)
    requires Sorted(m) && k < |m| && Contains(m[k].iv, g)
    ensures Find(m, g) == Some(m[k].val)
  {
    SortedPairwise(m);
    var r := Find(m, g);
    var k' :| 0 <= k' < |m| && Contains(m[k'].iv, g) && m[k'].val == r.value;
    if k' < k {
      BeforeSeparates(m[k'].iv, m[k].iv, g, g);
    } else if k < k' {
      BeforeSeparates(m[k].iv, m[k'].iv, g, g);
    }
  }

  /** The map with the interval `i` cut out of every segment. */
  function Remove<V>(m: seq<Segment<V>>, i: Interval): seq<Segment<V>> {
    if m == [] then []
    else Piece(Below(m[0].iv, i), m[0].val) + (Piece(Above(m[0].iv, i), m[0].val) + Remove(m[1..], i))
  }

  /** `(i, v)` placed in order into a map none of whose segments meets `i`. */
  function Insert<V>(m: seq<Segment<V>>, i: Interval, v: V): seq<Segment<V>> {
    if m == [] then [Segment(i, v)]
    else if Before(m[0].iv, i) then [m[0]] + Insert(m[1..], i, v)
    else [Segment(i, v)] + m
  }

  /** `m.set(make_pair(i, v))`: every point of `i` now maps to `v` alone. */
  function Put<V>(m: seq<Segment<V>>, i: Interval, v: V): seq<Segment<V>> {
    if IsEmpty(i) then m else Insert(Remove(m, i), i, v)
  }

  lemma {:induction false} FindAppend<V>(a: seq<Segment<V>>, b: seq<Segment<V>>, g: real)
    ensures Find(a + b, g) == if Find(a, g).Some? then Find(a, g) else Find(b, g)
  {
    if a == [] {
      assert a + b == b;
    } else {
      assert (a + b)[1..] == a[1..] + b;
      FindAppend(a[1..], b, g);
    }
  }

  lemma {:induction false} FindRemove<V>(m: seq<Segment<V>>, i: Interval, g: real)
    ensures Find(Remove(m, i), g) == if Contains(i, g) then None else Find(m, g)
  {
    if m != [] {
      var j, v := m[0].iv, m[0].val;
      FindRemove(m[1..], i, g);
      FindAppend(Piece(Above(j, i), v), Remove(m[1..], i), g);
      FindAppend(Piece(Below(j, i), v), Piece(Above(j, i), v) + Remove(m[1..], i), g);
    }
  }

  lemma {:induction false} FindInsert<V>(m: seq<Segment<V>>, i: Interval, v: V, g: real)
    requires Contains(i, g) ==> Find(m, g).None?
    ensures Find(Insert(m, i, v), g) == if Contains(i, g) then Some(v) else Find(m, g)
  {
    if m != [] && Before(m[0].iv, i) {
      FindInsert(m[1..], i, v, g);
    }
  }

  /** Overwriting `i` with `v` changes the lookup on `i`, and nowhere else. */
  lemma FindPut<V>(m: seq<Segment<V>>, i: Interval, v: V, g: real)
    ensures Find(Put(m, i, v), g) == if Contains(i, g) then Some(v) else Find(m, g)
  {
    if !IsEmpty(i) {
      FindRemove(m, i, g);
      FindInsert(Remove(m, i), i, v, g);
    }
  }

  /** Every segment lies wholly before or wholly after `i`. */
  predicate Clear<V>(m: seq<Segment<V>>, i: Interval) {
    forall k :: 0 <= k < |m| ==> Before(m[k].iv, i) || Before(i, m[k].iv)
  }

  lemma ClearAppend<V>(x: seq<Segment<V>>, y: seq<Segment<V>>, i: Interval)
    requires Clear(x, i) && Clear(y, i)
    ensures Clear(x + y, i)
  {
    forall k | 0 <= k < |x + y| ensures Before((x + y)[k].iv, i) || Before(i, (x + y)[k].iv) {
      if k < |x| { assert (x + y)[k] == x[k]; } else { assert (x + y)[k] == y[k - |x|]; }
    }
  }

  lemma {:induction false} RemoveStartsAfter<V>(a: Interval, m: seq<Segment<V>>, i: Interval)
    requires Sorted(m) && StartsAfter(a, m)
    ensures StartsAfter(a, Remove(m, i))
  {
    if m != [] {
      var j, v, r := m[0].iv, m[0].val, m[1..];
      SortedCons(m[0], r);
      assert m == [m[0]] + r;
      if r != [] { BeforeTransitive(a, j, r[0].iv); }
      RemoveStartsAfter(a, r, i);
      BeforeShrinkLo(a, j, Above(j, i));
      StartsAfterPiece(a, Above(j, i), v, Remove(r, i));
      BeforeShrinkLo(a, j, Below(j, i));
      StartsAfterPiece(a, Below(j, i), v, Piece(Above(j, i), v) + Remove(r, i));
    }
  }

  lemma {:induction false} RemoveSorted<V>(m: seq<Segment<V>>, i: Interval)
    requires Sorted(m) && !IsEmpty(i)
    ensures Sorted(Remove(m, i)) && Clear(Remove(m, i), i)
  {
    if m != [] {
      var j, v := m[0].iv, m[0].val;
      var lo, hi, r := Below(j, i), Above(j, i), Remove(m[1..], i);
      SortedCons(m[0], m[1..]);
      assert m == [m[0]] + m[1..];
      RemoveSorted(m[1..], i);
      if !IsEmpty(hi) {
        if m[1..] != [] { BeforeShrinkHi(hi, j, m[1..][0].iv); }
        RemoveStartsAfter(hi, m[1..], i);
      }
      SortedPiece(hi, v, r);
      if !IsEmpty(lo) {
        if m[1..] != [] { BeforeShrinkHi(lo, j, m[1..][0].iv); }
        RemoveStartsAfter(lo, m[1..], i);
        BelowBeforeAbove(j, j, i);
        StartsAfterPiece(lo, hi, v, r);
      }
      SortedPiece(lo, v, Piece(hi, v) + r);
      BelowBefore(j, i, i);
      BeforeAbove(i, i, j);
      ClearAppend(Piece(hi, v), r, i);
      ClearAppend(Piece(lo, v), Piece(hi, v) + r, i);
    }
  }

  lemma {:induction false} InsertSorted<V>(m: seq<Segment<V>>, i: Interval, v: V)
    requires Sorted(m) && !IsEmpty(i) && Clear(m, i)
    ensures Sorted(Insert(m, i, v))
  {
    if m == [] {
      SortedCons(Segment(i, v), m);
    } else {
      var r := m[1..];
      SortedCons(m[0], r);
      assert m == [m[0]] + r;
      if Before(m[0].iv, i) {
        assert forall k :: 0 <= k < |r| ==> r[k] == m[k + 1];
        InsertSorted(r, i, v);
        SortedCons(m[0], Insert(r, i, v));
      } else {
        SortedCons(Segment(i, v), m);
      }
    }
  }

  /** `Put` keeps an interval map well formed. */
  lemma PutSorted<V>(m: seq<Segment<V>>, i: Interval, v: V)
    requires Sorted(m)
    ensures Sorted(Put(m, i, v))
  {
    if !IsEmpty(i) {
      RemoveSorted(m, i);
      InsertSorted(Remove(m, i), i, v);
    }
  }

  /** `upper(m.rbegin()->first)`: the upper end of the highest segment. */
  function UpperEnd<V>(m: seq<Segment<V>>): real
    requires m != []
  {
    m[|m| - 1].iv.hi
  }

  /** No point of a well-formed map lies above the upper end of its highest segment. */
  lemma UpperEndBounds<V>(m: seq<Segment<V>>, g: real)
    requires Sorted(m) && Find(m, g).Some?
    ensures g <= UpperEnd(m)
  {
    SortedPairwise(m);
    var k :| 0 <= k < |m| && Contains(m[k].iv, g);
    var last := |m| - 1;
    if k < last {
      assert Before(m[k].iv, m[last].iv);
    }
  }
}
