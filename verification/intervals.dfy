/**
 * Intervals of gap values with independently open or closed ends, as
 * `boost::icl::interval<Gap>` provides them, and the few operations on them
 * that an interval map needs: membership, emptiness, intersection, the
 * parts of one interval lying below or above another, and "entirely before".
 */
module Intervals {

  datatype Interval = Interval(lo: real, loClosed: bool, hi: real, hiClosed: bool)

  /** `interval<Gap>::closed(lo, hi)` */
  function Closed(lo: real, hi: real): (r: Interval)
    ensures forall g :: Contains(r, g) <==> lo <= g <= hi
  {
    Interval(lo, true, hi, true)
  }

  /** `g` lies at or above the lower end of `i`. */
  predicate AboveLower(i: Interval, g: real) {
    i.lo < g || (i.loClosed && i.lo == g)
  }

  /** `g` lies at or below the upper end of `i`. */
  predicate BelowUpper(i: Interval, g: real) {
    g < i.hi || (i.hiClosed && g == i.hi)
  }

  predicate Contains(i: Interval, g: real) {
    AboveLower(i, g) && BelowUpper(i, g)
  }

  predicate IsEmpty(i: Interval) {
    i.hi < i.lo || (i.hi == i.lo && !(i.loClosed && i.hiClosed))
  }

  /** A point of a non-empty interval. */
  function Witness(i: Interval): real {
    if i.lo == i.hi then i.lo else (i.lo + i.hi) / 2.0
  }

  /** An interval is empty exactly when it contains no point. */
  lemma EmptyIffNoPoint(i: Interval)
    ensures IsEmpty(i) ==> forall g :: !Contains(i, g)
    ensures !IsEmpty(i) ==> Contains(i, Witness(i))
  {
  }

  function Intersect(a: Interval, b: Interval): (r: Interval)
    ensures forall g :: Contains(r, g) <==> Contains(a, g) && Contains(b, g)
    ensures LoWithin(r, a) && LoWithin(r, b) && HiWithin(r, a) && HiWithin(r, b)
  {
    var lo := if a.lo < b.lo then b.lo else a.lo;
    var loClosed :=
      if a.lo < b.lo then b.loClosed
      else if b.lo < a.lo then a.loClosed
      else a.loClosed && b.loClosed;
    var hi := if a.hi < b.hi then a.hi else b.hi;
    var hiClosed :=
      if a.hi < b.hi then a.hiClosed
      else if b.hi < a.hi then b.hiClosed
      else a.hiClosed && b.hiClosed;
    Interval(lo, loClosed, hi, hiClosed)
  }

  /** The part of `j` strictly below the lower end of `i`. */
  function Below(j: Interval, i: Interval): (r: Interval)
    ensures forall g :: Contains(r, g) <==> Contains(j, g) && !AboveLower(i, g)
    ensures LoWithin(r, j) && HiWithin(r, j)
  {
    Intersect(j, Interval(j.lo, j.loClosed, i.lo, !i.loClosed))
  }

  /** The part of `j` strictly above the upper end of `i`. */
  function Above(j: Interval, i: Interval): (r: Interval)
    ensures forall g :: Contains(r, g) <==> Contains(j, g) && !BelowUpper(i, g)
    ensures LoWithin(r, j) && HiWithin(r, j)
  {
    Intersect(j, Interval(i.hi, !i.hiClosed, j.hi, j.hiClosed))
  }

  /** Every point of `a` is smaller than every point of `b`. */
  predicate Before(a: Interval, b: Interval) {
    a.hi < b.lo || (a.hi == b.lo && !(a.hiClosed && b.loClosed))
  }

  /** The lower end of `p` is not below that of `q`. */
  predicate LoWithin(p: Interval, q: Interval) {
    q.lo < p.lo || (p.lo == q.lo && (p.loClosed ==> q.loClosed))
  }

  /** The upper end of `p` is not above that of `q`. */
  predicate HiWithin(p: Interval, q: Interval) {
    p.hi < q.hi || (p.hi == q.hi && (p.hiClosed ==> q.hiClosed))
  }

  lemma BeforeSeparates(a: Interval, b: Interval, x: real, y: real)
    requires Before(a, b) && Contains(a, x) && Contains(b, y)
    ensures x < y
  {
  }

  lemma BeforeTransitive(a: Interval, b: Interval, c: Interval)
    requires Before(a, b) && Before(b, c) && !IsEmpty(b)
    ensures Before(a, c)
  {
  }

  // Facts about the pieces a sweep over two overlapping intervals produces.

  /** Whatever ends no higher than `q` lies before the part of any interval above `q`. */
  lemma BeforeAbove(p: Interval, q: Interval, x: Interval)
    requires HiWithin(p, q)
    ensures Before(p, Above(x, q))
  {
  }

  /** The part of any interval below `q` lies before whatever starts no lower than `q`. */
  lemma BelowBefore(x: Interval, q: Interval, p: Interval)
    requires LoWithin(p, q)
    ensures Before(Below(x, q), p)
  {
  }

  /** Below a non-empty `q` comes before above it. */
  lemma BelowBeforeAbove(x: Interval, y: Interval, q: Interval)
    requires !IsEmpty(q)
    ensures Before(Below(x, q), Above(y, q))
  {
  }

  /** The part of any interval below a non-empty `q` lies before whatever follows `q`. */
  lemma BelowBeforeAfter(x: Interval, q: Interval, k: Interval)
    requires !IsEmpty(q) && Before(q, k)
    ensures Before(Below(x, q), k)
  {
  }

  /** Two intervals cannot each reach below the other. */
  lemma NotBothBelow(a: Interval, b: Interval)
    ensures IsEmpty(Below(a, b)) || IsEmpty(Below(b, a))
  {
  }

  /** Two intervals cannot each reach above the other. */
  lemma NotBothAbove(a: Interval, b: Interval)
    ensures IsEmpty(Above(a, b)) || IsEmpty(Above(b, a))
  {
  }

  /** Raising the lower end keeps an interval after what it followed. */
  lemma BeforeShrinkLo(a: Interval, j: Interval, p: Interval)
    requires Before(a, j) && LoWithin(p, j)
    ensures Before(a, p)
  {
  }

  /** Lowering the upper end keeps an interval before what it preceded. */
  lemma BeforeShrinkHi(p: Interval, j: Interval, k: Interval)
    requires Before(j, k) && HiWithin(p, j)
    ensures Before(p, k)
  {
  }
}
