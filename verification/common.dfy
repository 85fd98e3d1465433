/**
 * Small shared vocabulary: optional values, success/failure outcomes, and the
 * ordered view of finite integer sets that the C++ code gets from iterating
 * a `std::set` or a `std::map` in key order.
 */
module Common {

  /** A value or nothing; stands for a possibly-null pointer. */
  datatype Option<T> = None | Some(value: T)

  /** Success, or the message of a `std::runtime_error` that was thrown. */
  datatype Outcome = Pass | Fail(msg: string)

  /** The least element of a non-empty finite set (`*s.begin()` of a `std::set<int>`). */
  function Least(s: set<int>): (r: int)
    requires s != {}
    ensures r in s
    ensures forall x :: x in s ==> r <= x
  {
    HasLeast(s);
    var m :| m in s && forall x :: x in s ==> m <= x;
    m
  }

  /** Every non-empty finite set of integers has a least element. */
  lemma {:induction false} HasLeast(s: set<int>)
    requires s != {}
    ensures exists m :: m in s && forall x :: x in s ==> m <= x
    decreases |s|
  {
    if forall x :: x !in s {
      assert false;
    }
    var y :| y in s;
    var t := s - {y};
    if t == {} {
      forall x | x in s ensures y <= x {
        assert x in t || x == y;
      }
    } else {
      HasLeast(t);
      var m :| m in t && forall x :: x in t ==> m <= x;
      var w := if y < m then y else m;
      forall x | x in s ensures w <= x {
        if x != y {
          assert x in t;
        }
      }
      assert w in s;
    }
  }

  /** The elements of `s` in ascending order: the iteration order of a `std::set` or `std::map`. */
  function Ascending(s: set<int>): (r: seq<int>)
    ensures |r| == |s|
    ensures forall i :: 0 <= i < |r| ==> r[i] in s
    decreases |s|
  {
    if s == {} then [] else [Least(s)] + Ascending(s - {Least(s)})
  }

  predicate StrictlyIncreasing(q: seq<int>) {
    forall i, j :: 0 <= i < j < |q| ==> q[i] < q[j]
  }

  /** `Ascending` lists every element of the set, in strictly increasing order. */
  lemma {:induction false} AscendingSpec(s: set<int>)
    ensures forall x :: x in s <==> x in Ascending(s)
    ensures StrictlyIncreasing(Ascending(s))
    decreases |s|
  {
    if s != {} {
      var m := Least(s);
      var t := s - {m};
      AscendingSpec(t);
      var q := Ascending(s);
      var r := Ascending(t);
      assert q == [m] + r;
      forall x | x in s ensures x in q {
        if x != m {
          assert x in r;
        }
      }
      forall x | x in r ensures m < x {
        assert x in t;
      }
      IncreasingCons(m, r);
    }
  }

  lemma IncreasingCons(m: int, r: seq<int>)
    requires StrictlyIncreasing(r) && forall x :: x in r ==> m < x
    ensures StrictlyIncreasing([m] + r)
  {
    var q := [m] + r;
    forall i, j | 0 <= i < j < |q| ensures q[i] < q[j] {
      assert q[j] == r[j - 1] && r[j - 1] in r;
      if i > 0 {
        assert q[i] == r[i - 1];
      }
    }
  }

  /** The first (least) element of a non-empty set leads its ascending order. */
  lemma AscendingHead(s: set<int>)
    requires s != {}
    ensures Ascending(s) == [Least(s)] + Ascending(s - {Least(s)})
  {
  }

  function Min(a: int, b: int): int { if a < b then a else b }

  /** The first `n` elements of `s` in ascending order. */
  function FirstN(s: set<int>, n: nat): (r: seq<int>)
  {
    var q := Ascending(s);
    q[..Min(n, |q|)]
  }
}
