/**
 * The string-interning table `Hashed_String_Vector`: a bidirectional map
 * between strings and the dense integer codes 0, 1, 2, ... handed out in
 * order of first insertion.
 */
module StringTables {

  class HashedStringVector {
    var count: int
    var strings: seq<string>
    var indexes: map<string, int>

    /** `count` is the number of strings, and `indexes` inverts `strings`. */
    ghost predicate Valid()
      reads this
    {
      && count == |strings|
      && (forall i :: 0 <= i < |strings| ==> strings[i] in indexes && indexes[strings[i]] == i)
      && (forall s :: s in indexes ==> 0 <= indexes[s] < |strings| && strings[indexes[s]] == s)
    }

    constructor()
      ensures Valid() && count == 0 && strings == [] && indexes == map[]
    {
      count := 0;
      strings := [];
      indexes := map[];
    }

    /** `operator[](string)`: the code of `s`, or -1 when it was never added. */
    function IndexOf(s: string): (r: int)
      reads this
      requires Valid()
      ensures r == -1 <==> s !in strings
      ensures r != -1 ==> 0 <= r < |strings| && strings[r] == s
    {
      if s in indexes then indexes[s] else -1
    }

    /** `operator[](int)`: the string with code `i`. */
    function StringAt(i: int): (r: string)
      reads this
      requires Valid() && 0 <= i < |strings|
      ensures IndexOf(r) == i
    {
      strings[i]
    }

    /** `has`: whether `s` was added. */
    function Has(s: string): (r: bool)
      reads this
      requires Valid()
      ensures r <==> s in strings
    {
      s in indexes
    }

    /** `add`: the existing code of `s`, or the next code, appending `s`. */
    method Add(s: string) returns (r: int)
      requires Valid()
      modifies this
      ensures Valid()
      ensures old(s in strings) ==> r == old(IndexOf(s)) && strings == old(strings) && count == old(count)
      ensures old(s !in strings) ==> r == old(count) && strings == old(strings) + [s] && count == old(count) + 1
      ensures Has(s) && IndexOf(s) == r && 0 <= r < |strings| && StringAt(r) == s
    {
      if s in indexes {
        return indexes[s];
      }
      strings := strings + [s];
      indexes := indexes[s := count];
      r := count;
      count := count + 1;
    }
  }

  /** Adding twice yields the same code; the codes of two different strings differ. */
  method Interning(a: string, b: string) returns (ia: int, ib: int, ia2: int)
    requires a != b
    ensures ia == 0 && ib == 1 && ia2 == ia
  {
    var t := new HashedStringVector();
    ia := t.Add(a);
    ib := t.Add(b);
    ia2 := t.Add(a);
  }
}
