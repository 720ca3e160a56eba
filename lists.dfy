/**
 * The List<T> operations the generator applies to lists of arena positions.
 */
module Lists {
  /** List.Remove(x): drops the first occurrence of `x`, if there is one, and keeps the rest in order. */
  function RemoveFirst(list: seq<nat>, x: nat): (r: seq<nat>)
    ensures multiset(r) == multiset(list) - multiset{x}
    ensures x !in list ==> r == list
    ensures |r| == if x in list then |list| - 1 else |list|
  {
    if list == [] then []
    else
      assert list == [list[0]] + list[1..];
      if list[0] == x then list[1..] else [list[0]] + RemoveFirst(list[1..], x)
  }

  /** The positions 0 .. n - 1 in order: a list holding every element of an n-element arena once. */
  function Range(n: nat): (r: seq<nat>)
    ensures |r| == n && forall i :: 0 <= i < n ==> r[i] == i
  {
    if n == 0 then [] else Range(n - 1) + [n - 1]
  }

  /** No element occurs twice. */
  ghost predicate Distinct(list: seq<nat>) {
    forall x :: multiset(list)[x] <= 1
  }

  /** Range(n) holds exactly the positions below n, each once. */
  lemma {:induction false} RangeSpec(n: nat)
    ensures Distinct(Range(n)) && forall x: nat :: x in Range(n) <==> x < n
    decreases n
  {
    if n > 0 {
      RangeSpec(n - 1);
      var r := Range(n);
      var last: nat := n - 1;
      assert r == Range(n - 1) + [last];
      assert multiset(r) == multiset(Range(n - 1)) + multiset{last};
      forall x
        ensures multiset(r)[x] <= 1
      {
        if x == last {
          assert x !in Range(n - 1);
        }
      }
      forall x: nat
        ensures x in r <==> x < n
      {
        assert x in r <==> x in Range(n - 1) || x == last;
      }
    }
  }

  /** Removing from a list without repeats leaves one without repeats, and without the element removed. */
  lemma RemoveFirstDistinct(list: seq<nat>, x: nat)
    requires Distinct(list)
    ensures Distinct(RemoveFirst(list, x)) && x !in RemoveFirst(list, x)
    ensures forall y :: y in RemoveFirst(list, x) <==> y in list && y != x
  {
    var r := RemoveFirst(list, x);
    forall y
      ensures multiset(r)[y] <= 1 && (y in r <==> y in list && y != x)
    {
      assert multiset(r)[y] == if y == x then 0 else multiset(list)[y];
    }
  }
}
