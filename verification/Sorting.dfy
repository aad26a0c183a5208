/** A stable sort by a comparator, as the sorted lists of the repository rely on it.

  The result is determined by its contract: it is a permutation, it is in order, and elements the
  comparator cannot tell apart keep their order.
*/
module Sorting {

  ghost predicate TotalPreorder<T(!new)>(le: (T, T) -> bool) {
    && (forall a, b :: le(a, b) || le(b, a))
    && (forall a, b, c :: le(a, b) && le(b, c) ==> le(a, c))
  }

  ghost predicate InOrder<T>(s: seq<T>, le: (T, T) -> bool) {
    forall i, j :: 0 <= i < j < |s| ==> le(s[i], s[j])
  }

  function Insert<T>(x: T, s: seq<T>, le: (T, T) -> bool): seq<T> {
    if s == [] || le(x, s[0]) then [x] + s else [s[0]] + Insert(x, s[1..], le)
  }

  function Sort<T>(s: seq<T>, le: (T, T) -> bool): seq<T> {
    if s == [] then [] else Insert(s[0], Sort(s[1..], le), le)
  }

  lemma {:induction false} InsertPermutes<T>(x: T, s: seq<T>, le: (T, T) -> bool)
    ensures multiset(Insert(x, s, le)) == multiset([x] + s)
  {
    if !(s == [] || le(x, s[0])) {
      InsertPermutes(x, s[1..], le);
      assert s == [s[0]] + s[1..];
    }
  }

  lemma {:induction false} SortPermutes<T>(s: seq<T>, le: (T, T) -> bool)
    ensures multiset(Sort(s, le)) == multiset(s)
  {
    if s != [] {
      SortPermutes(s[1..], le);
      InsertPermutes(s[0], Sort(s[1..], le), le);
      assert s == [s[0]] + s[1..];
    }
  }

  lemma {:induction false} InsertKeepsOrder<T(!new)>(x: T, s: seq<T>, le: (T, T) -> bool)
    requires TotalPreorder(le) && InOrder(s, le)
    ensures InOrder(Insert(x, s, le), le)
  {
    if !(s == [] || le(x, s[0])) {
      InsertKeepsOrder(x, s[1..], le);
      InsertPermutes(x, s[1..], le);
      var t := Insert(x, s[1..], le);
      forall j | 0 <= j < |t| ensures le(s[0], t[j]) {
        assert t[j] in multiset([x] + s[1..]);
      }
    }
  }

  lemma {:induction false} SortOrders<T(!new)>(s: seq<T>, le: (T, T) -> bool)
    requires TotalPreorder(le)
    ensures InOrder(Sort(s, le), le)
  {
    if s != [] {
      SortOrders(s[1..], le);
      InsertKeepsOrder(s[0], Sort(s[1..], le), le);
    }
  }

  /** The elements the comparator cannot tell apart from `pivot`, in order. */
  function Class<T>(s: seq<T>, pivot: T, le: (T, T) -> bool): seq<T> {
    if s == [] then []
    else (if le(s[0], pivot) && le(pivot, s[0]) then [s[0]] else []) + Class(s[1..], pivot, le)
  }

  lemma {:induction false} InsertIsStable<T(!new)>(x: T, s: seq<T>, pivot: T, le: (T, T) -> bool)
    requires TotalPreorder(le)
    ensures Class(Insert(x, s, le), pivot, le) == Class([x] + s, pivot, le)
  {
    if s == [] || le(x, s[0]) {
    } else {
      InsertIsStable(x, s[1..], pivot, le);
      assert ([x] + s)[1..] == s && ([x] + s[1..])[1..] == s[1..];
      assert Insert(x, s, le)[1..] == Insert(x, s[1..], le);
    }
  }

  lemma {:induction false} SortIsStable<T(!new)>(s: seq<T>, pivot: T, le: (T, T) -> bool)
    requires TotalPreorder(le)
    ensures Class(Sort(s, le), pivot, le) == Class(s, pivot, le)
  {
    if s != [] {
      var t := Sort(s[1..], le);
      SortIsStable(s[1..], pivot, le);
      InsertIsStable(s[0], t, pivot, le);
      assert ([s[0]] + t)[1..] == t;
    }
  }
}
