/** A stable sort under any total preorder, for the places where the program sorts. */
module Sorting {
  type Order<!T> = (T, T) -> bool

  ghost predicate TotalPreorder<T(!new)>(before: Order<T>)
  {
    && (forall a, b :: before(a, b) || before(b, a))
    && (forall a, b, c :: before(a, b) && before(b, c) ==> before(a, c))
  }

  ghost predicate Sorted<T>(items: seq<T>, before: Order<T>)
  {
    forall i, j :: 0 <= i < j < |items| ==> before(items[i], items[j])
  }

  /** No two items are alike. */
  ghost predicate Apart<T>(items: seq<T>, alike: Order<T>)
  {
    forall i, j :: 0 <= i < j < |items| ==> !alike(items[i], items[j]) && !alike(items[j], items[i])
  }

  /** Stable insertion: after every item that may stand before it. */
  function Insert<T>(items: seq<T>, x: T, before: Order<T>): (r: seq<T>)
    ensures |r| == |items| + 1 && multiset(r) == multiset(items) + multiset{x}
  {
    if items == [] then [x]
    else
      var front, last := items[..|items| - 1], items[|items| - 1];
      assert items == front + [last];
      if before(last, x) then items + [x] else Insert(front, x, before) + [last]
  }

  function Sort<T>(items: seq<T>, before: Order<T>): (r: seq<T>)
    ensures |r| == |items| && multiset(r) == multiset(items)
  {
    if items == [] then []
    else
      assert items == items[..|items| - 1] + [items[|items| - 1]];
      Insert(Sort(items[..|items| - 1], before), items[|items| - 1], before)
  }

  lemma ElementOf<T>(a: seq<T>, b: seq<T>, i: nat)
    requires multiset(a) == multiset(b) && i < |a|
    ensures a[i] in b
  {
    assert a[i] in multiset(a);
  }

  lemma {:induction false} InsertSorted<T(!new)>(items: seq<T>, x: T, before: Order<T>)
    requires TotalPreorder(before) && Sorted(items, before)
    ensures Sorted(Insert(items, x, before), before)
    decreases |items|
  {
    if items != [] {
      var front, last := items[..|items| - 1], items[|items| - 1];
      if !before(last, x) {
        InsertSorted(front, x, before);
        var longer := Insert(front, x, before);
        assert multiset(longer) == multiset(front + [x]);
        forall i | 0 <= i < |longer|
          ensures before(longer[i], last)
        {
          ElementOf(longer, front + [x], i);
        }
      } else {
        forall i | 0 <= i < |items|
          ensures before(items[i], x)
        {
          assert before(items[i], last) || i == |items| - 1;
        }
      }
    }
  }

  lemma {:induction false} SortIsSorted<T(!new)>(items: seq<T>, before: Order<T>)
    requires TotalPreorder(before)
    ensures Sorted(Sort(items, before), before)
    decreases |items|
  {
    if items != [] {
      SortIsSorted(items[..|items| - 1], before);
      InsertSorted(Sort(items[..|items| - 1], before), items[|items| - 1], before);
    }
  }

  lemma SnocApart<T>(items: seq<T>, last: T, alike: Order<T>)
    requires Apart(items, alike) && forall i :: 0 <= i < |items| ==> !alike(items[i], last) && !alike(last, items[i])
    ensures Apart(items + [last], alike)
  {
  }

  lemma {:induction false} InsertApart<T>(items: seq<T>, x: T, before: Order<T>, alike: Order<T>)
    requires Apart(items, alike) && forall i :: 0 <= i < |items| ==> !alike(items[i], x) && !alike(x, items[i])
    ensures Apart(Insert(items, x, before), alike)
    decreases |items|
  {
    if items != [] {
      var front, last := items[..|items| - 1], items[|items| - 1];
      if !before(last, x) {
        InsertApart(front, x, before, alike);
        var longer := Insert(front, x, before);
        assert multiset(longer) == multiset(front + [x]);
        forall i | 0 <= i < |longer|
          ensures !alike(longer[i], last) && !alike(last, longer[i])
        {
          ElementOf(longer, front + [x], i);
        }
        SnocApart(longer, last, alike);
      } else {
        SnocApart(items, x, alike);
      }
    }
  }

  /** Sorting keeps items apart. */
  lemma {:induction false} SortApart<T>(items: seq<T>, before: Order<T>, alike: Order<T>)
    requires Apart(items, alike)
    ensures Apart(Sort(items, before), alike)
    decreases |items|
  {
    if items != [] {
      var front, last := items[..|items| - 1], items[|items| - 1];
      SortApart(front, before, alike);
      var sorted := Sort(front, before);
      forall i | 0 <= i < |sorted|
        ensures !alike(sorted[i], last) && !alike(last, sorted[i])
      {
        ElementOf(sorted, front, i);
      }
      InsertApart(sorted, last, before, alike);
    }
  }

  /* ---- Stability ---- */

  /** The items that the order does not tell apart from `x`, in list order. */
  ghost function Alike<T>(items: seq<T>, x: T, before: Order<T>): seq<T>
  {
    if items == [] then []
    else
      var last := items[|items| - 1];
      Alike(items[..|items| - 1], x, before) + if before(x, last) && before(last, x) then [last] else []
  }

  lemma AlikeSnoc<T>(items: seq<T>, last: T, x: T, before: Order<T>)
    ensures Alike(items + [last], x, before) ==
      Alike(items, x, before) + if before(x, last) && before(last, x) then [last] else []
  {
    assert (items + [last])[..|items|] == items;
  }

  lemma {:induction false} InsertIsStable<T(!new)>(items: seq<T>, y: T, x: T, before: Order<T>)
    requires TotalPreorder(before)
    ensures Alike(Insert(items, y, before), x, before) == Alike(items + [y], x, before)
    decreases |items|
  {
    AlikeSnoc(items, y, x, before);
    if items != [] {
      var front, last := items[..|items| - 1], items[|items| - 1];
      assert items == front + [last];
      if !before(last, y) {
        InsertIsStable(front, y, x, before);
        AlikeSnoc(front, y, x, before);
        AlikeSnoc(Insert(front, y, before), last, x, before);
      }
    }
  }

  /** Items that the order does not tell apart keep the order they came in. */
  lemma {:induction false} SortIsStable<T(!new)>(items: seq<T>, x: T, before: Order<T>)
    requires TotalPreorder(before)
    ensures Alike(Sort(items, before), x, before) == Alike(items, x, before)
    decreases |items|
  {
    if items != [] {
      var front, last := items[..|items| - 1], items[|items| - 1];
      assert items == front + [last];
      SortIsStable(front, x, before);
      InsertIsStable(Sort(front, before), last, x, before);
      AlikeSnoc(front, last, x, before);
      AlikeSnoc(Sort(front, before), last, x, before);
    }
  }
}
