/** A stable sort by any comparison, as `sort_by` sorts. */
module Sorting {

  /** How `sort_by` compares: `Before(a, b)` when `a` may stand before `b`. */
  type Comparison<!T> = (T, T) -> bool

  ghost predicate TotalOrder<T(!new)>(before: Comparison<T>) {
    && (forall a, b :: before(a, b) || before(b, a))
    && (forall a, b, c :: before(a, b) && before(b, c) ==> before(a, c))
  }

  ghost predicate Sorted<T>(s: seq<T>, before: Comparison<T>) {
    forall i, j :: 0 <= i < j < |s| ==> before(s[i], s[j])
  }

  /** `p` goes behind everything that may stand before it, as a stable sort puts it. */
  function Insert<T>(s: seq<T>, p: T, before: Comparison<T>): seq<T> {
    if s == [] then [p]
    else if before(s[|s| - 1], p) then s + [p]
    else Insert(s[..|s| - 1], p, before) + [s[|s| - 1]]
  }

  function SortBy<T>(s: seq<T>, before: Comparison<T>): seq<T> {
    if s == [] then [] else Insert(SortBy(s[..|s| - 1], before), s[|s| - 1], before)
  }

  lemma {:induction false} InsertElements<T>(s: seq<T>, p: T, before: Comparison<T>)
    ensures multiset(Insert(s, p, before)) == multiset(s) + multiset{p}
  {
    if s == [] {
    } else if !before(s[|s| - 1], p) {
      InsertElements(s[..|s| - 1], p, before);
      LastApart(s);
    }
  }

  lemma Order<T(!new)>(before: Comparison<T>, a: T, b: T, c: T)
    requires TotalOrder(before)
    ensures before(a, b) || before(b, a)
    ensures before(a, b) && before(b, c) ==> before(a, c)
  {}

  /** Everything in `s` may stand before `last`. */
  ghost predicate AllBefore<T>(s: seq<T>, last: T, before: Comparison<T>) {
    forall i :: 0 <= i < |s| ==> before(s[i], last)
  }

  lemma SortedSnoc<T>(s: seq<T>, last: T, before: Comparison<T>)
    requires Sorted(s, before) && AllBefore(s, last, before)
    ensures Sorted(s + [last], before)
  {}

  lemma {:induction false} InsertAllBefore<T>(s: seq<T>, p: T, last: T, before: Comparison<T>)
    requires AllBefore(s, last, before) && before(p, last)
    ensures AllBefore(Insert(s, p, before), last, before)
  {
    if s == [] {
    } else if !before(s[|s| - 1], p) {
      InsertAllBefore(s[..|s| - 1], p, last, before);
    }
  }

  lemma {:induction false} InsertSorted<T(!new)>(s: seq<T>, p: T, before: Comparison<T>)
    requires TotalOrder(before) && Sorted(s, before)
    ensures Sorted(Insert(s, p, before), before)
  {
    if s == [] {
    } else {
      hide TotalOrder;
      var front, last := s[..|s| - 1], s[|s| - 1];
      Order(before, last, p, p);
      if before(last, p) {
        forall i | 0 <= i < |s| ensures before(s[i], p) {
          if i < |s| - 1 { Order(before, s[i], last, p); }
        }
        SortedSnoc(s, p, before);
      } else {
        InsertSorted(front, p, before);
        InsertAllBefore(front, p, last, before);
        SortedSnoc(Insert(front, p, before), last, before);
      }
    }
  }

  lemma LastApart<T>(s: seq<T>)
    requires s != []
    ensures multiset(s) == multiset(s[..|s| - 1]) + multiset{s[|s| - 1]}
  {
    assert s == s[..|s| - 1] + [s[|s| - 1]];
  }

  lemma {:induction false} SortElements<T>(s: seq<T>, before: Comparison<T>)
    ensures multiset(SortBy(s, before)) == multiset(s)
  {
    if s == [] {
    } else {
      var front, last := s[..|s| - 1], s[|s| - 1];
      assert SortBy(s, before) == Insert(SortBy(front, before), last, before);
      hide *;
      SortElements(front, before);
      InsertElements(SortBy(front, before), last, before);
      LastApart(s);
    }
  }

  lemma {:induction false} SortSorted<T(!new)>(s: seq<T>, before: Comparison<T>)
    requires TotalOrder(before)
    ensures Sorted(SortBy(s, before), before)
  {
    if s == [] {
    } else {
      hide TotalOrder;
      hide Insert;
      hide Sorted;
      SortSorted(s[..|s| - 1], before);
      InsertSorted(SortBy(s[..|s| - 1], before), s[|s| - 1], before);
    }
  }

  lemma SameMembers<T(!new)>(a: seq<T>, b: seq<T>)
    requires multiset(a) == multiset(b)
    ensures forall p :: p in a <==> p in b
  {
    forall p ensures p in a <==> p in b {
      assert p in a <==> p in multiset(a);
      assert p in b <==> p in multiset(b);
    }
  }

  lemma SortIs<T(!new)>(s: seq<T>, before: Comparison<T>)
    requires TotalOrder(before)
    ensures Sorted(SortBy(s, before), before) && forall p :: p in SortBy(s, before) <==> p in s
  {
    hide *;
    SortElements(s, before);
    SortSorted(s, before);
    SameMembers(SortBy(s, before), s);
  }

  // ---------- Stability ----------

  /** The elements that compare equal to `x`, in order. */
  function Ties<T>(s: seq<T>, x: T, before: Comparison<T>): seq<T> {
    if s == [] then []
    else
      var front, last := Ties(s[..|s| - 1], x, before), s[|s| - 1];
      if before(last, x) && before(x, last) then front + [last] else front
  }

  lemma TiesSnoc<T>(s: seq<T>, last: T, x: T, before: Comparison<T>)
    ensures Ties(s + [last], x, before)
         == if before(last, x) && before(x, last) then Ties(s, x, before) + [last] else Ties(s, x, before)
  {
    assert (s + [last])[..|s|] == s;
  }

  lemma {:induction false} InsertStable<T(!new)>(s: seq<T>, p: T, x: T, before: Comparison<T>)
    requires TotalOrder(before)
    ensures Ties(Insert(s, p, before), x, before) == Ties(s + [p], x, before)
  {
    if s == [] || before(s[|s| - 1], p) {
      assert [] + [p] == [p];
    } else {
      var front, last := s[..|s| - 1], s[|s| - 1];
      InsertStable(front, p, x, before);
      Order(before, last, x, p);
      hide TotalOrder;
      hide Insert;
      assert s == front + [last];
      TiesSnoc(front, last, x, before);
      TiesSnoc(front, p, x, before);
      TiesSnoc(s, p, x, before);
      TiesSnoc(Insert(front, p, before), last, x, before);
      assert Insert(s, p, before) == Insert(front, p, before) + [last] by { InsertBehind(s, p, before); }
    }
  }

  lemma InsertBehind<T>(s: seq<T>, p: T, before: Comparison<T>)
    requires s != [] && !before(s[|s| - 1], p)
    ensures Insert(s, p, before) == Insert(s[..|s| - 1], p, before) + [s[|s| - 1]]
  {}

  /** Elements that compare equal keep their order. */
  lemma {:induction false} SortStable<T(!new)>(s: seq<T>, x: T, before: Comparison<T>)
    requires TotalOrder(before)
    ensures Ties(SortBy(s, before), x, before) == Ties(s, x, before)
  {
    if s == [] {
    } else {
      var front, last := s[..|s| - 1], s[|s| - 1];
      SortStable(front, x, before);
      InsertStable(SortBy(front, before), last, x, before);
      TiesSnoc(SortBy(front, before), last, x, before);
      hide TotalOrder;
      hide Insert;
    }
  }
}
