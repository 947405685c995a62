/** `Array.prototype.sort`, which the repository calls with a comparator in four places: a stable
    sort of a sequence by a total preorder. Written as insertion from the right, so that pushing
    one element onto a sorted list and sorting again is a single insertion. */
module StableSort {
  import opened Wrappers

  ghost predicate TotalPreorder<T(!new)>(le: (T, T) -> bool) {
    && (forall a, b :: le(a, b) || le(b, a))
    && (forall a, b, c :: le(a, b) && le(b, c) ==> le(a, c))
  }

  ghost predicate Sorted<T(!new)>(le: (T, T) -> bool, s: seq<T>) {
    forall i, j :: 0 <= i < j < |s| ==> le(s[i], s[j])
  }

  /** The elements of `s` that satisfy `p`, in order (`Array.prototype.filter`). */
  function Filter<T(!new)>(s: seq<T>, p: T -> bool): (r: seq<T>)
    ensures forall x :: x in r <==> x in s && p(x)
    ensures |r| <= |s|
  {
    if s == [] then []
    else if p(s[|s| - 1]) then Filter(s[..|s| - 1], p) + [s[|s| - 1]]
    else Filter(s[..|s| - 1], p)
  }

  /** The first element of `s` that satisfies `p`, if any (`Array.prototype.find`). */
  function First<T(!new)>(s: seq<T>, p: T -> bool): Option<T> {
    if Filter(s, p) == [] then None else Some(Filter(s, p)[0])
  }

  /** Where a stable sort puts `x` after the sorted list `s`: behind everything not greater. */
  function Slot<T(!new)>(le: (T, T) -> bool, s: seq<T>, x: T): (k: nat)
    ensures k <= |s|
    ensures k > 0 ==> le(s[k - 1], x)
    ensures forall i :: k <= i < |s| ==> !le(s[i], x)
  {
    if s == [] || le(s[|s| - 1], x) then |s| else Slot(le, s[..|s| - 1], x)
  }

  function Insert<T(!new)>(le: (T, T) -> bool, s: seq<T>, x: T): seq<T> {
    var k := Slot(le, s, x);
    s[..k] + [x] + s[k..]
  }

  function Sort<T(!new)>(le: (T, T) -> bool, s: seq<T>): (r: seq<T>)
    ensures |r| == |s|
  {
    if s == [] then [] else Insert(le, Sort(le, s[..|s| - 1]), s[|s| - 1])
  }

  lemma {:induction false} FilterAppend<T(!new)>(s: seq<T>, t: seq<T>, p: T -> bool)
    ensures Filter(s + t, p) == Filter(s, p) + Filter(t, p)
  {
    if t == [] {
      assert s + t == s;
    } else {
      var front, x := t[..|t| - 1], t[|t| - 1];
      FilterAppend(s, front, p);
      assert (s + t)[..|s + t| - 1] == s + front;
      var a, b := Filter(s, p), Filter(front, p);
      assert a + (b + [x]) == (a + b) + [x];
    }
  }

  lemma FilterNone<T(!new)>(s: seq<T>, p: T -> bool)
    requires forall x :: x in s ==> !p(x)
    ensures Filter(s, p) == []
  {
    if Filter(s, p) != [] {
      assert Filter(s, p)[0] in Filter(s, p);
    }
  }

  /** An element that satisfies `p` after none that does is the first. */
  lemma FirstIs<T(!new)>(s: seq<T>, p: T -> bool, i: nat)
    requires i < |s| && p(s[i]) && forall k :: 0 <= k < i ==> !p(s[k])
    ensures First(s, p) == Some(s[i])
  {
    assert s == s[..i] + ([s[i]] + s[i + 1..]);
    FilterAppend(s[..i], [s[i]] + s[i + 1..], p);
    FilterAppend([s[i]], s[i + 1..], p);
    FilterNone(s[..i], p);
    FilterOne(s[i], p);
    hide Filter;
  }

  lemma InsertKeepsSorted<T(!new)>(le: (T, T) -> bool, s: seq<T>, x: T)
    requires TotalPreorder(le) && Sorted(le, s)
    ensures Sorted(le, Insert(le, s, x))
  {
    var k := Slot(le, s, x);
    forall i | 0 <= i < k ensures le(s[i], x) {
      assert le(s[k - 1], x);
    }
  }

  /** The result is in order. */
  lemma {:induction false} SortSorts<T(!new)>(le: (T, T) -> bool, s: seq<T>)
    requires TotalPreorder(le)
    ensures Sorted(le, Sort(le, s))
  {
    if s != [] {
      SortSorts(le, s[..|s| - 1]);
      InsertKeepsSorted(le, Sort(le, s[..|s| - 1]), s[|s| - 1]);
    }
  }

  lemma InsertPermutes<T(!new)>(le: (T, T) -> bool, s: seq<T>, x: T)
    ensures multiset(Insert(le, s, x)) == multiset(s) + multiset{x}
  {
    var k := Slot(le, s, x);
    assert s == s[..k] + s[k..];
  }

  /** The result has the same elements, each as often. */
  lemma {:induction false} SortPermutes<T(!new)>(le: (T, T) -> bool, s: seq<T>)
    ensures multiset(Sort(le, s)) == multiset(s)
  {
    if s != [] {
      var front, x := s[..|s| - 1], s[|s| - 1];
      SortPermutes(le, front);
      InsertPermutes(le, Sort(le, front), x);
      assert Sort(le, s) == Insert(le, Sort(le, front), x);
      hide Sort, Insert;
      assert s == front + [x];
    }
  }

  lemma SortMembers<T(!new)>(le: (T, T) -> bool, s: seq<T>)
    ensures forall x :: x in Sort(le, s) <==> x in s
  {
    SortPermutes(le, s);
    forall x ensures x in Sort(le, s) <==> x in s {
      assert x in Sort(le, s) <==> x in multiset(Sort(le, s));
      assert x in s <==> x in multiset(s);
    }
  }

  lemma FilterAround<T(!new)>(a: seq<T>, b: seq<T>, x: T, p: T -> bool)
    ensures Filter(a + b, p) == Filter(a, p) + Filter(b, p)
    ensures Filter(a + [x] + b, p) == Filter(a, p) + (if p(x) then [x] else []) + Filter(b, p)
  {
    FilterOne(x, p);
    hide Filter;
    FilterAppend(a, b, p);
    FilterAppend(a, [x], p);
    FilterAppend(a + [x], b, p);
  }

  lemma FilterOne<T(!new)>(x: T, p: T -> bool)
    ensures Filter([x], p) == if p(x) then [x] else []
  {
    assert [x][..0] == [];
  }

  /** Filtering commutes with an insertion whose element the filter drops. */
  lemma FilterSkipsInsert<T(!new)>(le: (T, T) -> bool, s: seq<T>, x: T, p: T -> bool)
    requires !p(x)
    ensures Filter(Insert(le, s, x), p) == Filter(s, p)
  {
    hide Filter, Slot;
    var k := Slot(le, s, x);
    FilterAround(s[..k], s[k..], x, p);
    assert s[..k] + s[k..] == s;
  }

  /** Insertion puts `x` behind every element of a class the order cannot tell apart. */
  lemma FilterSeesInsertLast<T(!new)>(le: (T, T) -> bool, s: seq<T>, x: T, p: T -> bool)
    requires p(x) && forall a :: p(a) ==> le(a, x)
    ensures Filter(Insert(le, s, x), p) == Filter(s, p) + [x]
  {
    hide Filter, Slot;
    var k := Slot(le, s, x);
    FilterAround(s[..k], s[k..], x, p);
    assert s[..k] + s[k..] == s;
    FilterNone(s[k..], p);
  }

  /** Elements the order cannot tell apart keep their relative order. */
  lemma {:induction false} SortStable<T(!new)>(le: (T, T) -> bool, s: seq<T>, p: T -> bool)
    requires forall a, b :: p(a) && p(b) ==> le(a, b)
    ensures Filter(Sort(le, s), p) == Filter(s, p)
  {
    if s != [] {
      var front, x := s[..|s| - 1], s[|s| - 1];
      SortStable(le, front, p);
      if p(x) {
        FilterSeesInsertLast(le, Sort(le, front), x, p);
      } else {
        FilterSkipsInsert(le, Sort(le, front), x, p);
      }
    }
  }

  /** A symmetric relation that holds between any two places of a list. */
  ghost predicate Pairwise<T(!new)>(rel: (T, T) -> bool, s: seq<T>) {
    forall i, j :: 0 <= i < j < |s| ==> rel(s[i], s[j])
  }

  lemma InsertKeepsPairwise<T(!new)>(le: (T, T) -> bool, s: seq<T>, x: T, rel: (T, T) -> bool)
    requires forall a, b :: rel(a, b) ==> rel(b, a)
    requires Pairwise(rel, s) && forall y :: y in s ==> rel(y, x)
    ensures Pairwise(rel, Insert(le, s, x))
  {
    hide Slot;
  }

  /** Sorting keeps what holds between any two places: distinctness of keys, for one. */
  lemma {:induction false} SortKeepsPairwise<T(!new)>(le: (T, T) -> bool, s: seq<T>, rel: (T, T) -> bool)
    requires forall a, b :: rel(a, b) ==> rel(b, a)
    requires Pairwise(rel, s)
    ensures Pairwise(rel, Sort(le, s))
  {
    if s != [] {
      var front, x := s[..|s| - 1], s[|s| - 1];
      SortKeepsPairwise(le, front, rel);
      var r := Sort(le, front);
      SortMembers(le, front);
      forall y | y in r ensures rel(y, x) {
        assert y in front;
      }
      InsertKeepsPairwise(le, r, x, rel);
    }
  }

  /** Sorting a list that is already in order changes nothing. */
  lemma {:induction false} SortFixesSorted<T(!new)>(le: (T, T) -> bool, s: seq<T>)
    requires Sorted(le, s)
    ensures Sort(le, s) == s
  {
    if s != [] {
      var front := s[..|s| - 1];
      SortFixesSorted(le, front);
      assert |front| > 0 ==> le(front[|front| - 1], s[|s| - 1]);
      assert s == front + [s[|s| - 1]];
    }
  }

  /** Pushing `x` onto a sorted list and sorting is one insertion. */
  lemma PushAndSort<T(!new)>(le: (T, T) -> bool, s: seq<T>, x: T)
    requires Sorted(le, s)
    ensures Sort(le, s + [x]) == Insert(le, s, x)
  {
    SortFixesSorted(le, s);
    assert (s + [x])[..|s|] == s;
  }
}
