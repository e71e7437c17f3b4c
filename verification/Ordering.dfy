/** The meaning of `sorted(..., key=...)` and of `order by`: a stable insertion sort and what it guarantees. */
module Ordering {

  ghost predicate TotalPreorder<T(!new)>(leq: (T, T) -> bool) {
    && (forall x, y :: leq(x, y) || leq(y, x))
    && (forall x, y, z :: leq(x, y) && leq(y, z) ==> leq(x, z))
  }

  ghost predicate Sorted<T>(leq: (T, T) -> bool, xs: seq<T>) {
    forall i, j | 0 <= i < j < |xs| :: leq(xs[i], xs[j])
  }

  ghost predicate Distinct<T>(xs: seq<T>) {
    forall i, j | 0 <= i < j < |xs| :: xs[i] != xs[j]
  }

  function Elements<T(==)>(xs: seq<T>): set<T> { set x | x in xs }

  lemma {:induction false} DistinctFillASet<T>(xs: seq<T>)
    requires Distinct(xs)
    ensures |Elements(xs)| == |xs|
  {
    if xs != [] {
      var n := |xs| - 1;
      DistinctFillASet(xs[..n]);
      assert Elements(xs) == Elements(xs[..n]) + {xs[n]};
    }
  }

  function Insert<T>(leq: (T, T) -> bool, x: T, xs: seq<T>): (r: seq<T>) {
    if xs == [] || leq(x, xs[0]) then [x] + xs else [xs[0]] + Insert(leq, x, xs[1..])
  }

  function SortBy<T>(leq: (T, T) -> bool, xs: seq<T>): (r: seq<T>) {
    if xs == [] then [] else Insert(leq, xs[0], SortBy(leq, xs[1..]))
  }

  lemma {:induction false} InsertKeepsElements<T>(leq: (T, T) -> bool, x: T, xs: seq<T>)
    ensures multiset(Insert(leq, x, xs)) == multiset{x} + multiset(xs)
  {
    if xs != [] && !leq(x, xs[0]) {
      InsertKeepsElements(leq, x, xs[1..]);
      assert xs == [xs[0]] + xs[1..];
    }
  }

  /** The elements after an insertion are the inserted one and those from before. */
  lemma InsertedElements<T>(leq: (T, T) -> bool, x: T, xs: seq<T>, k: nat)
    requires k < |Insert(leq, x, xs)|
    ensures Insert(leq, x, xs)[k] == x || Insert(leq, x, xs)[k] in xs
  {
    var r := Insert(leq, x, xs);
    InsertKeepsElements(leq, x, xs);
    assert r[k] in multiset(r);
  }

  lemma {:induction false} InsertSorts<T(!new)>(leq: (T, T) -> bool, x: T, xs: seq<T>)
    requires TotalPreorder(leq) && Sorted(leq, xs)
    ensures Sorted(leq, Insert(leq, x, xs))
  {
    if xs == [] || leq(x, xs[0]) {
      SortedCons(leq, x, xs);
    } else {
      var rest := Insert(leq, x, xs[1..]);
      InsertSorts(leq, x, xs[1..]);
      forall k | 0 <= k < |rest| ensures leq(xs[0], rest[k]) {
        InsertedElements(leq, x, xs[1..], k);
      }
      SortedCons(leq, xs[0], rest);
    }
  }

  lemma SortedCons<T(!new)>(leq: (T, T) -> bool, x: T, xs: seq<T>)
    requires TotalPreorder(leq) && Sorted(leq, xs)
    requires xs == [] || leq(x, xs[0]) || forall k | 0 <= k < |xs| :: leq(x, xs[k])
    ensures Sorted(leq, [x] + xs)
  {
  }

  /** Sorting returns the same elements, in order. */
  lemma {:induction false} SortBySorts<T(!new)>(leq: (T, T) -> bool, xs: seq<T>)
    requires TotalPreorder(leq)
    ensures Sorted(leq, SortBy(leq, xs))
    ensures multiset(SortBy(leq, xs)) == multiset(xs)
  {
    if xs != [] {
      SortBySorts(leq, xs[1..]);
      InsertSorts(leq, xs[0], SortBy(leq, xs[1..]));
      InsertKeepsElements(leq, xs[0], SortBy(leq, xs[1..]));
      assert xs == [xs[0]] + xs[1..];
    }
  }

  lemma SamePermutation<T>(xs: seq<T>, ys: seq<T>)
    requires multiset(xs) == multiset(ys)
    ensures |xs| == |ys|
    ensures forall x :: x in xs <==> x in ys
  {
    assert |multiset(xs)| == |xs| && |multiset(ys)| == |ys|;
    forall x ensures x in xs <==> x in ys {
      assert x in xs <==> x in multiset(xs);
    }
  }

  lemma {:induction false} DistinctCounts<T>(xs: seq<T>)
    ensures Distinct(xs) <==> forall x :: multiset(xs)[x] <= 1
  {
    if xs != [] {
      var t := xs[1..];
      DistinctCounts(t);
      assert xs == [xs[0]] + t;
      assert multiset(xs) == multiset{xs[0]} + multiset(t);
      if Distinct(xs) {
        assert forall i, j | 0 <= i < j < |t| :: t[i] == xs[i+1] && t[j] == xs[j+1];
        assert xs[0] !in t;
        assert xs[0] !in multiset(t);
      }
      if forall x :: multiset(xs)[x] <= 1 {
        assert forall x :: multiset(t)[x] <= multiset(xs)[x];
        assert multiset(xs)[xs[0]] <= 1;
        assert xs[0] !in multiset(t);
        forall i, j | 0 <= i < j < |xs| ensures xs[i] != xs[j] {
          assert xs[j] == t[j-1];
          if i == 0 { assert t[j-1] in multiset(t); } else { assert xs[i] == t[i-1]; }
        }
      }
    }
  }
}
