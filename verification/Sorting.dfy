/** Stable sorting, counting and filtering, and what survives a permutation of the input. */
module Sorting {

  ghost predicate TotalPreorder<T(!new)>(le: (T, T) -> bool) {
    && (forall a, b :: le(a, b) || le(b, a))
    && (forall a, b, c :: le(a, b) && le(b, c) ==> le(a, c))
  }

  ghost predicate TotalOrder<T(!new)>(le: (T, T) -> bool) {
    TotalPreorder(le) && forall a, b :: le(a, b) && le(b, a) ==> a == b
  }

  ghost predicate SortedBy<T>(xs: seq<T>, le: (T, T) -> bool) {
    forall i, j :: 0 <= i < j < |xs| ==> le(xs[i], xs[j])
  }

  function Insert<T>(x: T, xs: seq<T>, le: (T, T) -> bool): (r: seq<T>)
    ensures multiset(r) == multiset(xs) + multiset{x}
  {
    if xs == [] || le(x, xs[0]) then [x] + xs
    else
      assert xs == [xs[0]] + xs[1..];
      [xs[0]] + Insert(x, xs[1..], le)
  }

  /** `sorted(xs)`: a permutation that keeps equal elements in their original order. */
  function Sort<T>(xs: seq<T>, le: (T, T) -> bool): (r: seq<T>)
    ensures multiset(r) == multiset(xs) && |r| == |xs|
  {
    if xs == [] then []
    else
      assert xs == [xs[0]] + xs[1..];
      var r := Insert(xs[0], Sort(xs[1..], le), le);
      assert |r| == |multiset(r)| == |multiset(xs)| == |xs|;
      r
  }

  lemma {:induction false} InsertSorted<T(!new)>(x: T, xs: seq<T>, le: (T, T) -> bool)
    requires TotalPreorder(le) && SortedBy(xs, le)
    ensures SortedBy(Insert(x, xs, le), le)
  {
    if xs == [] {
    } else if le(x, xs[0]) {
      forall j | 0 <= j < |xs| ensures le(x, xs[j]) {
        assert j == 0 || le(xs[0], xs[j]);
      }
    } else {
      InsertSorted(x, xs[1..], le);
      var rest := Insert(x, xs[1..], le);
      forall j | 0 <= j < |rest| ensures le(xs[0], rest[j]) {
        assert rest[j] in multiset(rest);
        assert rest[j] == x || rest[j] in xs[1..];
      }
    }
  }

  lemma {:induction false} SortSorts<T(!new)>(xs: seq<T>, le: (T, T) -> bool)
    requires TotalPreorder(le)
    ensures SortedBy(Sort(xs, le), le)
  {
    if xs != [] {
      SortSorts(xs[1..], le);
      InsertSorted(xs[0], Sort(xs[1..], le), le);
    }
  }

  lemma WithoutOne<T>(xs: seq<T>, i: nat)
    requires i < |xs|
    ensures multiset(xs[..i] + xs[i + 1..]) == multiset(xs) - multiset{xs[i]}
  {
    var front, back := xs[..i], xs[i + 1..];
    assert xs == front + ([xs[i]] + back);
    assert multiset(xs) == multiset(front) + (multiset{xs[i]} + multiset(back));
    assert multiset(front + back) == multiset(front) + multiset(back);
  }

  // Equal sorted sequences start with the same element.
  lemma SameLeast<T(!new)>(a: seq<T>, b: seq<T>, le: (T, T) -> bool)
    requires TotalOrder(le) && SortedBy(a, le) && SortedBy(b, le) && multiset(a) == multiset(b) && a != []
    ensures b != [] && a[0] == b[0]
  {
    assert a[0] in multiset(b);
    var i :| 0 <= i < |b| && b[i] == a[0];
    assert b[0] in multiset(a);
    var j :| 0 <= j < |a| && a[j] == b[0];
    assert le(b[0], b[i]) && le(a[0], a[j]);
  }

  lemma TailMultiset<T>(xs: seq<T>)
    requires xs != []
    ensures multiset(xs[1..]) == multiset(xs) - multiset{xs[0]}
  {
    WithoutOne(xs, 0);
    assert xs[..0] + xs[1..] == xs[1..];
  }

  lemma SameHeadAndTail<T>(a: seq<T>, b: seq<T>)
    requires a != [] && b != [] && a[0] == b[0] && a[1..] == b[1..]
    ensures a == b
  {
    assert a == [a[0]] + a[1..] && b == [b[0]] + b[1..];
  }

  // A sorted sequence is determined by its elements.
  lemma {:induction false} SortedUnique<T(!new)>(a: seq<T>, b: seq<T>, le: (T, T) -> bool)
    requires TotalOrder(le) && SortedBy(a, le) && SortedBy(b, le) && multiset(a) == multiset(b)
    ensures a == b
    decreases |a|
  {
    if a == [] {
      assert |multiset(b)| == 0;
    } else {
      SameLeast(a, b, le);
      TailMultiset(a);
      TailMultiset(b);
      SortedUnique(a[1..], b[1..], le);
      SameHeadAndTail(a, b);
    }
  }

  lemma SortCanonical<T(!new)>(a: seq<T>, b: seq<T>, le: (T, T) -> bool)
    requires TotalOrder(le) && multiset(a) == multiset(b)
    ensures Sort(a, le) == Sort(b, le)
  {
    SortSorts(a, le);
    SortSorts(b, le);
    SortedUnique(Sort(a, le), Sort(b, le), le);
  }

  // ---------------------------------------------------------------- filtering and counting

  function Filter<T>(xs: seq<T>, p: T -> bool): (r: seq<T>)
    ensures |r| <= |xs|
  {
    if xs == [] then [] else (if p(xs[0]) then [xs[0]] else []) + Filter(xs[1..], p)
  }

  lemma AppendAssociates<T>(a: seq<T>, b: seq<T>, c: seq<T>)
    ensures a + (b + c) == (a + b) + c
  {
  }

  lemma {:induction false} FilterSnoc<T>(xs: seq<T>, x: T, p: T -> bool)
    ensures Filter(xs + [x], p) == Filter(xs, p) + if p(x) then [x] else []
  {
    if xs == [] {
      assert [] + [x] == [x];
    } else {
      FilterSnoc(xs[1..], x, p);
      assert (xs + [x])[1..] == xs[1..] + [x];
      AppendAssociates(if p(xs[0]) then [xs[0]] else [], Filter(xs[1..], p), if p(x) then [x] else []);
    }
  }

  lemma {:induction false} FilterMultiset<T>(xs: seq<T>, p: T -> bool, x: T)
    ensures multiset(Filter(xs, p))[x] == if p(x) then multiset(xs)[x] else 0
  {
    if xs != [] {
      FilterMultiset(xs[1..], p, x);
      assert xs == [xs[0]] + xs[1..];
      assert multiset(xs)[x] == multiset([xs[0]])[x] + multiset(xs[1..])[x];
      var head := if p(xs[0]) then [xs[0]] else [];
      assert multiset(Filter(xs, p))[x] == multiset(head)[x] + multiset(Filter(xs[1..], p))[x];
    }
  }

  lemma FilterPermuted<T(!new)>(a: seq<T>, b: seq<T>, p: T -> bool)
    requires multiset(a) == multiset(b)
    ensures multiset(Filter(a, p)) == multiset(Filter(b, p)) && |Filter(a, p)| == |Filter(b, p)|
  {
    forall x: T ensures multiset(Filter(a, p))[x] == multiset(Filter(b, p))[x] {
      FilterMultiset(a, p, x);
      FilterMultiset(b, p, x);
    }
    assert multiset(Filter(a, p)) == multiset(Filter(b, p));
    assert |Filter(a, p)| == |multiset(Filter(a, p))| == |multiset(Filter(b, p))| == |Filter(b, p)|;
  }

  // Elements lo..hi-1 passing the test give at least hi - lo survivors.
  lemma {:induction false} FilterRun<T>(xs: seq<T>, p: T -> bool, lo: nat, hi: nat)
    requires lo <= hi <= |xs| && forall i :: lo <= i < hi ==> p(xs[i])
    ensures |Filter(xs, p)| >= hi - lo
    decreases |xs|
  {
    if lo < hi {
      assert forall i :: 0 <= i < |xs| - 1 ==> xs[1..][i] == xs[i + 1];
      if lo == 0 {
        FilterRun(xs[1..], p, 0, hi - 1);
      } else {
        FilterRun(xs[1..], p, lo - 1, hi - 1);
      }
    }
  }

  lemma {:induction false} FilterStaysSorted<T(!new)>(xs: seq<T>, p: T -> bool, le: (T, T) -> bool)
    requires SortedBy(xs, le)
    ensures SortedBy(Filter(xs, p), le) && forall x :: x in Filter(xs, p) ==> x in xs
  {
    if xs != [] {
      FilterStaysSorted(xs[1..], p, le);
      var rest := Filter(xs[1..], p);
      forall j | 0 <= j < |rest| ensures le(xs[0], rest[j]) {
        assert rest[j] in xs[1..];
      }
    }
  }

  function Map<T, U>(f: T -> U, xs: seq<T>): (r: seq<U>)
    ensures |r| == |xs| && forall i :: 0 <= i < |xs| ==> r[i] == f(xs[i])
  {
    if xs == [] then [] else [f(xs[0])] + Map(f, xs[1..])
  }

  lemma MapCons<T, U>(f: T -> U, x: T, xs: seq<T>)
    ensures multiset(Map(f, [x] + xs)) == multiset{f(x)} + multiset(Map(f, xs))
  {
    assert ([x] + xs)[1..] == xs;
    assert Map(f, [x] + xs) == [f(x)] + Map(f, xs);
  }

  lemma {:induction false} MapConcat<T, U>(f: T -> U, a: seq<T>, b: seq<T>)
    ensures Map(f, a + b) == Map(f, a) + Map(f, b)
  {
    var whole, parts := Map(f, a + b), Map(f, a) + Map(f, b);
    assert |whole| == |parts|;
    forall i | 0 <= i < |whole| ensures whole[i] == parts[i] {
    }
  }

  lemma {:induction false} MapRemove<T, U>(f: T -> U, xs: seq<T>, i: nat)
    requires i < |xs|
    ensures multiset(Map(f, xs)) == multiset{f(xs[i])} + multiset(Map(f, xs[..i] + xs[i + 1..]))
  {
    var front, back := xs[..i], xs[i + 1..];
    assert xs == front + ([xs[i]] + back);
    MapConcat(f, front, [xs[i]] + back);
    MapConcat(f, front, back);
    MapCons(f, xs[i], back);
  }

  lemma Occurrence<T>(a: seq<T>, b: seq<T>) returns (i: nat)
    requires a != [] && multiset(a) == multiset(b)
    ensures i < |b| && b[i] == a[0] && multiset(a[1..]) == multiset(b[..i] + b[i + 1..])
  {
    assert a[0] in multiset(b);
    i :| 0 <= i < |b| && b[i] == a[0];
    TailMultiset(a);
    WithoutOne(b, i);
  }

  lemma {:induction false} MapPermuted<T, U>(f: T -> U, a: seq<T>, b: seq<T>)
    requires multiset(a) == multiset(b)
    ensures multiset(Map(f, a)) == multiset(Map(f, b))
    decreases |a|
  {
    if a == [] {
      assert |multiset(b)| == 0;
    } else {
      var i := Occurrence(a, b);
      MapPermuted(f, a[1..], b[..i] + b[i + 1..]);
      MapRemove(f, b, i);
      assert Map(f, a) == [f(a[0])] + Map(f, a[1..]);
    }
  }

  // ---------------------------------------------------------------- weighted sums

  function SumBy<T>(f: T -> real, xs: seq<T>): real {
    if xs == [] then 0.0 else f(xs[0]) + SumBy(f, xs[1..])
  }

  lemma {:induction false} SumBySnoc<T>(f: T -> real, xs: seq<T>, x: T)
    ensures SumBy(f, xs + [x]) == SumBy(f, xs) + f(x)
  {
    if xs == [] {
      assert [] + [x] == [x];
    } else {
      assert (xs + [x])[1..] == xs[1..] + [x];
      SumBySnoc(f, xs[1..], x);
    }
  }

  lemma {:induction false} SumByRemove<T>(f: T -> real, xs: seq<T>, i: nat)
    requires i < |xs|
    ensures SumBy(f, xs) == f(xs[i]) + SumBy(f, xs[..i] + xs[i + 1..])
  {
    if i == 0 {
      assert xs[..0] + xs[1..] == xs[1..];
    } else {
      SumByRemove(f, xs[1..], i - 1);
      assert (xs[..i] + xs[i + 1..])[1..] == xs[1..][..i - 1] + xs[1..][i..];
    }
  }

  lemma {:induction false} SumByPermuted<T>(f: T -> real, a: seq<T>, b: seq<T>)
    requires multiset(a) == multiset(b)
    ensures SumBy(f, a) == SumBy(f, b)
    decreases |a|
  {
    if a == [] {
      assert |multiset(b)| == 0;
    } else {
      var i := Occurrence(a, b);
      SumByPermuted(f, a[1..], b[..i] + b[i + 1..]);
      SumByRemove(f, b, i);
    }
  }

  lemma {:induction false} SumByAtMost<T>(f: T -> real, g: T -> real, xs: seq<T>)
    requires forall x :: x in xs ==> f(x) <= g(x)
    ensures SumBy(f, xs) <= SumBy(g, xs)
  {
    if xs != [] {
      assert xs[0] in xs;
      SumByAtMost(f, g, xs[1..]);
    }
  }

  lemma {:induction false} SumByAdds<T>(f: T -> real, g: T -> real, h: T -> real, xs: seq<T>)
    requires forall x :: x in xs ==> h(x) == f(x) + g(x)
    ensures SumBy(h, xs) == SumBy(f, xs) + SumBy(g, xs)
  {
    if xs != [] {
      assert xs[0] in xs;
      SumByAdds(f, g, h, xs[1..]);
    }
  }
}
