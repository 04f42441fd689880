/**
  The library sorts (`std::sort`, `std::stable_sort`, `std::ranges::sort`) as one stable insertion sort.

  Where the source's comparator leaves two elements unordered, `std::sort` may put them either way; only
  where the source sorts stably does a property use `SortStable`.
 */
module Sorting {

  /** What the C++ library asks of a comparator. */
  ghost predicate StrictWeak<T(!new)>(less: (T, T) -> bool) {
    && (forall a, b :: less(a, b) ==> !less(b, a))
    && (forall a, b, c :: less(a, c) && !less(a, b) ==> less(b, c))
  }

  ghost predicate NoDup<T>(s: seq<T>) {
    forall i, j :: 0 <= i < j < |s| ==> s[i] != s[j]
  }

  ghost predicate Sorted<T>(s: seq<T>, less: (T, T) -> bool) {
    forall i, j :: 0 <= i < j < |s| ==> !less(s[j], s[i])
  }

  /** `x` goes behind everything smaller and before everything it ties with. */
  function Insert<T>(x: T, s: seq<T>, less: (T, T) -> bool): seq<T> {
    if s != [] && less(s[0], x) then [s[0]] + Insert(x, s[1..], less) else [x] + s
  }

  function Sort<T>(s: seq<T>, less: (T, T) -> bool): seq<T> {
    if s == [] then [] else Insert(s[0], Sort(s[1..], less), less)
  }

  lemma {:induction false} InsertPermutes<T>(x: T, s: seq<T>, less: (T, T) -> bool)
    ensures multiset(Insert(x, s, less)) == multiset(s) + multiset{x}
    decreases |s|
  {
    if s != [] && less(s[0], x) {
      InsertPermutes(x, s[1..], less);
      assert s == [s[0]] + s[1..];
    }
  }

  lemma {:induction false} SortPermutes<T>(s: seq<T>, less: (T, T) -> bool)
    ensures multiset(Sort(s, less)) == multiset(s)
    decreases |s|
  {
    if s != [] {
      SortPermutes(s[1..], less);
      InsertPermutes(s[0], Sort(s[1..], less), less);
      assert s == [s[0]] + s[1..];
    }
  }

  lemma {:induction false} InsertSorts<T(!new)>(x: T, s: seq<T>, less: (T, T) -> bool)
    requires StrictWeak(less) && Sorted(s, less)
    ensures Sorted(Insert(x, s, less), less)
    decreases |s|
  {
    if s != [] && less(s[0], x) {
      var tail := Insert(x, s[1..], less);
      InsertSorts(x, s[1..], less);
      InsertPermutes(x, s[1..], less);
      forall j | 0 <= j < |tail|
        ensures !less(tail[j], s[0])
      {
        assert tail[j] in multiset(tail);
        if tail[j] != x {
          assert tail[j] in multiset(s[1..]);
          var k :| 0 <= k < |s[1..]| && s[1..][k] == tail[j];
          assert s[k + 1] == tail[j];
        }
      }
    } else {
      forall j | 0 <= j < |s|
        ensures !less(s[j], x)
      {
        assert j > 0 ==> !less(s[j], s[0]);
      }
    }
  }

  lemma {:induction false} SortSorts<T(!new)>(s: seq<T>, less: (T, T) -> bool)
    requires StrictWeak(less)
    ensures Sorted(Sort(s, less), less)
    decreases |s|
  {
    if s != [] {
      SortSorts(s[1..], less);
      InsertSorts(s[0], Sort(s[1..], less), less);
    }
  }

  function Filter<T>(p: T -> bool, s: seq<T>): seq<T> {
    if s == [] then [] else (if p(s[0]) then [s[0]] else []) + Filter(p, s[1..])
  }

  lemma FilterCons<T>(p: T -> bool, x: T, s: seq<T>)
    ensures Filter(p, [x] + s) == (if p(x) then [x] else []) + Filter(p, s)
  {
    assert ([x] + s)[1..] == s;
  }

  lemma {:induction false} InsertStable<T(!new)>(x: T, s: seq<T>, less: (T, T) -> bool, p: T -> bool)
    requires forall a, b :: p(a) && p(b) ==> !less(a, b)
    ensures Filter(p, Insert(x, s, less)) == (if p(x) then [x] else []) + Filter(p, s)
    decreases |s|
  {
    hide Filter;
    if s != [] && less(s[0], x) {
      var head, tail := s[0], s[1..];
      InsertStable(x, tail, less, p);
      FilterCons(p, head, Insert(x, tail, less));
      FilterCons(p, head, tail);
      assert s == [head] + tail;
      if !p(x) {
        assert [] + Filter(p, s) == Filter(p, s) && [] + Filter(p, tail) == Filter(p, tail);
      } else {
        assert [] + ([x] + Filter(p, tail)) == [x] + ([] + Filter(p, tail));
      }
    } else {
      FilterCons(p, x, s);
    }
  }

  /** Elements of a class whose members tie with one another keep their relative order. */
  lemma {:induction false} SortStable<T(!new)>(s: seq<T>, less: (T, T) -> bool, p: T -> bool)
    requires forall a, b :: p(a) && p(b) ==> !less(a, b)
    ensures Filter(p, Sort(s, less)) == Filter(p, s)
    decreases |s|
  {
    if s != [] {
      SortStable(s[1..], less, p);
      InsertStable(s[0], Sort(s[1..], less), less, p);
    }
  }

  function Not<T>(p: T -> bool): T -> bool {
    x => !p(x)
  }

  /** Where no member of a class follows one outside it, the class comes first. */
  lemma {:induction false} FilterSplits<T(!new)>(s: seq<T>, p: T -> bool)
    requires forall i, j :: 0 <= i < j < |s| && p(s[j]) ==> p(s[i])
    ensures s == Filter(p, s) + Filter(Not(p), s)
    decreases |s|
  {
    if s != [] {
      var q, tail := Not(p), s[1..];
      assert s == [s[0]] + tail;
      if p(s[0]) {
        FilterSplits(tail, p);
      } else {
        forall i | 0 <= i < |tail|
          ensures tail[i] == s[i + 1] && !p(tail[i])
        {
        }
        FilterNone(tail, p);
        FilterAll(tail, q);
      }
    }
  }

  lemma {:induction false} FilterNone<T(!new)>(s: seq<T>, p: T -> bool)
    requires forall i :: 0 <= i < |s| ==> !p(s[i])
    ensures Filter(p, s) == []
    decreases |s|
  {
    if s != [] {
      FilterNone(s[1..], p);
    }
  }

  lemma {:induction false} FilterAll<T(!new)>(s: seq<T>, p: T -> bool)
    requires forall i :: 0 <= i < |s| ==> p(s[i])
    ensures Filter(p, s) == s
    decreases |s|
  {
    if s != [] {
      FilterAll(s[1..], p);
    }
  }

  lemma {:induction false} FilterIn<T(!new)>(s: seq<T>, p: T -> bool, less: (T, T) -> bool)
    requires Sorted(s, less)
    ensures Sorted(Filter(p, s), less)
    ensures forall k :: 0 <= k < |Filter(p, s)| ==> p(Filter(p, s)[k]) && Filter(p, s)[k] in s
    decreases |s|
  {
    if s != [] {
      FilterIn(s[1..], p, less);
      var rest := Filter(p, s[1..]);
      forall k | 0 <= k < |rest|
        ensures !less(rest[k], s[0]) && rest[k] in s
      {
        var j :| 0 <= j < |s[1..]| && s[1..][j] == rest[k];
        assert s[j + 1] == rest[k];
      }
    }
  }

  ghost predicate StrictlySorted<T>(s: seq<T>, less: (T, T) -> bool) {
    forall i, j :: 0 <= i < j < |s| ==> less(s[i], s[j]) && !less(s[j], s[i])
  }

  lemma SameHead<T(!new)>(a: seq<T>, b: seq<T>, less: (T, T) -> bool)
    requires a != [] && b != []
    requires b[0] in a && a[0] in b
    requires StrictlySorted(a, less) && Sorted(b, less)
    ensures a[0] == b[0]
  {
    var i :| 0 <= i < |a| && a[i] == b[0];
    var j :| 0 <= j < |b| && b[j] == a[0];
  }

  lemma SameRest<T>(a: seq<T>, b: seq<T>)
    requires a != [] && b != [] && a[0] == b[0] && multiset(a) == multiset(b)
    ensures multiset(a[1..]) == multiset(b[1..])
  {
    assert a == [a[0]] + a[1..] && b == [b[0]] + b[1..];
    assert multiset(a[1..]) == multiset(a) - multiset{a[0]};
    assert multiset(b[1..]) == multiset(b) - multiset{b[0]};
  }

  lemma RestSorted<T(!new)>(a: seq<T>, b: seq<T>, less: (T, T) -> bool)
    requires a != [] && b != []
    requires StrictlySorted(a, less) && Sorted(b, less)
    ensures StrictlySorted(a[1..], less) && Sorted(b[1..], less)
  {
  }

  /** Where no two elements tie there is only one sorted arrangement. */
  lemma {:induction false} SortedIsUnique<T(!new)>(a: seq<T>, b: seq<T>, less: (T, T) -> bool)
    requires multiset(a) == multiset(b)
    requires StrictlySorted(a, less) && Sorted(b, less)
    ensures a == b
    decreases |a|
  {
    hide StrictlySorted, Sorted;
    assert |multiset(a)| == |a| && |multiset(b)| == |b|;
    if a != [] {
      assert a[0] in multiset(b) && b[0] in multiset(a);
      SameHead(a, b, less);
      SameRest(a, b);
      RestSorted(a, b, less);
      SortedIsUnique(a[1..], b[1..], less);
      assert a == [a[0]] + a[1..] && b == [b[0]] + b[1..];
    }
  }

  /** Two places with the same element count it twice. */
  lemma TwoAlike<T>(s: seq<T>, i: nat, j: nat)
    requires i < j < |s| && s[i] == s[j]
    ensures multiset(s)[s[i]] >= 2
  {
    assert s == s[..j] + s[j..];
    assert s[i] in s[..j] && s[j] in s[j..];
  }

  lemma {:induction false} NoDupCounts<T>(s: seq<T>)
    requires NoDup(s)
    ensures forall x :: multiset(s)[x] <= 1
    decreases |s|
  {
    if s != [] {
      var front, x := s[..|s| - 1], s[|s| - 1];
      NoDupCounts(front);
      assert s == front + [x];
      assert x !in front;
    }
  }

  lemma CountsNoDup<T>(s: seq<T>)
    requires forall x :: multiset(s)[x] <= 1
    ensures NoDup(s)
  {
    forall i, j | 0 <= i < j < |s| && s[i] == s[j]
      ensures multiset(s)[s[i]] >= 2
    {
      TwoAlike(s, i, j);
    }
  }

  lemma PermutedNoDup<T>(s: seq<T>, t: seq<T>)
    requires NoDup(s) && multiset(s) == multiset(t)
    ensures NoDup(t) && forall x :: x in s <==> x in t
  {
    NoDupCounts(s);
    CountsNoDup(t);
    forall x
      ensures x in s <==> x in t
    {
      assert x in s <==> x in multiset(s);
      assert x in t <==> x in multiset(t);
    }
  }

  // ---------------------------------------------------------------------------------------------
  // When two comparators arrange a sequence alike
  // ---------------------------------------------------------------------------------------------

  /** Whether a stable sort puts `x` before `y`: only the comparison of the later one with the earlier one
      counts. */
  ghost predicate Goes<T>(s: seq<T>, less: (T, T) -> bool, x: T, y: T) {
    if s == [] then false
    else if s[0] == x then !less(y, x)
    else if s[0] == y then less(x, y)
    else Goes(s[1..], less, x, y)
  }

  ghost function Going<T>(s: seq<T>, less: (T, T) -> bool): (T, T) -> bool {
    (x, y) => Goes(s, less, x, y)
  }

  lemma {:induction false} InsertSplits<T(!new)>(x: T, s: seq<T>, less: (T, T) -> bool) returns (n: nat)
    requires StrictWeak(less) && Sorted(s, less)
    ensures n <= |s| && Insert(x, s, less) == s[..n] + [x] + s[n..]
    ensures forall i :: 0 <= i < n ==> less(s[i], x)
    ensures forall i :: n <= i < |s| ==> !less(s[i], x)
    decreases |s|
  {
    if s != [] && less(s[0], x) {
      var m := InsertSplits(x, s[1..], less);
      n := m + 1;
      assert s[..n] == [s[0]] + s[1..][..m] && s[n..] == s[1..][m..];
    } else {
      n := 0;
      forall i | 0 <= i < |s|
        ensures !less(s[i], x)
      {
        assert i > 0 ==> !less(s[i], s[0]);
      }
    }
  }

  lemma InSorted<T>(s: seq<T>, less: (T, T) -> bool, k: nat)
    requires k < |Sort(s, less)|
    ensures Sort(s, less)[k] in s
  {
    SortPermutes(s, less);
    assert Sort(s, less)[k] in multiset(Sort(s, less));
  }

  lemma {:induction false} SortGoes<T(!new)>(s: seq<T>, less: (T, T) -> bool)
    requires StrictWeak(less) && NoDup(s)
    ensures StrictlySorted(Sort(s, less), Going(s, less))
    decreases |s|
  {
    if s != [] {
      var x, rest, tail := s[0], s[1..], Sort(s[1..], less);
      SortGoes(rest, less);
      SortSorts(rest, less);
      forall k | 0 <= k < |tail|
        ensures tail[k] != x
      {
        InSorted(rest, less, k);
      }
      var n := InsertSplits(x, tail, less);
      TailGoes(s, less, tail, n);
    }
  }

  lemma TailGoes<T(!new)>(s: seq<T>, less: (T, T) -> bool, tail: seq<T>, n: nat)
    requires StrictWeak(less) && s != [] && n <= |tail|
    requires StrictlySorted(tail, Going(s[1..], less)) && forall k :: 0 <= k < |tail| ==> tail[k] != s[0]
    requires forall i :: 0 <= i < n ==> less(tail[i], s[0])
    requires forall i :: n <= i < |tail| ==> !less(tail[i], s[0])
    ensures StrictlySorted(tail[..n] + [s[0]] + tail[n..], Going(s, less))
  {
    var x, all, going := s[0], tail[..n] + [s[0]] + tail[n..], Going(s[1..], less);
    forall i, j | 0 <= i < j < |all|
      ensures Going(s, less)(all[i], all[j]) && !Going(s, less)(all[j], all[i])
    {
      if i != n && j != n {
        var p, q := if i < n then i else i - 1, if j < n then j else j - 1;
        assert going(tail[p], tail[q]) && !going(tail[q], tail[p]);
      }
    }
  }

  /** Two sorts arrange `s` alike exactly when they agree, for each pair in it, on whether the later one
      moves in front of the earlier one. */
  lemma SameSortExactlyWhen<T(!new)>(s: seq<T>, f: (T, T) -> bool, g: (T, T) -> bool)
    requires StrictWeak(f) && StrictWeak(g) && NoDup(s)
    ensures Sort(s, f) == Sort(s, g) <==> forall i, j :: 0 <= i < j < |s| ==> f(s[j], s[i]) == g(s[j], s[i])
  {
    hide Sort, StrictWeak, NoDup;
    var a, b := Sort(s, f), Sort(s, g);
    SortGoes(s, f);
    SortGoes(s, g);
    SortPermutes(s, f);
    SortPermutes(s, g);
    if forall i, j :: 0 <= i < j < |s| ==> f(s[j], s[i]) == g(s[j], s[i]) {
      forall i, j | 0 <= i < j < |b|
        ensures !Going(s, f)(b[j], b[i])
      {
        assert Going(s, g)(b[i], b[j]) && !Going(s, g)(b[j], b[i]);
        InSorted(s, g, i);
        InSorted(s, g, j);
        SameGoes(s, f, g, b[j], b[i]);
      }
      SortedIsUnique(a, b, Going(s, f));
    }
    if a == b {
      forall i, j | 0 <= i < j < |s|
        ensures f(s[j], s[i]) == g(s[j], s[i])
      {
        BothThere(s, a, i, j, f);
        BothThere(s, a, i, j, g);
      }
    }
  }

  lemma {:induction false} SameGoes<T(!new)>(s: seq<T>, f: (T, T) -> bool, g: (T, T) -> bool, x: T, y: T)
    requires x in s && y in s && x != y
    requires forall i, j :: 0 <= i < j < |s| ==> f(s[j], s[i]) == g(s[j], s[i])
    ensures Goes(s, f, x, y) == Goes(s, g, x, y)
    decreases |s|
  {
    var rest := s[1..];
    assert s == [s[0]] + rest;
    if s[0] == x {
      var j :| 0 <= j < |s| && s[j] == y;
    } else if s[0] == y {
      var j :| 0 <= j < |s| && s[j] == x;
    } else {
      forall i, j | 0 <= i < j < |rest|
        ensures f(rest[j], rest[i]) == g(rest[j], rest[i])
      {
        assert rest[i] == s[i + 1] && rest[j] == s[j + 1];
      }
      SameGoes(rest, f, g, x, y);
    }
  }

  lemma {:induction false} GoesIs<T(!new)>(s: seq<T>, less: (T, T) -> bool, i: nat, j: nat)
    requires NoDup(s) && i < j < |s|
    ensures Goes(s, less, s[i], s[j]) == !less(s[j], s[i])
    decreases |s|
  {
    if i > 0 {
      GoesIs(s[1..], less, i - 1, j - 1);
    }
  }

  lemma BothThere<T(!new)>(s: seq<T>, a: seq<T>, i: nat, j: nat, less: (T, T) -> bool)
    requires NoDup(s) && i < j < |s| && multiset(a) == multiset(s)
    requires StrictlySorted(a, Going(s, less))
    ensures exists p, q :: 0 <= p < |a| && 0 <= q < |a| && a[p] == s[i] && a[q] == s[j]
                           && (p < q <==> !less(s[j], s[i]))
  {
    assert s[i] in multiset(a) && s[j] in multiset(a);
    var p :| 0 <= p < |a| && a[p] == s[i];
    var q :| 0 <= q < |a| && a[q] == s[j];
    GoesIs(s, less, i, j);
    if q < p {
      assert Going(s, less)(a[q], a[p]) && !Going(s, less)(a[p], a[q]);
    } else {
      assert Going(s, less)(a[p], a[q]);
    }
  }
}
