/**
 * The sort view of `_sortWorkouts`: a copy of the list ordered by date (the
 * numeric id), distance or duration, ascending or descending. The copy is
 * ordered as `Array.prototype.sort` orders it, stably; a descending comparator
 * `b[key] - a[key]` is an ascending sort on the negated key.
 */
module Sorting {
  import opened Decimal
  import opened Workouts

  /** The `sortType` select: 'date', 'distance' or 'duration'. */
  datatype SortField = ByDate | ByDistance | ByDuration

  /** The `sort` select: 'asc' or 'dsc'. */
  datatype Direction = Asc | Dsc

  /** The number each comparator subtracts: `a.id` (as a number), `a.distance` or `a.duration`. */
  function Key(w: Workout, field: SortField): real {
    match field
    case ByDate => IdNumber(w.id) as real
    case ByDistance => w.distance
    case ByDuration => w.duration
  }

  /** The number the sort puts in ascending order. */
  function Rank(field: SortField, dir: Direction): Workout -> real {
    w => if dir == Asc then Key(w, field) else -Key(w, field)
  }

  ghost predicate SortedBy<T>(s: seq<T>, rank: T -> real) {
    forall i, j :: 0 <= i < j < |s| ==> rank(s[i]) <= rank(s[j])
  }

  /** `x` placed after every element whose rank is not greater than its own. */
  function Insert<T>(x: T, s: seq<T>, rank: T -> real): (r: seq<T>)
    ensures multiset(r) == multiset(s) + multiset{x}
    ensures |r| == |s| + 1
  {
    if s == [] then [x]
    else if rank(x) < rank(s[0]) then [x] + s
    else
      assert s == [s[0]] + s[1..];
      [s[0]] + Insert(x, s[1..], rank)
  }

  /** Inserting into a sorted sequence keeps it sorted. */
  lemma {:induction false} InsertSorted<T>(x: T, s: seq<T>, rank: T -> real)
    requires SortedBy(s, rank)
    ensures SortedBy(Insert(x, s, rank), rank)
  {
    if s != [] && rank(x) >= rank(s[0]) {
      var t := Insert(x, s[1..], rank);
      InsertSorted(x, s[1..], rank);
      forall k | 0 <= k < |t|
        ensures rank(s[0]) <= rank(t[k])
      {
        assert t[k] in multiset(t);
        if t[k] != x {
          assert t[k] in multiset(s[1..]);
          var m :| 0 <= m < |s[1..]| && s[1..][m] == t[k];
          assert s[m + 1] == t[k];
        }
      }
    }
  }

  /** A stable insertion sort: the elements in order of rank, ties in their original order. */
  function SortBy<T>(s: seq<T>, rank: T -> real): (r: seq<T>)
    ensures multiset(r) == multiset(s)
    ensures |r| == |s|
    ensures SortedBy(r, rank)
  {
    if s == [] then []
    else
      var init, last := s[..|s| - 1], s[|s| - 1];
      assert s == init + [last];
      var sorted := SortBy(init, rank);
      InsertSorted(last, sorted, rank);
      Insert(last, sorted, rank)
  }

  /** The elements of `s` whose rank is `v`, in their order in `s`. */
  function WithRank<T>(s: seq<T>, rank: T -> real, v: real): seq<T> {
    if s == [] then []
    else (if rank(s[0]) == v then [s[0]] else []) + WithRank(s[1..], rank, v)
  }

  lemma {:induction false} WithRankAppend<T>(a: seq<T>, b: seq<T>, rank: T -> real, v: real)
    ensures WithRank(a + b, rank, v) == WithRank(a, rank, v) + WithRank(b, rank, v)
  {
    if a == [] {
      assert a + b == b;
    } else {
      assert (a + b)[0] == a[0];
      assert (a + b)[1..] == a[1..] + b;
      WithRankAppend(a[1..], b, rank, v);
      assert WithRank(a + b, rank, v) == (if rank(a[0]) == v then [a[0]] else []) + WithRank(a[1..] + b, rank, v);
    }
  }

  lemma {:induction false} WithRankAbove<T>(s: seq<T>, rank: T -> real, v: real)
    requires forall k :: 0 <= k < |s| ==> v < rank(s[k])
    ensures WithRank(s, rank, v) == []
  {
    if s != [] {
      WithRankAbove(s[1..], rank, v);
    }
  }

  lemma WithRankSingle<T>(x: T, rank: T -> real, v: real)
    ensures WithRank([x], rank, v) == if rank(x) == v then [x] else []
  {
    assert [x][1..] == [];
  }

  lemma {:induction false} InsertStable<T>(x: T, s: seq<T>, rank: T -> real, v: real)
    requires SortedBy(s, rank)
    ensures WithRank(Insert(x, s, rank), rank, v) == WithRank(s, rank, v) + WithRank([x], rank, v)
  {
    WithRankSingle(x, rank, v);
    if s == [] {
    } else if rank(x) < rank(s[0]) {
      assert ([x] + s)[1..] == s;
      assert WithRank([x] + s, rank, v) == WithRank([x], rank, v) + WithRank(s, rank, v);
      if rank(x) == v {
        WithRankAbove(s, rank, v);
      }
    } else {
      var t := Insert(x, s[1..], rank);
      assert ([s[0]] + t)[1..] == t;
      InsertStable(x, s[1..], rank, v);
      assert WithRank([s[0]] + t, rank, v) == (if rank(s[0]) == v then [s[0]] else []) + WithRank(t, rank, v);
    }
  }

  /** Stability: the elements of any one rank keep their original relative order. */
  lemma {:induction false} SortByStable<T>(s: seq<T>, rank: T -> real, v: real)
    ensures WithRank(SortBy(s, rank), rank, v) == WithRank(s, rank, v)
  {
    if s != [] {
      var init, last := s[..|s| - 1], s[|s| - 1];
      SortByStable(init, rank, v);
      InsertStable(last, SortBy(init, rank), rank, v);
      assert s == init + [last];
      WithRankAppend(init, [last], rank, v);
    }
  }

  /** The list `_sortWorkouts` renders; the store itself is not touched. */
  function SortView(ws: seq<Workout>, field: SortField, dir: Direction): seq<Workout> {
    SortBy(ws, Rank(field, dir))
  }

  /**
   * The view is a permutation of the store, non-decreasing in the key for 'asc'
   * and non-increasing for 'dsc'.
   */
  lemma SortViewOrdered(ws: seq<Workout>, field: SortField, dir: Direction)
    ensures multiset(SortView(ws, field, dir)) == multiset(ws)
    ensures dir == Asc ==> forall i, j :: 0 <= i < j < |ws| ==>
      Key(SortView(ws, field, dir)[i], field) <= Key(SortView(ws, field, dir)[j], field)
    ensures dir == Dsc ==> forall i, j :: 0 <= i < j < |ws| ==>
      Key(SortView(ws, field, dir)[i], field) >= Key(SortView(ws, field, dir)[j], field)
  {
    var v := SortView(ws, field, dir);
    forall i, j | 0 <= i < j < |ws|
      ensures Rank(field, dir)(v[i]) <= Rank(field, dir)(v[j])
    {
    }
  }

  /** Workouts with equal keys appear in the view in their store order. */
  lemma SortViewKeepsTies(ws: seq<Workout>, field: SortField, dir: Direction, v: real)
    ensures WithRank(SortView(ws, field, dir), Rank(field, dir), v) == WithRank(ws, Rank(field, dir), v)
  {
    SortByStable(ws, Rank(field, dir), v);
  }

  /**
   * The 'date' sort as written compares the ten-digit id, which is the clock
   * modulo 10^10 ms: a workout created just after the counter wraps (every
   * 10^10 ms, about 116 days) sorts before an older one.
   */
  lemma DateViewInvertsCreationOrder(w1: Workout, w2: Workout)
    requires w1.created == 9_999_999_999 && w1.id == IdFromClock(w1.created)
    requires w2.created == 10_000_000_000 && w2.id == IdFromClock(w2.created)
    ensures w1.created < w2.created
    ensures SortView([w1, w2], ByDate, Asc) == [w2, w1]
  {
    assert Pow10(10) == 10_000_000_000;
    assert Key(w1, ByDate) == 9_999_999_999 as real;
    assert Key(w2, ByDate) == 0 as real;
    var rank := Rank(ByDate, Asc);
    assert [w1, w2][..1] == [w1];
    assert SortBy([w1], rank) == [w1] by {
      assert [w1][..0] == [];
    }
  }

  /**
   * The key the sort evidently means: for 'date', the whole clock reading the
   * id was cut from, which edits carry over with the id.
   */
  function IntendedKey(w: Workout, field: SortField): real {
    if field == ByDate then w.created as real else Key(w, field)
  }

  function IntendedRank(field: SortField, dir: Direction): Workout -> real {
    w => if dir == Asc then IntendedKey(w, field) else -IntendedKey(w, field)
  }

  /** The list `_sortWorkouts` evidently means to render. */
  function IntendedSortView(ws: seq<Workout>, field: SortField, dir: Direction): seq<Workout> {
    SortBy(ws, IntendedRank(field, dir))
  }

  /**
   * The intended view is a permutation of the store ordered by the intended key;
   * for 'date' that is chronological order, whatever the clock values.
   */
  lemma IntendedSortViewOrdered(ws: seq<Workout>, field: SortField, dir: Direction)
    ensures multiset(IntendedSortView(ws, field, dir)) == multiset(ws)
    ensures dir == Asc ==> forall i, j :: 0 <= i < j < |ws| ==>
      IntendedKey(IntendedSortView(ws, field, dir)[i], field) <= IntendedKey(IntendedSortView(ws, field, dir)[j], field)
    ensures dir == Dsc ==> forall i, j :: 0 <= i < j < |ws| ==>
      IntendedKey(IntendedSortView(ws, field, dir)[i], field) >= IntendedKey(IntendedSortView(ws, field, dir)[j], field)
  {
    var v := IntendedSortView(ws, field, dir);
    forall i, j | 0 <= i < j < |ws|
      ensures IntendedRank(field, dir)(v[i]) <= IntendedRank(field, dir)(v[j])
    {
    }
  }

  /** Workouts with equal intended keys appear in the intended view in their store order. */
  lemma IntendedSortViewKeepsTies(ws: seq<Workout>, field: SortField, dir: Direction, v: real)
    ensures WithRank(IntendedSortView(ws, field, dir), IntendedRank(field, dir), v) == WithRank(ws, IntendedRank(field, dir), v)
  {
    SortByStable(ws, IntendedRank(field, dir), v);
  }

  lemma {:induction false} InsertSameRank<T>(x: T, s: seq<T>, r1: T -> real, r2: T -> real)
    requires forall y :: r1(y) == r2(y)
    ensures Insert(x, s, r1) == Insert(x, s, r2)
  {
    if s != [] && r1(x) >= r1(s[0]) {
      InsertSameRank(x, s[1..], r1, r2);
    }
  }

  /** Sorting depends only on the values of the rank, not on how it is written. */
  lemma {:induction false} SortBySameRank<T>(s: seq<T>, r1: T -> real, r2: T -> real)
    requires forall y :: r1(y) == r2(y)
    ensures SortBy(s, r1) == SortBy(s, r2)
  {
    if s != [] {
      SortBySameRank(s[..|s| - 1], r1, r2);
      InsertSameRank(s[|s| - 1], SortBy(s[..|s| - 1], r1), r1, r2);
    }
  }

  lemma {:induction false} InsertSameOrder<T>(x: T, s: seq<T>, r1: T -> real, r2: T -> real)
    requires forall y :: y in s ==> (r1(x) < r1(y) <==> r2(x) < r2(y))
    ensures Insert(x, s, r1) == Insert(x, s, r2)
  {
    if s != [] && r1(x) >= r1(s[0]) {
      assert s[0] in s;
      forall y | y in s[1..]
        ensures r1(x) < r1(y) <==> r2(x) < r2(y)
      {
        assert y in s;
      }
      InsertSameOrder(x, s[1..], r1, r2);
    }
  }

  /** Sorting depends only on how the rank orders the elements, not on its values. */
  lemma {:induction false} SortBySameOrder<T>(s: seq<T>, r1: T -> real, r2: T -> real)
    requires forall a, b :: a in s && b in s ==> (r1(a) < r1(b) <==> r2(a) < r2(b))
    ensures SortBy(s, r1) == SortBy(s, r2)
  {
    if s != [] {
      var init, last := s[..|s| - 1], s[|s| - 1];
      assert s == init + [last];
      SortBySameOrder(init, r1, r2);
      var sorted := SortBy(init, r1);
      forall y | y in sorted
        ensures r1(last) < r1(y) <==> r2(last) < r2(y)
      {
        assert y in multiset(sorted);
        assert y in init;
      }
      InsertSameOrder(last, sorted, r1, r2);
    }
  }

  /**
   * While every creation time lies in one window of 10^10 ms, the written
   * 'date' view, which compares ids, is exactly the view in creation order.
   */
  lemma DateViewInWindowIsChronological(ws: seq<Workout>, dir: Direction, k: nat)
    requires forall w :: w in ws ==> w.id == IdFromClock(w.created) && w.created / Pow10(10) == k
    ensures SortView(ws, ByDate, dir) == IntendedSortView(ws, ByDate, dir)
  {
    forall a, b | a in ws && b in ws
      ensures Rank(ByDate, dir)(a) < Rank(ByDate, dir)(b) <==> IntendedRank(ByDate, dir)(a) < IntendedRank(ByDate, dir)(b)
    {
      var shift := (k * Pow10(10)) as real;
      IdNumberInWindow(a.created, k);
      IdNumberInWindow(b.created, k);
      assert Key(a, ByDate) == IntendedKey(a, ByDate) - shift;
      assert Key(b, ByDate) == IntendedKey(b, ByDate) - shift;
    }
    SortBySameOrder(ws, Rank(ByDate, dir), IntendedRank(ByDate, dir));
  }

  /** The written and the intended views agree on 'distance' and 'duration'. */
  lemma IntendedAgreesOffDate(ws: seq<Workout>, field: SortField, dir: Direction)
    requires field != ByDate
    ensures IntendedSortView(ws, field, dir) == SortView(ws, field, dir)
  {
    SortBySameRank(ws, IntendedRank(field, dir), Rank(field, dir));
  }

  /** The pair that the written 'date' sort inverts comes out oldest first. */
  lemma IntendedDateViewKeepsPairOrder(w1: Workout, w2: Workout)
    requires w1.created < w2.created
    ensures IntendedSortView([w1, w2], ByDate, Asc) == [w1, w2]
  {
    assert [w1, w2][..1] == [w1];
    assert SortBy([w1], IntendedRank(ByDate, Asc)) == [w1] by {
      assert [w1][..0] == [];
    }
  }
}
