/** Sequence utilities shared by the loader and the report computations:
    an Option type, order-preserving filtering, de-duplication in
    first-appearance order and a deterministic insertion sort. */
module Collections {

  datatype Option<+T> = None | Some(value: T)

  /** True when no element occurs twice in `s`. */
  predicate Distinct<T(==)>(s: seq<T>) {
    forall i, j :: 0 <= i < j < |s| ==> s[i] != s[j]
  }

  /** Position of the first occurrence of `x` in `s`. */
  function IndexOf<T(==)>(s: seq<T>, x: T): (k: nat)
    requires x in s
    ensures k < |s| && s[k] == x
    ensures forall i :: 0 <= i < k ==> s[i] != x
  {
    if s[0] == x then 0 else 1 + IndexOf(s[1..], x)
  }

  /** Position of the first occurrence of `x` in `s`, or `|s|` when `x`
      does not occur. */
  function FirstIndex<T(==)>(s: seq<T>, x: T): (k: nat)
    ensures k <= |s|
    ensures k < |s| <==> x in s
    ensures k < |s| ==> s[k] == x
    ensures forall i :: 0 <= i < k ==> s[i] != x
  {
    if |s| == 0 then 0 else if s[0] == x then 0 else 1 + FirstIndex(s[1..], x)
  }

  /** The elements of `s` satisfying `keep`, in their original order
      (the boolean-mask selection of a data frame). */
  function Filter<T(==, !new)>(s: seq<T>, keep: T -> bool): (r: seq<T>)
    ensures |r| <= |s|
    ensures forall x :: multiset(r)[x] == if keep(x) then multiset(s)[x] else 0
    ensures forall x :: x in r <==> x in s && keep(x)
  {
    if |s| == 0 then []
    else
      assert s == [s[0]] + s[1..];
      (if keep(s[0]) then [s[0]] else []) + Filter(s[1..], keep)
  }

  /** Filtering distributes over concatenation: the kept elements keep their
      relative order. */
  lemma {:induction false} FilterAppend<T(!new)>(a: seq<T>, b: seq<T>, keep: T -> bool)
    ensures Filter(a + b, keep) == Filter(a, keep) + Filter(b, keep)
  {
    if |a| == 0 {
      assert a + b == b;
    } else {
      var head := if keep(a[0]) then [a[0]] else [];
      calc {
        Filter(a + b, keep);
      == { assert (a + b)[0] == a[0] && (a + b)[1..] == a[1..] + b; }
        head + Filter(a[1..] + b, keep);
      == { FilterAppend(a[1..], b, keep); }
        head + (Filter(a[1..], keep) + Filter(b, keep));
      ==
        (head + Filter(a[1..], keep)) + Filter(b, keep);
      }
    }
  }

  /** A filter that keeps every element is the identity. */
  lemma {:induction false} FilterKeepAll<T(!new)>(s: seq<T>, keep: T -> bool)
    requires forall i :: 0 <= i < |s| ==> keep(s[i])
    ensures Filter(s, keep) == s
  {
    if |s| > 0 {
      FilterKeepAll(s[1..], keep);
      assert [s[0]] + s[1..] == s;
    }
  }

  /** Over a sequence without repetitions, the kept elements appear in the
      same relative order as in the input. */
  lemma {:induction false} FilterKeepsOrder<T(!new)>(s: seq<T>, keep: T -> bool)
    requires Distinct(s)
    ensures forall i, j :: 0 <= i < j < |Filter(s, keep)| ==>
      IndexOf(s, Filter(s, keep)[i]) < IndexOf(s, Filter(s, keep)[j])
  {
    if |s| > 0 {
      var tail := Filter(s[1..], keep);
      FilterKeepsOrder(s[1..], keep);
      forall x | x in s[1..]
        ensures IndexOf(s, x) == 1 + IndexOf(s[1..], x)
      {
        assert s[0] != x;
      }
      assert s[0] !in tail;
    }
  }

  /** The distinct elements of `s`, each at the place of its first
      occurrence (the `unique()` of a data frame column). */
  function Dedup<T(==, !new)>(s: seq<T>): (r: seq<T>)
    ensures Distinct(r)
    ensures forall x :: x in r <==> x in s
  {
    if |s| == 0 then []
    else
      var d := Dedup(s[..|s| - 1]);
      assert s == s[..|s| - 1] + [s[|s| - 1]];
      if s[|s| - 1] in d then d else d + [s[|s| - 1]]
  }

  /** `le` is total and transitive, so that sorting by it is meaningful. */
  ghost predicate TotalPreorder<T(!new)>(le: (T, T) -> bool) {
    && (forall a, b :: le(a, b) || le(b, a))
    && (forall a, b, c :: le(a, b) && le(b, c) ==> le(a, c))
  }

  /** Every earlier element is `le` every later one. */
  predicate SortedBy<T>(s: seq<T>, le: (T, T) -> bool) {
    forall i, j :: 0 <= i < j < |s| ==> le(s[i], s[j])
  }

  /** Places `x` before the first element it is `le`. */
  function InsertBy<T(==)>(x: T, s: seq<T>, le: (T, T) -> bool): (r: seq<T>)
    ensures multiset(r) == multiset(s) + multiset{x}
  {
    if |s| == 0 then [x]
    else if le(x, s[0]) then [x] + s
    else
      assert s == [s[0]] + s[1..];
      [s[0]] + InsertBy(x, s[1..], le)
  }

  /** Insertion sort by `le`. It is stable: elements `le` cannot tell apart
      keep their input order (see `SortByStable`). */
  function SortBy<T(==)>(s: seq<T>, le: (T, T) -> bool): (r: seq<T>)
    ensures multiset(r) == multiset(s)
  {
    if |s| == 0 then []
    else
      assert s == [s[0]] + s[1..];
      InsertBy(s[0], SortBy(s[1..], le), le)
  }

  /** A head `le` every element of a sorted list keeps it sorted. */
  lemma SortedCons<T>(h: T, t: seq<T>, le: (T, T) -> bool)
    requires SortedBy(t, le)
    requires forall y :: y in t ==> le(h, y)
    ensures SortedBy([h] + t, le)
  {
    var r := [h] + t;
    forall i, j | 0 <= i < j < |r|
      ensures le(r[i], r[j])
    {
      if i == 0 {
        assert r[j] in t;
      } else {
        assert r[i] == t[i - 1] && r[j] == t[j - 1];
      }
    }
  }

  lemma {:induction false} InsertBySorted<T(!new)>(x: T, s: seq<T>, le: (T, T) -> bool)
    requires TotalPreorder(le)
    requires SortedBy(s, le)
    ensures SortedBy(InsertBy(x, s, le), le)
  {
    if |s| == 0 {
    } else if le(x, s[0]) {
      forall y | y in s
        ensures le(x, y)
      {
        var k :| 0 <= k < |s| && s[k] == y;
        if k > 0 {
          assert le(s[0], s[k]);
        }
      }
      SortedCons(x, s, le);
    } else {
      var tail := InsertBy(x, s[1..], le);
      InsertBySorted(x, s[1..], le);
      forall y | y in tail
        ensures le(s[0], y)
      {
        assert y in multiset(tail);
        if y != x {
          assert y in s[1..];
        }
      }
      SortedCons(s[0], tail, le);
    }
  }

  /** The result of `SortBy` is ordered by `le`. */
  lemma {:induction false} SortBySorted<T(!new)>(s: seq<T>, le: (T, T) -> bool)
    requires TotalPreorder(le)
    ensures SortedBy(SortBy(s, le), le)
  {
    if |s| > 0 {
      SortBySorted(s[1..], le);
      InsertBySorted(s[0], SortBy(s[1..], le), le);
    }
  }

  /** A permutation of a sequence without repetitions has none either. */
  lemma {:induction false} SortByDistinct<T>(s: seq<T>, le: (T, T) -> bool)
    requires Distinct(s)
    ensures Distinct(SortBy(s, le))
  {
    if |s| > 0 {
      SortByDistinct(s[1..], le);
      assert s[0] !in multiset(s[1..]);
      assert s[0] !in SortBy(s[1..], le) by {
        assert s[0] !in multiset(SortBy(s[1..], le));
      }
      InsertByDistinct(s[0], SortBy(s[1..], le), le);
    }
  }

  lemma {:induction false} InsertByDistinct<T>(x: T, s: seq<T>, le: (T, T) -> bool)
    requires Distinct(s)
    requires x !in s
    ensures Distinct(InsertBy(x, s, le))
  {
    if |s| > 0 && !le(x, s[0]) {
      InsertByDistinct(x, s[1..], le);
      var tail := InsertBy(x, s[1..], le);
      assert s[0] !in tail by {
        assert s[0] !in multiset(s[1..]);
        assert s[0] !in multiset(tail);
      }
      var r := [s[0]] + tail;
      forall i, j | 0 <= i < j < |r|
        ensures r[i] != r[j]
      {
        if i == 0 {
          assert r[j] in tail;
        } else {
          assert r[i] == tail[i - 1] && r[j] == tail[j - 1];
        }
      }
    }
  }

  /** `Dedup` keeps first-appearance order: of two distinct elements, the one
      that occurs first in `s` comes first. */
  lemma {:induction false} DedupFirstOrder<T(!new)>(s: seq<T>)
    ensures forall i, j :: 0 <= i < j < |Dedup(s)| ==> FirstIndex(s, Dedup(s)[i]) < FirstIndex(s, Dedup(s)[j])
  {
    if |s| > 0 {
      var p := s[..|s| - 1];
      var last := s[|s| - 1];
      DedupFirstOrder(p);
      var d := Dedup(p);
      assert s == p + [last];
      forall x | x in p
        ensures FirstIndex(s, x) == FirstIndex(p, x)
      {
        var k := FirstIndex(p, x);
        assert s[k] == x;
        assert FirstIndex(s, x) <= k;
        assert FirstIndex(s, x) < |p| ==> p[FirstIndex(s, x)] == x;
      }
      if last !in d {
        assert last !in p;
        assert FirstIndex(s, last) == |p| by {
          assert s[|p|] == last;
          assert forall i :: 0 <= i < |p| ==> s[i] != last;
        }
        forall i | 0 <= i < |d|
          ensures FirstIndex(s, d[i]) < FirstIndex(s, last)
        {
          assert d[i] in p;
        }
      }
    }
  }

  /** Of two elements `le` cannot tell apart, the one of lower rank comes
      first (and an element after one it is `le` to ranks above it). */
  predicate TiesRanked<T>(s: seq<T>, le: (T, T) -> bool, rank: T -> int) {
    forall i, j :: 0 <= i < j < |s| && le(s[j], s[i]) ==> rank(s[i]) < rank(s[j])
  }

  /** A head that ranks below every later element tied with it keeps a
      list's ties in rank order. */
  lemma TiesRankedCons<T>(h: T, t: seq<T>, le: (T, T) -> bool, rank: T -> int)
    requires TiesRanked(t, le, rank)
    requires forall y :: y in t && le(y, h) ==> rank(h) < rank(y)
    ensures TiesRanked([h] + t, le, rank)
  {
    var r := [h] + t;
    forall i, j | 0 <= i < j < |r| && le(r[j], r[i])
      ensures rank(r[i]) < rank(r[j])
    {
      if i == 0 {
        assert r[j] in t;
      } else {
        assert r[i] == t[i - 1] && r[j] == t[j - 1];
      }
    }
  }

  /** Inserting `x` ahead of every element that ranks above it keeps ties in
      rank order. */
  lemma {:induction false} InsertByStable<T>(x: T, s: seq<T>, le: (T, T) -> bool, rank: T -> int)
    requires TiesRanked(s, le, rank)
    requires forall y :: y in s ==> rank(x) < rank(y)
    ensures TiesRanked(InsertBy(x, s, le), le, rank)
  {
    if |s| > 0 && !le(x, s[0]) {
      var tail := InsertBy(x, s[1..], le);
      InsertByStable(x, s[1..], le, rank);
      forall y | y in tail && le(y, s[0])
        ensures rank(s[0]) < rank(y)
      {
        assert y in multiset(tail);
        if y != x {
          var m :| 0 <= m < |s[1..]| && s[1..][m] == y;
          assert s[m + 1] == y;
        }
      }
      TiesRankedCons(s[0], tail, le, rank);
    } else if |s| > 0 {
      TiesRankedCons(x, s, le, rank);
    }
  }

  /** Insertion sort is stable: over an input listed in increasing rank,
      elements the order cannot tell apart come out in rank order. */
  lemma {:induction false} SortByStable<T>(s: seq<T>, le: (T, T) -> bool, rank: T -> int)
    requires forall i, j :: 0 <= i < j < |s| ==> rank(s[i]) < rank(s[j])
    ensures TiesRanked(SortBy(s, le), le, rank)
  {
    if |s| > 0 {
      SortByStable(s[1..], le, rank);
      var rest := SortBy(s[1..], le);
      forall y | y in rest
        ensures rank(s[0]) < rank(y)
      {
        assert y in multiset(rest);
        assert y in s[1..];
        var m :| 0 <= m < |s[1..]| && s[1..][m] == y;
        assert s[m + 1] == y;
      }
      InsertByStable(s[0], rest, le, rank);
    }
  }
}
