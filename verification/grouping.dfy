/** Group-by-sum over (key, value) entries, the `groupby(...)[col].sum()`
    of the report pages. Groups come out in first-encounter order; every
    promise below is about which groups exist and what they hold, so it
    survives any later reordering. */
module Grouping {
  import opened Collections

  datatype Group<K> = Group(key: K, total: real)

  /** Sum of all values. */
  function SumValues<K>(es: seq<(K, real)>): real {
    if |es| == 0 then 0.0 else SumValues(es[..|es| - 1]) + es[|es| - 1].1
  }

  /** Sum of the values whose key is `k`: the reference a group total must meet. */
  function SumFor<K(==)>(es: seq<(K, real)>, k: K): real {
    if |es| == 0 then 0.0
    else SumFor(es[..|es| - 1], k) + (if es[|es| - 1].0 == k then es[|es| - 1].1 else 0.0)
  }

  /** The keys occurring among the entries. */
  function KeySet<K>(es: seq<(K, real)>): set<K> {
    if |es| == 0 then {} else KeySet(es[..|es| - 1]) + {es[|es| - 1].0}
  }

  function GroupKeys<K>(g: seq<Group<K>>): set<K> {
    set x | x in g :: x.key
  }

  function SumTotals<K>(g: seq<Group<K>>): real {
    if |g| == 0 then 0.0 else g[0].total + SumTotals(g[1..])
  }

  predicate DistinctKeys<K(==)>(g: seq<Group<K>>) {
    forall i, j :: 0 <= i < j < |g| ==> g[i].key != g[j].key
  }

  /** `g` is the grouping of `es`: one group per distinct key of `es` and
      nothing else, each holding the sum of that key's values. */
  ghost predicate IsGrouping<K>(g: seq<Group<K>>, es: seq<(K, real)>) {
    && DistinctKeys(g)
    && GroupKeys(g) == KeySet(es)
    && forall x :: x in g ==> x.total == SumFor(es, x.key)
  }

  /** Total of the first group keyed `k`, zero if there is none. */
  function Lookup<K(==)>(g: seq<Group<K>>, k: K): real {
    if |g| == 0 then 0.0 else if g[0].key == k then g[0].total else Lookup(g[1..], k)
  }

  lemma {:induction false} LookupAbsent<K>(g: seq<Group<K>>, k: K)
    requires k !in GroupKeys(g)
    ensures Lookup(g, k) == 0.0
  {
    if |g| > 0 {
      assert g[0] in g;
      assert GroupKeys(g[1..]) <= GroupKeys(g) by {
        forall y | y in GroupKeys(g[1..]) ensures y in GroupKeys(g) {
          var x :| x in g[1..] && x.key == y;
          assert x in g;
        }
      }
      LookupAbsent(g[1..], k);
    }
  }

  lemma {:induction false} LookupPresent<K>(g: seq<Group<K>>, x: Group<K>)
    requires DistinctKeys(g)
    requires x in g
    ensures Lookup(g, x.key) == x.total
  {
    if g[0] != x {
      assert x in g[1..];
      LookupPresent(g[1..], x);
    }
  }

  lemma SumForAbsent<K>(es: seq<(K, real)>, k: K)
    requires k !in KeySet(es)
    ensures SumFor(es, k) == 0.0
  {
  }

  /** Adds `v` to the group keyed `k`, opening a new group at the end when
      there is none. */
  function Accumulate<K(==)>(g: seq<Group<K>>, k: K, v: real): (r: seq<Group<K>>)
    requires DistinctKeys(g)
    ensures DistinctKeys(r)
    ensures SumTotals(r) == SumTotals(g) + v
    ensures GroupKeys(r) == GroupKeys(g) + {k}
    ensures forall x :: x in r ==> if x.key == k then x.total == Lookup(g, k) + v else x in g
  {
    if |g| == 0 then [Group(k, v)]
    else if g[0].key == k then
      var r := [Group(k, g[0].total + v)] + g[1..];
      assert g == [g[0]] + g[1..];
      assert forall x :: x in g[1..] ==> x.key != k;
      r
    else
      var rest := Accumulate(g[1..], k, v);
      assert g == [g[0]] + g[1..];
      assert GroupKeys(g) == {g[0].key} + GroupKeys(g[1..]);
      assert GroupKeys([g[0]] + rest) == {g[0].key} + GroupKeys(rest);
      assert g[0].key !in GroupKeys(g[1..]);
      [g[0]] + rest
  }

  /** Group-by-sum, groups in the order their key first appears. */
  function GroupSum<K(==)>(es: seq<(K, real)>): (r: seq<Group<K>>)
    ensures DistinctKeys(r)
  {
    if |es| == 0 then []
    else Accumulate(GroupSum(es[..|es| - 1]), es[|es| - 1].0, es[|es| - 1].1)
  }

  /** Group-by-sum yields exactly the grouping of its input, and the group
      totals add up to the total of all values. */
  lemma {:induction false} GroupSumIsGrouping<K>(es: seq<(K, real)>)
    ensures IsGrouping(GroupSum(es), es)
    ensures SumTotals(GroupSum(es)) == SumValues(es)
  {
    if |es| > 0 {
      var prefix := es[..|es| - 1];
      var (k, v) := es[|es| - 1];
      var g := GroupSum(prefix);
      GroupSumIsGrouping(prefix);
      var r := Accumulate(g, k, v);
      assert Lookup(g, k) == SumFor(prefix, k) by {
        if k in GroupKeys(g) {
          var x :| x in g && x.key == k;
          LookupPresent(g, x);
        } else {
          LookupAbsent(g, k);
          SumForAbsent(prefix, k);
        }
      }
    }
  }

  lemma {:induction false} InsertByTotal<K>(x: Group<K>, s: seq<Group<K>>, le: (Group<K>, Group<K>) -> bool)
    ensures SumTotals(InsertBy(x, s, le)) == x.total + SumTotals(s)
  {
    if |s| > 0 && !le(x, s[0]) {
      InsertByTotal(x, s[1..], le);
    }
  }

  lemma {:induction false} InsertByKeys<K>(x: Group<K>, s: seq<Group<K>>, le: (Group<K>, Group<K>) -> bool)
    requires DistinctKeys(s)
    requires forall y :: y in s ==> y.key != x.key
    ensures DistinctKeys(InsertBy(x, s, le))
  {
    if |s| > 0 && !le(x, s[0]) {
      InsertByKeys(x, s[1..], le);
      var tail := InsertBy(x, s[1..], le);
      forall y | y in tail
        ensures y.key != s[0].key
      {
        assert y in multiset(tail);
        if y != x {
          assert y in s[1..];
        }
      }
      var r := [s[0]] + tail;
      forall i, j | 0 <= i < j < |r|
        ensures r[i].key != r[j].key
      {
        if i == 0 {
          assert r[j] in tail;
        } else {
          assert r[i] == tail[i - 1] && r[j] == tail[j - 1];
        }
      }
    }
  }

  /** Sorting a grouping, by any order, leaves a grouping of the same
      entries with the same total. */
  lemma {:induction false} SortByGrouping<K>(g: seq<Group<K>>, es: seq<(K, real)>, le: (Group<K>, Group<K>) -> bool)
    requires IsGrouping(g, es)
    ensures IsGrouping(SortBy(g, le), es)
    ensures SumTotals(SortBy(g, le)) == SumTotals(g)
  {
    SortByGroups(g, le);
    var r := SortBy(g, le);
    forall x
      ensures x in r <==> x in g
    {
      assert x in r <==> x in multiset(r);
      assert x in g <==> x in multiset(g);
    }
    assert GroupKeys(r) == GroupKeys(g);
  }

  lemma {:induction false} SortByGroups<K>(g: seq<Group<K>>, le: (Group<K>, Group<K>) -> bool)
    requires DistinctKeys(g)
    ensures DistinctKeys(SortBy(g, le))
    ensures SumTotals(SortBy(g, le)) == SumTotals(g)
  {
    if |g| > 0 {
      assert g == [g[0]] + g[1..];
      SortByGroups(g[1..], le);
      var rest := SortBy(g[1..], le);
      forall y | y in rest
        ensures y.key != g[0].key
      {
        assert y in multiset(rest);
        assert y in g[1..];
      }
      InsertByKeys(g[0], rest, le);
      InsertByTotal(g[0], rest, le);
    }
  }

  /** Dropping groups never makes two keys equal. */
  lemma {:induction false} FilterDistinctKeys<K(!new)>(g: seq<Group<K>>, keep: Group<K> -> bool)
    requires DistinctKeys(g)
    ensures DistinctKeys(Filter(g, keep))
  {
    if |g| > 0 {
      FilterDistinctKeys(g[1..], keep);
      var tail := Filter(g[1..], keep);
      forall y | y in tail
        ensures y.key != g[0].key
      {
        assert y in g[1..];
      }
      var r := (if keep(g[0]) then [g[0]] else []) + tail;
      forall i, j | 0 <= i < j < |r|
        ensures r[i].key != r[j].key
      {
        if keep(g[0]) {
          if i == 0 {
            assert r[j] in tail;
          } else {
            assert r[i] == tail[i - 1] && r[j] == tail[j - 1];
          }
        }
      }
    }
  }
}
