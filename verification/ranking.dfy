/**
  The top-10 charts: `groupby(key)[col].sum().nlargest(10)`. Groups come out of
  the group-by in ascending key order; `nlargest` orders them by descending
  total and keeps the earlier group of a tie, so the ranking is by total,
  largest first, then by key.
 */
module Ranking {
  import opened Admissions
  import opened KeyOrder
  import opened Filtering

  /** How many groups each ranked chart keeps. */
  const TopCount: nat := 10

  /** One group of the group-by: its key and the sum of its counts. */
  datatype Group = Group(key: string, total: nat)

  /** Sum of `col` over the rows whose `key` column is `k`, missing values skipped. */
  function GroupTotal(rows: seq<Row>, key: Column, k: string, col: CountColumn): nat
  {
    if rows == [] then 0
    else (if Cell(rows[0], key) == k then Contribution(CountCell(rows[0], col)) else 0)
         + GroupTotal(rows[1..], key, k, col)
  }

  /** A group's total is the column total of the table filtered to its key. */
  lemma {:induction false} GroupTotalIsFilteredTotal(rows: seq<Row>, key: Column, k: string, col: CountColumn)
    ensures GroupTotal(rows, key, k, col) == Total(FilterData(rows, key, [k]), col)
  {
    if rows != [] {
      GroupTotalIsFilteredTotal(rows[1..], key, k, col);
    }
  }

  /** The distinct values of the key column. */
  function KeySet(rows: seq<Row>, key: Column): set<string>
  {
    set r | r in rows :: Cell(r, key)
  }

  /** Adds a key to a strictly ascending sequence of keys, keeping it so. */
  function InsertKey(k: string, ks: seq<string>): (r: seq<string>)
    requires StrictlySorted(ks)
    ensures StrictlySorted(r)
    ensures forall x :: x in r <==> x == k || x in ks
  {
    if ks == [] then [k]
    else if k == ks[0] then ks
    else if Less(k, ks[0]) then
      assert forall j :: 0 <= j < |ks| ==> Less(k, ks[j]) by {
        forall j | 0 <= j < |ks| ensures Less(k, ks[j]) {
          if j > 0 {
            LessTransitive(k, ks[0], ks[j]);
          }
        }
      }
      [k] + ks
    else
      LessTotal(k, ks[0]);
      var rest := InsertKey(k, ks[1..]);
      assert forall x :: x in ks[1..] ==> Less(ks[0], x);
      [ks[0]] + rest
  }

  /** The group keys in the order the group-by emits them: ascending, each once. */
  function SortedKeys(rows: seq<Row>, key: Column): (ks: seq<string>)
    ensures StrictlySorted(ks)
    ensures forall x :: x in ks <==> x in KeySet(rows, key)
  {
    if rows == [] then []
    else
      assert KeySet(rows, key) == {Cell(rows[0], key)} + KeySet(rows[1..], key) by {
        assert rows == [rows[0]] + rows[1..];
      }
      InsertKey(Cell(rows[0], key), SortedKeys(rows[1..], key))
  }

  /** `groupby(key)[col].sum()`. */
  function GroupBy(rows: seq<Row>, key: Column, col: CountColumn): (g: seq<Group>)
    ensures |g| == |KeySet(rows, key)|
    ensures KeysAscending(g)
    ensures forall i :: 0 <= i < |g| ==>
      g[i].key in KeySet(rows, key) && g[i].total == GroupTotal(rows, key, g[i].key, col)
    ensures forall k :: k in KeySet(rows, key) ==> exists i :: 0 <= i < |g| && g[i].key == k
  {
    var ks := SortedKeys(rows, key);
    StrictlySortedCard(ks);
    assert (set k | k in ks) == KeySet(rows, key);
    var g := seq(|ks|, i requires 0 <= i < |ks| => Group(ks[i], GroupTotal(rows, key, ks[i], col)));
    assert forall k :: k in KeySet(rows, key) ==> exists i :: 0 <= i < |g| && g[i].key == k by {
      forall k | k in KeySet(rows, key) ensures exists i :: 0 <= i < |g| && g[i].key == k {
        var i :| 0 <= i < |ks| && ks[i] == k;
        assert g[i].key == k;
      }
    }
    g
  }

  predicate KeysAscending(g: seq<Group>)
  {
    forall i, j :: 0 <= i < j < |g| ==> Less(g[i].key, g[j].key)
  }

  /** `a` is ranked above `b`: a larger total, or the same total and an earlier key. */
  predicate Precedes(a: Group, b: Group)
  {
    a.total > b.total || (a.total == b.total && Less(a.key, b.key))
  }

  predicate RankedOrder(s: seq<Group>)
  {
    forall i, j :: 0 <= i < j < |s| ==> Precedes(s[i], s[j])
  }

  /** Stable insertion by descending total: `x` goes before the first group whose total is not larger. */
  function InsertByTotal(x: Group, l: seq<Group>): (r: seq<Group>)
    ensures multiset(r) == multiset(l) + multiset{x}
  {
    if l == [] then [x]
    else if x.total >= l[0].total then [x] + l
    else
      assert l == [l[0]] + l[1..];
      [l[0]] + InsertByTotal(x, l[1..])
  }

  /** A stable sort by descending total. */
  function SortByTotal(g: seq<Group>): (r: seq<Group>)
    ensures multiset(r) == multiset(g)
  {
    if g == [] then []
    else
      assert g == [g[0]] + g[1..];
      InsertByTotal(g[0], SortByTotal(g[1..]))
  }

  /** `nlargest(n)`: the first `n` groups by descending total, ties in input order. */
  function NLargest(g: seq<Group>, n: nat): seq<Group>
  {
    var s := SortByTotal(g);
    if n < |s| then s[..n] else s
  }

  /** One ranked chart's data: the ten groups with the largest totals. */
  function TopTen(rows: seq<Row>, key: Column, col: CountColumn): seq<Group>
  {
    NLargest(GroupBy(rows, key, col), TopCount)
  }

  lemma {:induction false} InsertByTotalRanked(x: Group, l: seq<Group>)
    requires RankedOrder(l)
    requires forall e :: e in l ==> Less(x.key, e.key)
    ensures RankedOrder(InsertByTotal(x, l))
  {
    if l != [] && x.total < l[0].total {
      assert RankedOrder(l[1..]);
      InsertByTotalRanked(x, l[1..]);
      var r := InsertByTotal(x, l);
      assert r == [l[0]] + InsertByTotal(x, l[1..]);
      forall e | e in InsertByTotal(x, l[1..]) ensures e == x || e in l[1..] {
        assert e in multiset(InsertByTotal(x, l[1..]));
      }
      forall i, j | 0 <= i < j < |r| ensures Precedes(r[i], r[j]) {
        if i == 0 {
          assert r[j] in InsertByTotal(x, l[1..]);
          if r[j] in l[1..] {
            var j' :| 1 <= j' < |l| && l[j'] == r[j];
            assert Precedes(l[0], l[j']);
          }
        }
      }
    }
  }

  lemma {:induction false} SortByTotalRanked(g: seq<Group>)
    requires KeysAscending(g)
    ensures RankedOrder(SortByTotal(g))
  {
    if g != [] {
      var rest := SortByTotal(g[1..]);
      assert KeysAscending(g[1..]);
      SortByTotalRanked(g[1..]);
      forall e | e in rest ensures Less(g[0].key, e.key) {
        assert e in multiset(g[1..]);
        var j :| 0 <= j < |g[1..]| && g[1..][j] == e;
        assert g[j + 1] == e;
      }
      InsertByTotalRanked(g[0], rest);
    }
  }

  /**
    `nlargest(n)` on groups in ascending key order: min(n, |g|) groups of the
    input, ranked, and every group left out is ranked below every group kept.
   */
  lemma NLargestSpec(g: seq<Group>, n: nat)
    requires KeysAscending(g)
    ensures |NLargest(g, n)| == if n < |g| then n else |g|
    ensures RankedOrder(NLargest(g, n))
    ensures forall x :: x in NLargest(g, n) ==> x in g
    ensures forall x :: x in g && x !in NLargest(g, n) ==>
      forall i :: 0 <= i < |NLargest(g, n)| ==> Precedes(NLargest(g, n)[i], x)
    ensures |g| <= n ==> multiset(NLargest(g, n)) == multiset(g)
  {
    var s := SortByTotal(g);
    SortByTotalRanked(g);
    assert |s| == |g| by {
      assert |multiset(s)| == |multiset(g)|;
    }
    var r := NLargest(g, n);
    forall x | x in r ensures x in g {
      assert x in multiset(s);
    }
    forall x | x in g && x !in r
      ensures forall i :: 0 <= i < |r| ==> Precedes(r[i], x)
    {
      assert x in multiset(s);
      var p :| 0 <= p < |s| && s[p] == x;
      assert |r| <= p;
      forall i | 0 <= i < |r| ensures Precedes(r[i], x) {
        assert r[i] == s[i];
      }
    }
  }

  /**
    Each top-10 list has at most ten entries (all groups when there are fewer),
    non-increasing totals with ties in key order, distinct keys taken from the
    table, and each total equal to its group's sum of non-missing values.
   */
  lemma TopTenSpec(rows: seq<Row>, key: Column, col: CountColumn)
    ensures var r := TopTen(rows, key, col);
      && |r| == (if |KeySet(rows, key)| < TopCount then |KeySet(rows, key)| else TopCount)
      && (forall i, j :: 0 <= i < j < |r| ==>
            r[i].total >= r[j].total && (r[i].total == r[j].total ==> Less(r[i].key, r[j].key)))
      && (forall i, j :: 0 <= i < j < |r| ==> r[i].key != r[j].key)
      && (forall i :: 0 <= i < |r| ==>
            r[i].key in KeySet(rows, key) && r[i].total == GroupTotal(rows, key, r[i].key, col))
  {
    var g := GroupBy(rows, key, col);
    var r := TopTen(rows, key, col);
    NLargestSpec(g, TopCount);
    forall i | 0 <= i < |r|
      ensures r[i].key in KeySet(rows, key) && r[i].total == GroupTotal(rows, key, r[i].key, col)
    {
      assert r[i] in g;
    }
    forall i, j | 0 <= i < j < |r| ensures r[i].key != r[j].key {
      assert r[i] in g && r[j] in g;
      assert Precedes(r[i], r[j]);
      LessIrreflexive(r[i].key);
    }
  }

  /**
    The top-10 lists really hold the largest groups: a key of the table that
    is not listed has a group total no larger than any listed one (and ranks
    below it), and when there are at most ten groups every one is listed.
   */
  lemma TopTenSelectsLargest(rows: seq<Row>, key: Column, col: CountColumn)
    ensures var r := TopTen(rows, key, col);
      forall k :: k in KeySet(rows, key) && (forall i :: 0 <= i < |r| ==> r[i].key != k) ==>
        forall i :: 0 <= i < |r| ==> Precedes(r[i], Group(k, GroupTotal(rows, key, k, col)))
    ensures var r := TopTen(rows, key, col);
      |KeySet(rows, key)| <= TopCount ==>
        forall k :: k in KeySet(rows, key) ==> exists i :: 0 <= i < |r| && r[i].key == k
  {
    var g := GroupBy(rows, key, col);
    var r := TopTen(rows, key, col);
    NLargestSpec(g, TopCount);
    forall k | k in KeySet(rows, key)
      ensures (forall i :: 0 <= i < |r| ==> r[i].key != k) ==>
        forall i :: 0 <= i < |r| ==> Precedes(r[i], Group(k, GroupTotal(rows, key, k, col)))
      ensures |KeySet(rows, key)| <= TopCount ==> exists i :: 0 <= i < |r| && r[i].key == k
    {
      GroupOfKey(rows, key, col, k);
      var x := Group(k, GroupTotal(rows, key, k, col));
      if x in r {
        var i :| 0 <= i < |r| && r[i] == x;
        assert r[i].key == k;
      }
    }
  }

  /** Every key of the table has its group in the group-by, and in the top-10 list when there are at most ten groups. */
  lemma GroupOfKey(rows: seq<Row>, key: Column, col: CountColumn, k: string)
    requires k in KeySet(rows, key)
    ensures Group(k, GroupTotal(rows, key, k, col)) in GroupBy(rows, key, col)
    ensures |KeySet(rows, key)| <= TopCount ==> Group(k, GroupTotal(rows, key, k, col)) in TopTen(rows, key, col)
  {
    var g := GroupBy(rows, key, col);
    var j :| 0 <= j < |g| && g[j].key == k;
    NLargestSpec(g, TopCount);
    if |KeySet(rows, key)| <= TopCount {
      assert g[j] in multiset(TopTen(rows, key, col));
    }
  }

  /** Sum of the totals of a list of groups. */
  function SumTotals(g: seq<Group>): nat
  {
    if g == [] then 0 else g[0].total + SumTotals(g[1..])
  }

  /** Sum of the group totals of a list of keys. */
  function SumOverKeys(ks: seq<string>, rows: seq<Row>, key: Column, col: CountColumn): nat
  {
    if ks == [] then 0 else GroupTotal(rows, key, ks[0], col) + SumOverKeys(ks[1..], rows, key, col)
  }

  lemma {:induction false} SumOverKeysOfEmpty(ks: seq<string>, key: Column, col: CountColumn)
    ensures SumOverKeys(ks, [], key, col) == 0
  {
    if ks != [] {
      SumOverKeysOfEmpty(ks[1..], key, col);
    }
  }

  /** Taking off the first row takes its value off exactly one group, if its key is listed. */
  lemma {:induction false} SumOverKeysStep(ks: seq<string>, rows: seq<Row>, key: Column, col: CountColumn)
    requires StrictlySorted(ks) && rows != []
    ensures SumOverKeys(ks, rows, key, col) ==
      (if Cell(rows[0], key) in ks then Contribution(CountCell(rows[0], col)) else 0)
      + SumOverKeys(ks, rows[1..], key, col)
  {
    if ks != [] {
      assert StrictlySorted(ks[1..]);
      SumOverKeysStep(ks[1..], rows, key, col);
      if ks[0] in ks[1..] {
        var j :| 0 <= j < |ks[1..]| && ks[1..][j] == ks[0];
        assert Less(ks[0], ks[j + 1]);
        LessIrreflexive(ks[0]);
      }
      assert Cell(rows[0], key) in ks <==> Cell(rows[0], key) == ks[0] || Cell(rows[0], key) in ks[1..];
    }
  }

  lemma {:induction false} SumOverAllKeys(ks: seq<string>, rows: seq<Row>, key: Column, col: CountColumn)
    requires StrictlySorted(ks)
    requires forall r :: r in rows ==> Cell(r, key) in ks
    ensures SumOverKeys(ks, rows, key, col) == Total(rows, col)
  {
    if rows == [] {
      SumOverKeysOfEmpty(ks, key, col);
    } else {
      SumOverKeysStep(ks, rows, key, col);
      SumOverAllKeys(ks, rows[1..], key, col);
    }
  }

  lemma {:induction false} SumTotalsOfKeyed(g: seq<Group>, ks: seq<string>, rows: seq<Row>, key: Column, col: CountColumn)
    requires |g| == |ks|
    requires forall i :: 0 <= i < |g| ==> g[i] == Group(ks[i], GroupTotal(rows, key, ks[i], col))
    ensures SumTotals(g) == SumOverKeys(ks, rows, key, col)
  {
    if g != [] {
      SumTotalsOfKeyed(g[1..], ks[1..], rows, key, col);
    }
  }

  /** The group totals of a group-by add up to the column's total: no value is lost or counted twice. */
  lemma GroupByConservesTotal(rows: seq<Row>, key: Column, col: CountColumn)
    ensures SumTotals(GroupBy(rows, key, col)) == Total(rows, col)
  {
    var ks := SortedKeys(rows, key);
    SumTotalsOfKeyed(GroupBy(rows, key, col), ks, rows, key, col);
    SumOverAllKeys(ks, rows, key, col);
  }
}
