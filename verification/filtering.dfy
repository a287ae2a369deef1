/**
  `filter_data`: keep the rows whose value in one column is among a list of
  selected values, or keep everything when nothing is selected.
 */
module Filtering {
  import opened Admissions

  /** `a` is `b` with some elements dropped, the rest in their original order. */
  predicate IsSubsequence(a: seq<Row>, b: seq<Row>)
    decreases |b|
  {
    if a == [] then true
    else if b == [] then false
    else (a[0] == b[0] && IsSubsequence(a[1..], b[1..])) || IsSubsequence(a, b[1..])
  }

  /** The boolean mask `data[column].isin(values)` applied to the table. */
  function Matching(rows: seq<Row>, column: Column, values: seq<string>): seq<Row>
  {
    if rows == [] then []
    else if Cell(rows[0], column) in values then [rows[0]] + Matching(rows[1..], column, values)
    else Matching(rows[1..], column, values)
  }

  /**
    The mask keeps a subsequence of the table: the rows whose value is
    selected, each as often as it occurs in the table.
   */
  lemma {:induction false} MatchingSpec(rows: seq<Row>, column: Column, values: seq<string>)
    ensures IsSubsequence(Matching(rows, column, values), rows)
    ensures forall x :: x in Matching(rows, column, values) <==> x in rows && Cell(x, column) in values
    ensures forall x ::
      multiset(Matching(rows, column, values))[x] == if Cell(x, column) in values then multiset(rows)[x] else 0
  {
    if rows != [] {
      MatchingSpec(rows[1..], column, values);
      assert rows == [rows[0]] + rows[1..];
    }
  }

  /** `filter_data(data, column, values)`. */
  function FilterData(rows: seq<Row>, column: Column, values: seq<string>): (r: seq<Row>)
  {
    if values == [] then rows else Matching(rows, column, values)
  }

  /**
    With nothing selected the table is returned as it is; otherwise the result
    holds exactly the rows whose value is selected, each as often as in the
    input, in the input's order.
   */
  lemma FilterDataSpec(rows: seq<Row>, column: Column, values: seq<string>)
    ensures values == [] ==> FilterData(rows, column, values) == rows
    ensures IsSubsequence(FilterData(rows, column, values), rows)
    ensures values != [] ==> forall x ::
      multiset(FilterData(rows, column, values))[x] ==
        if Cell(x, column) in values then multiset(rows)[x] else 0
  {
    if values == [] {
      SubsequenceReflexive(rows);
    } else {
      MatchingSpec(rows, column, values);
    }
  }

  lemma {:induction false} SubsequenceReflexive(a: seq<Row>)
    ensures IsSubsequence(a, a)
  {
    if a != [] {
      SubsequenceReflexive(a[1..]);
    }
  }

  /** A subsequence is never longer than what it was taken from. */
  lemma {:induction false} SubsequenceLength(a: seq<Row>, b: seq<Row>)
    requires IsSubsequence(a, b)
    ensures |a| <= |b|
    decreases |b|
  {
    if a != [] {
      if a[0] == b[0] && IsSubsequence(a[1..], b[1..]) {
        SubsequenceLength(a[1..], b[1..]);
      } else {
        SubsequenceLength(a, b[1..]);
      }
    }
  }

  /** Filtering twice with the same column and values is filtering once. */
  lemma {:induction false} FilterDataIdempotent(rows: seq<Row>, column: Column, values: seq<string>)
    ensures FilterData(FilterData(rows, column, values), column, values) == FilterData(rows, column, values)
  {
    if values != [] {
      MatchingIdempotent(rows, column, values);
    }
  }

  lemma {:induction false} MatchingIdempotent(rows: seq<Row>, column: Column, values: seq<string>)
    ensures Matching(Matching(rows, column, values), column, values) == Matching(rows, column, values)
  {
    if rows != [] {
      MatchingIdempotent(rows[1..], column, values);
    }
  }

  /** Filters on two columns give the same table in either order. */
  lemma {:induction false} FilterDataCommute(rows: seq<Row>, c1: Column, v1: seq<string>, c2: Column, v2: seq<string>)
    ensures FilterData(FilterData(rows, c1, v1), c2, v2) == FilterData(FilterData(rows, c2, v2), c1, v1)
  {
    if v1 != [] && v2 != [] {
      MatchingCommute(rows, c1, v1, c2, v2);
    }
  }

  lemma {:induction false} MatchingCommute(rows: seq<Row>, c1: Column, v1: seq<string>, c2: Column, v2: seq<string>)
    ensures Matching(Matching(rows, c1, v1), c2, v2) == Matching(Matching(rows, c2, v2), c1, v1)
  {
    if rows != [] {
      MatchingCommute(rows[1..], c1, v1, c2, v2);
    }
  }

  /** One dimension's selection: a column and the values chosen for it. */
  datatype Selection = Selection(column: Column, values: seq<string>)

  /** `filter_data` applied once per selection, one after the other. */
  function FilterAll(rows: seq<Row>, selections: seq<Selection>): (r: seq<Row>)
    decreases |selections|
  {
    if selections == [] then rows
    else FilterAll(FilterData(rows, selections[0].column, selections[0].values), selections[1..])
  }

  /** A row passes one selection when nothing is selected or its value is. */
  predicate Admits(s: Selection, x: Row)
  {
    s.values == [] || Cell(x, s.column) in s.values
  }

  /** A row passes every selection. */
  predicate AdmitsAll(selections: seq<Selection>, x: Row)
  {
    forall i :: 0 <= i < |selections| ==> Admits(selections[i], x)
  }

  lemma AdmitsAllStep(selections: seq<Selection>, x: Row)
    requires selections != []
    ensures AdmitsAll(selections, x) <==> Admits(selections[0], x) && AdmitsAll(selections[1..], x)
  {
    if Admits(selections[0], x) && AdmitsAll(selections[1..], x) {
      forall i | 0 <= i < |selections| ensures Admits(selections[i], x) {
        if i > 0 {
          assert selections[i] == selections[1..][i - 1];
        }
      }
    }
  }

  /** Taking a subsequence of a subsequence gives a subsequence. */
  lemma {:induction false} SubsequenceTransitive(a: seq<Row>, b: seq<Row>, c: seq<Row>)
    requires IsSubsequence(a, b) && IsSubsequence(b, c)
    ensures IsSubsequence(a, c)
    decreases |c|
  {
    if a != [] {
      if b[0] == c[0] && IsSubsequence(b[1..], c[1..]) {
        if a[0] == b[0] && IsSubsequence(a[1..], b[1..]) {
          SubsequenceTransitive(a[1..], b[1..], c[1..]);
        } else {
          SubsequenceTransitive(a, b[1..], c[1..]);
        }
      } else {
        SubsequenceTransitive(a, b, c[1..]);
      }
    }
  }

  /**
    Chained filters AND across dimensions and OR within one: the result keeps,
    in the table's order, every copy of each row that every selection admits
    and nothing else; selections that are all empty leave the table unchanged.
   */
  lemma {:induction false} FilterAllSpec(rows: seq<Row>, selections: seq<Selection>)
    ensures IsSubsequence(FilterAll(rows, selections), rows)
    ensures forall x ::
      multiset(FilterAll(rows, selections))[x] == if AdmitsAll(selections, x) then multiset(rows)[x] else 0
    ensures forall x :: x in FilterAll(rows, selections) <==> x in rows && AdmitsAll(selections, x)
    ensures (forall i :: 0 <= i < |selections| ==> selections[i].values == []) ==>
      FilterAll(rows, selections) == rows
    ensures |FilterAll(rows, selections)| <= |rows|
    decreases |selections|
  {
    var r := FilterAll(rows, selections);
    if selections == [] {
      SubsequenceReflexive(rows);
    } else {
      var s := selections[0];
      var once := FilterData(rows, s.column, s.values);
      FilterDataSpec(rows, s.column, s.values);
      FilterAllSpec(once, selections[1..]);
      SubsequenceTransitive(r, once, rows);
      forall x ensures multiset(r)[x] == if AdmitsAll(selections, x) then multiset(rows)[x] else 0 {
        AdmitsAllStep(selections, x);
        assert multiset(once)[x] == if Admits(s, x) then multiset(rows)[x] else 0;
      }
      if forall i :: 0 <= i < |selections| ==> selections[i].values == [] {
        assert s.values == [];
        assert forall i :: 0 <= i < |selections[1..]| ==> selections[1..][i].values == [] by {
          forall i | 0 <= i < |selections[1..]| ensures selections[1..][i].values == [] {
            assert selections[1..][i] == selections[i + 1];
          }
        }
      }
    }
    forall x ensures x in r <==> x in rows && AdmitsAll(selections, x) {
      assert x in r <==> multiset(r)[x] > 0;
      assert x in rows <==> multiset(rows)[x] > 0;
    }
    SubsequenceLength(r, rows);
  }
}
