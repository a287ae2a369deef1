/**
  The admissions table the dashboard works on: one row per programme and
  admission year, as loaded from the spreadsheet and concatenated.
  Every text column is a key (a string); the two count columns are nullable
  natural numbers, as pandas' nullable `Int64` holds them.
 */
module Admissions {

  /** A nullable count cell: `<NA>` or a non-negative whole number. */
  datatype Count = Missing | Present(value: nat)

  /** One admission row. `tahun` is kept as its text form, like every key. */
  datatype Row = Row(
    tahun: string,
    kabupatenKota: string,
    provinsi: string,
    jenjang: string,
    namaUniv: string,
    namaProdi: string,
    peminat: Count,
    dayaTampung: Count
  )

  /** The text columns: filter dimensions and group-by keys. */
  datatype Column = Tahun | KabupatenKota | Provinsi | Jenjang | NamaUniv | NamaProdi

  /** The count columns: applicants (`peminat`) and quota (`daya_tampung`). */
  datatype CountColumn = Peminat | DayaTampung

  function Cell(r: Row, c: Column): string
  {
    match c
    case Tahun => r.tahun
    case KabupatenKota => r.kabupatenKota
    case Provinsi => r.provinsi
    case Jenjang => r.jenjang
    case NamaUniv => r.namaUniv
    case NamaProdi => r.namaProdi
  }

  function CountCell(r: Row, c: CountColumn): Count
  {
    match c
    case Peminat => r.peminat
    case DayaTampung => r.dayaTampung
  }

  /** What a cell adds to a sum that skips missing values. */
  function Contribution(c: Count): nat
  {
    if c.Present? then c.value else 0
  }

  /** Sum of a count column with missing values skipped (`Series.sum()`, skipna). */
  function Total(rows: seq<Row>, c: CountColumn): nat
  {
    if rows == [] then 0 else Contribution(CountCell(rows[0], c)) + Total(rows[1..], c)
  }

  /** A column is all missing over a table. */
  predicate AllMissing(rows: seq<Row>, c: CountColumn)
  {
    forall i :: 0 <= i < |rows| ==> CountCell(rows[i], c) == Missing
  }

  /** The sum over a concatenation is the sum of the sums. */
  lemma {:induction false} TotalAppend(a: seq<Row>, b: seq<Row>, c: CountColumn)
    ensures Total(a + b, c) == Total(a, c) + Total(b, c)
  {
    if a == [] {
      assert a + b == b;
    } else {
      assert (a + b)[1..] == a[1..] + b;
      TotalAppend(a[1..], b, c);
    }
  }

  /** An empty or all-missing column sums to 0, as a nullable sum does. */
  lemma {:induction false} TotalAllMissing(rows: seq<Row>, c: CountColumn)
    requires AllMissing(rows, c)
    ensures Total(rows, c) == 0
  {
    if rows != [] {
      assert AllMissing(rows[1..], c) by {
        forall i | 0 <= i < |rows[1..]| ensures CountCell(rows[1..][i], c) == Missing {
          assert rows[1..][i] == rows[i + 1];
        }
      }
      TotalAllMissing(rows[1..], c);
    }
  }

  /** Every present value is counted: the sum is at least each present value. */
  lemma {:induction false} TotalCountsEachPresent(rows: seq<Row>, c: CountColumn, i: nat)
    requires i < |rows| && CountCell(rows[i], c).Present?
    ensures CountCell(rows[i], c).value <= Total(rows, c)
  {
    if i > 0 {
      assert rows[1..][i - 1] == rows[i];
      TotalCountsEachPresent(rows[1..], c, i - 1);
    }
  }
}
