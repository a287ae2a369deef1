/**
  `calculate_kpis`: total applicants, total quota, both formatted with "."
  thousands grouping, and the quota-to-applicants ratio "1:<percent>", or the
  integer 0 when there are no applicants.
 */
module Kpi {
  import opened Admissions
  import opened NumberFormat

  /** The third KPI: the integer sentinel 0, or the text "1:<n>". */
  datatype Ratio = ZeroSentinel | Text(text: string)

  /** The three values `calculate_kpis` returns, in its order. */
  datatype Kpis = Kpis(totalApplicants: string, totalQuota: string, ratio: Ratio)

  /**
    The ratio text, "1:" followed by a decimal number written without leading
    zeros, read back; -1 for anything else.
   */
  function RatioPercent(r: Ratio): int
  {
    if r.Text? && |r.text| >= 3 && r.text[..2] == "1:" && AllDigits(r.text[2..])
       && (r.text[2] == '0' ==> |r.text| == 3)
    then ParseDecimal(r.text[2..])
    else -1
  }

  /** `calculate_kpis(data)`. */
  function CalculateKpis(rows: seq<Row>): Kpis
  {
    var applicants := Total(rows, Peminat);
    var quota := Total(rows, DayaTampung);
    var ratio :=
      if applicants == 0 then ZeroSentinel
      else Text("1:" + Decimal(RoundHalfEven(quota * 100, applicants)));
    Kpis(FormatThousands(applicants), FormatThousands(quota), ratio)
  }

  /** The KPI text that shows the total of a count column. */
  function TotalText(k: Kpis, c: CountColumn): string
  {
    match c
    case Peminat => k.totalApplicants
    case DayaTampung => k.totalQuota
  }

  /**
    Each total is shown grouped in threes with "." and without leading zeros;
    deleting the dots gives the plain decimal of the sum of the non-missing
    values of its column, so it reads back to that sum.
   */
  lemma {:induction false} KpiTotals(rows: seq<Row>, c: CountColumn)
    ensures Grouped(TotalText(CalculateKpis(rows), c))
    ensures DigitsAndDots(TotalText(CalculateKpis(rows), c))
    ensures ParseThousands(TotalText(CalculateKpis(rows), c)) == Total(rows, c)
    ensures NoLeadingZero(TotalText(CalculateKpis(rows), c))
    ensures RemoveDots(TotalText(CalculateKpis(rows), c)) == Decimal(Total(rows, c))
  {
    FormatRoundTrip(Total(rows, c));
    FormatGrouped(Total(rows, c));
    FormatRemoveDots(Total(rows, c));
  }

  /**
    With no applicants the ratio is the sentinel and nothing is divided;
    otherwise it is "1:" followed by the half-even rounding of
    quota * 100 / applicants.
   */
  lemma KpiRatio(rows: seq<Row>)
    ensures CalculateKpis(rows).ratio == ZeroSentinel <==> Total(rows, Peminat) == 0
    ensures Total(rows, Peminat) != 0 ==>
      && RatioPercent(CalculateKpis(rows).ratio) >= 0
      && IsHalfEvenRounding(Total(rows, DayaTampung) * 100, Total(rows, Peminat),
                            RatioPercent(CalculateKpis(rows).ratio))
  {
    var applicants := Total(rows, Peminat);
    if applicants != 0 {
      var q := RoundHalfEven(Total(rows, DayaTampung) * 100, applicants);
      DecimalRoundTrip(q);
      assert ("1:" + Decimal(q))[..2] == "1:";
      assert ("1:" + Decimal(q))[2..] == Decimal(q);
      assert ("1:" + Decimal(q))[2] == Decimal(q)[0];
    }
  }

  /**
    The ratio is fully determined: any half-even rounding of the quotient is
    the one shown, and the text is exactly "1:" and its plain decimal.
   */
  lemma RatioDetermined(rows: seq<Row>, q: int)
    requires Total(rows, Peminat) != 0
    requires IsHalfEvenRounding(Total(rows, DayaTampung) * 100, Total(rows, Peminat), q)
    ensures RatioPercent(CalculateKpis(rows).ratio) == q
    ensures q >= 0 && CalculateKpis(rows).ratio == Text("1:" + Decimal(q))
  {
    var k := CalculateKpis(rows);
    KpiRatio(rows);
    HalfEvenRoundingUnique(Total(rows, DayaTampung) * 100, Total(rows, Peminat), q, RatioPercent(k.ratio));
    HalfEvenRoundingUnique(Total(rows, DayaTampung) * 100, Total(rows, Peminat), q,
                           RoundHalfEven(Total(rows, DayaTampung) * 100, Total(rows, Peminat)));
  }

  /** 15 quota over 120 applicants is 12.5 percent, which rounds to the even 12. */
  lemma HalfEvenExample()
    ensures
      var rows := [
        Row("2021", "", "", "", "A", "X", Present(100), Present(10)),
        Row("2021", "", "", "", "A", "Y", Present(20), Present(5))
      ];
      CalculateKpis(rows) == Kpis("120", "15", Text("1:12"))
  {
    var rows := [
      Row("2021", "", "", "", "A", "X", Present(100), Present(10)),
      Row("2021", "", "", "", "A", "Y", Present(20), Present(5))
    ];
    assert Total(rows, Peminat) == 120 by {
      assert rows[1..][1..] == [];
    }
    assert Total(rows, DayaTampung) == 15 by {
      assert rows[1..][1..] == [];
    }
    assert RoundHalfEven(1500, 120) == 12;
    assert Decimal(12) == Decimal(1) + [DigitChar(2)] == "12";
    assert Decimal(120) == Decimal(12) + [DigitChar(0)] == "120";
    assert Decimal(15) == Decimal(1) + [DigitChar(5)] == "15";
    assert FormatThousands(120) == "120";
    assert FormatThousands(15) == "15";
    assert "1:" + "12" == "1:12";
    assert CalculateKpis(rows).ratio == Text("1:12");
    assert CalculateKpis(rows).totalApplicants == "120";
    assert CalculateKpis(rows).totalQuota == "15";
  }
}
