/**
  Whole-number text as the KPI panel shows it: the decimal form of a number,
  the same with "." between groups of three digits, and Python's `round`
  (half to even) of an exact quotient.
 */
module NumberFormat {

  predicate IsDigit(c: char)
  {
    '0' <= c <= '9'
  }

  predicate AllDigits(s: string)
  {
    forall i :: 0 <= i < |s| ==> IsDigit(s[i])
  }

  function DigitChar(d: nat): (c: char)
    requires d < 10
    ensures IsDigit(c)
  {
    ('0' as int + d) as char
  }

  function DigitValue(c: char): (d: nat)
    requires IsDigit(c)
    ensures d < 10 && DigitChar(d) == c
  {
    c as int - '0' as int
  }

  /** `str(n)` for a natural number: its decimal digits, most significant first. */
  function Decimal(n: nat): (s: string)
    ensures 1 <= |s| && AllDigits(s)
    ensures n < 10 <==> |s| == 1
    ensures (s[0] == '0') <==> n == 0
  {
    if n < 10 then [DigitChar(n)] else Decimal(n / 10) + [DigitChar(n % 10)]
  }

  /** The number a string of digits denotes. */
  function ParseDecimal(s: string): nat
    requires AllDigits(s)
  {
    if s == [] then 0 else ParseDecimal(s[..|s| - 1]) * 10 + DigitValue(s[|s| - 1])
  }

  /** Reading back the decimal form of a number gives the number. */
  lemma {:induction false} DecimalRoundTrip(n: nat)
    ensures ParseDecimal(Decimal(n)) == n
  {
    if n >= 10 {
      var s := Decimal(n);
      assert s[..|s| - 1] == Decimal(n / 10);
      DecimalRoundTrip(n / 10);
    }
  }

  /** A number below 1000 has at most three digits. */
  lemma DecimalShort(n: nat)
    requires n < 1000
    ensures |Decimal(n)| <= 3
  {
  }

  /** Three digits, with leading zeros, for a group after the first. */
  function Pad3(m: nat): (s: string)
    requires m < 1000
    ensures |s| == 3 && AllDigits(s)
  {
    [DigitChar(m / 100), DigitChar(m / 10 % 10), DigitChar(m % 10)]
  }

  /** `f"{n / 1:,.0f}".replace(",", ".")` for a whole number `n`. */
  function FormatThousands(n: nat): (s: string)
    decreases n
  {
    if n < 1000 then Decimal(n) else FormatThousands(n / 1000) + "." + Pad3(n % 1000)
  }

  /** A leading group: one to three digits, no leading zero unless it is "0". */
  predicate LeadGroup(s: string)
  {
    1 <= |s| <= 3 && AllDigits(s) && (s[0] == '0' ==> |s| == 1)
  }

  /**
    Thousands grouping: a leading group, then any number of "." followed by
    exactly three digits.
   */
  predicate Grouped(s: string)
    decreases |s|
  {
    if |s| <= 3 then LeadGroup(s)
    else s[|s| - 4] == '.' && AllDigits(s[|s| - 3..]) && Grouped(s[..|s| - 4])
  }

  /** Not empty, and no leading zero unless the whole text is "0". */
  predicate NoLeadingZero(s: string)
  {
    s != [] && (s[0] == '0' ==> s == "0")
  }

  predicate DigitsAndDots(s: string)
  {
    forall i :: 0 <= i < |s| ==> IsDigit(s[i]) || s[i] == '.'
  }

  /** The string with every "." deleted. */
  function RemoveDots(s: string): (r: string)
    ensures DigitsAndDots(s) ==> AllDigits(r)
  {
    if s == [] then []
    else if s[|s| - 1] == '.' then RemoveDots(s[..|s| - 1])
    else RemoveDots(s[..|s| - 1]) + [s[|s| - 1]]
  }

  /** Reads a grouped number back: the inverse of FormatThousands. */
  function ParseThousands(s: string): nat
    requires DigitsAndDots(s)
  {
    ParseDecimal(RemoveDots(s))
  }

  lemma {:induction false} GroupedDigitsAndDots(s: string)
    requires Grouped(s)
    ensures DigitsAndDots(s)
    decreases |s|
  {
    if |s| > 3 {
      var head := s[..|s| - 4];
      GroupedDigitsAndDots(head);
      assert s == head + "." + s[|s| - 3..];
      forall i | 0 <= i < |s| ensures IsDigit(s[i]) || s[i] == '.' {
        if i < |s| - 4 {
          assert s[i] == head[i];
        } else if i >= |s| - 3 {
          assert s[i] == s[|s| - 3..][i - (|s| - 3)];
        }
      }
    }
  }

  /** Deleting every "." in a concatenation deletes it in each part. */
  lemma {:induction false} RemoveDotsAppend(a: string, b: string)
    ensures RemoveDots(a + b) == RemoveDots(a) + RemoveDots(b)
    decreases |b|
  {
    if b == [] {
      assert a + b == a;
    } else {
      var b' := b[..|b| - 1];
      assert (a + b)[..|a + b| - 1] == a + b';
      RemoveDotsAppend(a, b');
    }
  }

  lemma {:induction false} RemoveDotsOfDigits(s: string)
    requires AllDigits(s)
    ensures RemoveDots(s) == s
  {
    if s != [] {
      RemoveDotsOfDigits(s[..|s| - 1]);
    }
  }

  /** For n of four digits or more, its decimal form is that of n / 1000 followed by three padded digits. */
  lemma DecimalSplit(n: nat)
    requires n >= 1000
    ensures Decimal(n) == Decimal(n / 1000) + Pad3(n % 1000)
  {
    var m := n % 1000;
    assert n / 10 / 10 / 10 == n / 1000;
    assert n / 10 / 10 % 10 == m / 100;
    assert n / 10 % 10 == m / 10 % 10;
    assert n % 10 == m % 10;
    calc {
      Decimal(n);
      Decimal(n / 10) + [DigitChar(n % 10)];
      Decimal(n / 10 / 10) + [DigitChar(n / 10 % 10)] + [DigitChar(n % 10)];
      Decimal(n / 10 / 10 / 10) + [DigitChar(n / 10 / 10 % 10)] + [DigitChar(n / 10 % 10)] + [DigitChar(n % 10)];
      Decimal(n / 1000) + Pad3(m);
    }
  }

  /** A formatted total starts with a zero only when it is "0", the form of 0 alone. */
  lemma {:induction false} FormatNoLeadingZero(n: nat)
    ensures NoLeadingZero(FormatThousands(n))
    ensures FormatThousands(n) == "0" <==> n == 0
    decreases n
  {
    if n >= 1000 {
      FormatNoLeadingZero(n / 1000);
      var head := FormatThousands(n / 1000);
      assert FormatThousands(n) == head + "." + Pad3(n % 1000);
      assert FormatThousands(n)[0] == head[0];
    }
  }

  /** Every formatted total has the thousands grouping and no leading zero. */
  lemma {:induction false} FormatGrouped(n: nat)
    ensures Grouped(FormatThousands(n))
    ensures NoLeadingZero(FormatThousands(n))
    decreases n
  {
    FormatNoLeadingZero(n);
    if n < 1000 {
      DecimalShort(n);
    } else {
      FormatGrouped(n / 1000);
      var s := FormatThousands(n);
      var head := FormatThousands(n / 1000);
      assert s == head + "." + Pad3(n % 1000);
      assert s[..|s| - 4] == head;
      assert s[|s| - 3..] == Pad3(n % 1000);
    }
  }

  /** Deleting the dots of a formatted total leaves its plain decimal form. */
  lemma {:induction false} FormatRemoveDots(n: nat)
    ensures RemoveDots(FormatThousands(n)) == Decimal(n)
    decreases n
  {
    if n < 1000 {
      RemoveDotsOfDigits(Decimal(n));
    } else {
      FormatRemoveDots(n / 1000);
      var head := FormatThousands(n / 1000);
      RemoveDotsAppend(head + ".", Pad3(n % 1000));
      RemoveDotsAppend(head, ".");
      assert RemoveDots(".") == [] by {
        assert ""[..0] == [];
      }
      RemoveDotsOfDigits(Pad3(n % 1000));
      DecimalSplit(n);
    }
  }

  /** Formatting then reading back gives the total. */
  lemma FormatRoundTrip(n: nat)
    ensures Grouped(FormatThousands(n)) && DigitsAndDots(FormatThousands(n))
    ensures ParseThousands(FormatThousands(n)) == n
  {
    FormatGrouped(n);
    GroupedDigitsAndDots(FormatThousands(n));
    FormatRemoveDots(n);
    DecimalRoundTrip(n);
  }

  /** `q` is an integer nearest to num / den, and an even one when two are equally near. */
  predicate IsHalfEvenRounding(num: nat, den: nat, q: int)
    requires den > 0
  {
    var twiceError := 2 * (q * den - num);
    && -(den as int) <= twiceError <= den
    && (twiceError == den || twiceError == -(den as int) ==> q % 2 == 0)
  }

  /** Python's `round(num / den)` on the exact quotient: ties go to the even neighbour. */
  function RoundHalfEven(num: nat, den: nat): (q: nat)
    requires den > 0
    ensures IsHalfEvenRounding(num, den, q)
  {
    var f := num / den;
    var rem := num % den;
    assert num == f * den + rem;
    if 2 * rem < den then f
    else if 2 * rem > den then f + 1
    else if f % 2 == 0 then f
    else f + 1
  }

  /** There is only one half-even rounding, so RoundHalfEven is the rounding. */
  lemma HalfEvenRoundingUnique(num: nat, den: nat, q1: int, q2: int)
    requires den > 0
    requires IsHalfEvenRounding(num, den, q1) && IsHalfEvenRounding(num, den, q2)
    ensures q1 == q2
  {
    MulGap(q1, q2, den);
    MulGap(q2, q1, den);
  }

  /** Integers two or more apart are at least two steps of `den` apart once scaled by it; neighbours exactly one. */
  lemma MulGap(a: int, b: int, den: nat)
    ensures a >= b + 2 ==> a * den >= b * den + 2 * den
    ensures a == b + 1 ==> a * den == b * den + den
  {
    if a >= b + 2 {
      var d := a - b - 2;
      assert a * den == b * den + 2 * den + d * den;
    }
  }
}
