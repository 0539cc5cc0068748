/** The UTC date a quarantined object is filed under, and its `%Y/%m/%d`
    rendering: a four-digit year, a two-digit month and a two-digit day,
    zero-padded and separated by slashes. */
module Calendar {
  import opened Common

  datatype Date = Date(year: int, month: int, day: int)

  predicate IsLeapYear(year: int) {
    year % 4 == 0 && (year % 100 != 0 || year % 400 == 0)
  }

  function DaysInMonth(year: int, month: int): (n: int)
    requires 1 <= month <= 12
    ensures 28 <= n <= 31
  {
    if month == 2 then (if IsLeapYear(year) then 29 else 28)
    else if month in {4, 6, 9, 11} then 30
    else 31
  }

  /** A Gregorian date whose year `%Y` renders with exactly four digits. */
  predicate Valid(d: Date) {
    1000 <= d.year <= 9999 && 1 <= d.month <= 12 && 1 <= d.day <= DaysInMonth(d.year, d.month)
  }

  /** The dates the worker can be run on. */
  type ValidDate = d: Date | Valid(d) witness Date(2000, 1, 1)

  predicate IsDigit(c: char) {
    '0' <= c <= '9'
  }

  predicate AllDigits(s: string) {
    forall i :: 0 <= i < |s| ==> IsDigit(s[i])
  }

  function DigitChar(k: int): (c: char)
    requires 0 <= k < 10
    ensures IsDigit(c)
  {
    ('0' as int + k) as char
  }

  function DigitValue(c: char): (k: int)
    requires IsDigit(c)
    ensures 0 <= k < 10
  {
    c as int - '0' as int
  }

  function Pow10(width: nat): (p: nat)
    ensures p > 0
  {
    if width == 0 then 1 else 10 * Pow10(width - 1)
  }

  /** The last `width` decimal digits of `n`, zero-padded on the left. */
  function Padded(n: nat, width: nat): (s: string)
    ensures |s| == width && AllDigits(s)
  {
    if width == 0 then [] else Padded(n / 10, width - 1) + [DigitChar(n % 10)]
  }

  /** The number a string of decimal digits denotes. */
  function Decimal(s: string): (n: nat)
    requires AllDigits(s)
    ensures n < Pow10(|s|)
  {
    if s == [] then 0 else 10 * Decimal(s[..|s| - 1]) + DigitValue(s[|s| - 1])
  }

  lemma {:induction false} DecimalPadded(n: nat, width: nat)
    requires n < Pow10(width)
    ensures Decimal(Padded(n, width)) == n
  {
    if width > 0 {
      var s := Padded(n, width);
      assert s[..|s| - 1] == Padded(n / 10, width - 1);
      assert n / 10 < Pow10(width - 1);
      DecimalPadded(n / 10, width - 1);
    }
  }

  lemma DigitSplit(q: nat, d: int)
    requires 0 <= d < 10
    ensures (10 * q + d) / 10 == q && (10 * q + d) % 10 == d
  {
  }

  lemma {:induction false} PaddedDecimal(s: string)
    requires AllDigits(s)
    ensures Padded(Decimal(s), |s|) == s
  {
    if s != [] {
      var init := s[..|s| - 1];
      var n := Decimal(s);
      var d := DigitValue(s[|s| - 1]);
      DigitSplit(Decimal(init), d);
      PaddedDecimal(init);
      assert DigitChar(d) == s[|s| - 1];
      assert Padded(n, |s|) == Padded(Decimal(init), |s| - 1) + [DigitChar(d)];
      assert s == init + [s[|s| - 1]];
    }
  }

  /** `strftime('%Y/%m/%d')`. */
  function DatePartition(d: Date): (s: string)
    requires Valid(d)
    ensures |s| == 10 && s[4] == '/' && s[7] == '/'
  {
    Padded(d.year, 4) + "/" + Padded(d.month, 2) + "/" + Padded(d.day, 2)
  }

  /** Reads a `YYYY/MM/DD` partition back as a date. */
  function ParseDatePartition(s: string): (r: Option<Date>)
    ensures r.Some? ==> Valid(r.value)
  {
    if |s| == 10 && s[4] == '/' && s[7] == '/'
       && AllDigits(s[..4]) && AllDigits(s[5..7]) && AllDigits(s[8..]) then
      var d := Date(Decimal(s[..4]), Decimal(s[5..7]), Decimal(s[8..]));
      if Valid(d) then Some(d) else None
    else
      None
  }

  lemma PartitionFields(d: Date)
    requires Valid(d)
    ensures DatePartition(d)[..4] == Padded(d.year, 4)
    ensures DatePartition(d)[5..7] == Padded(d.month, 2)
    ensures DatePartition(d)[8..] == Padded(d.day, 2)
  {
  }

  /** Every valid date is read back from its partition. */
  lemma PartitionRoundTrip(d: Date)
    requires Valid(d)
    ensures ParseDatePartition(DatePartition(d)) == Some(d)
  {
    PartitionFields(d);
    DecimalPadded(d.year, 4);
    DecimalPadded(d.month, 2);
    DecimalPadded(d.day, 2);
  }

  /** Every string that reads as a date is that date's partition. */
  lemma ParseRoundTrip(s: string)
    requires ParseDatePartition(s).Some?
    ensures DatePartition(ParseDatePartition(s).value) == s
  {
    PaddedDecimal(s[..4]);
    PaddedDecimal(s[5..7]);
    PaddedDecimal(s[8..]);
    assert s == s[..4] + "/" + s[5..7] + "/" + s[8..];
  }

  /** Distinct dates are filed under distinct partitions. */
  lemma PartitionInjective(d1: Date, d2: Date)
    requires Valid(d1) && Valid(d2) && DatePartition(d1) == DatePartition(d2)
    ensures d1 == d2
  {
    PartitionRoundTrip(d1);
    PartitionRoundTrip(d2);
  }
}
