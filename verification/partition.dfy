/**
  The partition key: the run date rendered with `strftime("%Y%m%d")`, the
  identifier every file name of one run is built from.
 */
module Partition {
  import opened Base

  /** A calendar date as Python's `datetime.date` holds it. */
  datatype Date = Date(year: int, month: int, day: int)

  predicate IsLeapYear(y: int) {
    y % 4 == 0 && (y % 100 != 0 || y % 400 == 0)
  }

  function DaysInMonth(year: int, month: int): int {
    if month == 2 then (if IsLeapYear(year) then 29 else 28)
    else if month == 4 || month == 6 || month == 9 || month == 11 then 30
    else 31
  }

  /** The dates `datetime.date` accepts (years MINYEAR = 1 to MAXYEAR = 9999). */
  predicate ValidDate(d: Date) {
    && 1 <= d.year <= 9999
    && 1 <= d.month <= 12
    && 1 <= d.day <= DaysInMonth(d.year, d.month)
  }

  function Pow10(n: nat): nat {
    if n == 0 then 1 else 10 * Pow10(n - 1)
  }

  predicate IsDigit(c: char) {
    '0' <= c <= '9'
  }

  predicate AllDigits(s: string) {
    forall i :: 0 <= i < |s| ==> IsDigit(s[i])
  }

  function DigitChar(n: nat): (c: char)
    requires n < 10
    ensures IsDigit(c)
  {
    ('0' as int + n) as char
  }

  function DigitValue(c: char): (n: nat)
    requires IsDigit(c)
    ensures n < 10
  {
    c as int - '0' as int
  }

  /** `n` in decimal, left-padded with zeros to exactly `width` digits
      (the `%Y`, `%m` and `%d` conversions of strftime). */
  function ZeroPad(n: nat, width: nat): (r: string)
    requires n < Pow10(width)
    ensures |r| == width && AllDigits(r)
  {
    if width == 0 then [] else ZeroPad(n / 10, width - 1) + [DigitChar(n % 10)]
  }

  /** The number a string of decimal digits denotes. */
  function Decimal(s: string): (n: nat)
    requires AllDigits(s)
    ensures n < Pow10(|s|)
  {
    if |s| == 0 then 0 else 10 * Decimal(s[..|s| - 1]) + DigitValue(s[|s| - 1])
  }

  /** `execution_date.strftime("%Y%m%d")`: eight decimal digits. */
  function PartitionKey(d: Date): (key: string)
    requires ValidDate(d)
    ensures |key| == 8 && AllDigits(key)
  {
    ZeroPad(d.year, 4) + ZeroPad(d.month, 2) + ZeroPad(d.day, 2)
  }

  /** Reads a partition key back into the date it names, if it names one. */
  function ParseKey(key: string): (r: Option<Date>)
    ensures r.Some? ==> ValidDate(r.value)
  {
    if |key| == 8 && AllDigits(key) then
      var d := Date(Decimal(key[..4]), Decimal(key[4..6]), Decimal(key[6..]));
      if ValidDate(d) then Some(d) else None
    else
      None
  }

  lemma {:induction false} DecimalOfZeroPad(n: nat, width: nat)
    requires n < Pow10(width)
    ensures Decimal(ZeroPad(n, width)) == n
  {
    if width > 0 {
      DecimalOfZeroPad(n / 10, width - 1);
      var s := ZeroPad(n, width);
      assert s[..|s| - 1] == ZeroPad(n / 10, width - 1);
    }
  }

  lemma {:induction false} ZeroPadOfDecimal(s: string)
    requires AllDigits(s)
    ensures ZeroPad(Decimal(s), |s|) == s
  {
    if |s| > 0 {
      var init := s[..|s| - 1];
      ZeroPadOfDecimal(init);
      var n := Decimal(s);
      assert n / 10 == Decimal(init) && n % 10 == DigitValue(s[|s| - 1]);
      assert s == init + [s[|s| - 1]];
    }
  }

  /** The key of a date reads back as that date. */
  lemma KeyRoundTrip(d: Date)
    requires ValidDate(d)
    ensures ParseKey(PartitionKey(d)) == Some(d)
  {
    var key := PartitionKey(d);
    assert key[..4] == ZeroPad(d.year, 4);
    assert key[4..6] == ZeroPad(d.month, 2);
    assert key[6..] == ZeroPad(d.day, 2);
    DecimalOfZeroPad(d.year, 4);
    DecimalOfZeroPad(d.month, 2);
    DecimalOfZeroPad(d.day, 2);
  }

  /** Every string that reads as a date is exactly that date's key: keys are canonical. */
  lemma ParseKeyCanonical(key: string, d: Date)
    requires ParseKey(key) == Some(d)
    ensures PartitionKey(d) == key
  {
    var y, m, dd := key[..4], key[4..6], key[6..];
    assert AllDigits(y) && AllDigits(m) && AllDigits(dd);
    assert d == Date(Decimal(y), Decimal(m), Decimal(dd));
    KeyOfFields(y, m, dd);
    assert key == y + m + dd;
  }

  /** Digit fields of the right widths are the key of the date they spell. */
  lemma KeyOfFields(y: string, m: string, dd: string)
    requires AllDigits(y) && AllDigits(m) && AllDigits(dd)
    requires |y| == 4 && |m| == 2 && |dd| == 2
    requires ValidDate(Date(Decimal(y), Decimal(m), Decimal(dd)))
    ensures PartitionKey(Date(Decimal(y), Decimal(m), Decimal(dd))) == y + m + dd
  {
    ZeroPadOfDecimal(y);
    ZeroPadOfDecimal(m);
    ZeroPadOfDecimal(dd);
  }

  /** Distinct dates get distinct keys, so no two partitions share a file name. */
  lemma KeyInjective(d1: Date, d2: Date)
    requires ValidDate(d1) && ValidDate(d2)
    requires d1 != d2
    ensures PartitionKey(d1) != PartitionKey(d2)
  {
    KeyRoundTrip(d1);
    KeyRoundTrip(d2);
  }
}
