/** Naive `datetime` values and the two conversions the task store applies to them:
    `isoformat()` on save and `fromisoformat()` on load. */
module Timestamps {
  import opened Wrappers
  import opened Text

  predicate IsLeapYear(y: int) {
    y % 4 == 0 && (y % 100 != 0 || y % 400 == 0)
  }

  function DaysInMonth(y: int, m: int): int
    requires 1 <= m <= 12
  {
    if m == 2 then (if IsLeapYear(y) then 29 else 28)
    else if m == 4 || m == 6 || m == 9 || m == 11 then 30
    else 31
  }

  /** The fields of a naive `datetime`. */
  datatype Moment = Moment(year: int, month: int, day: int, hour: int, minute: int, second: int, microsecond: int)

  /** The ranges `datetime`'s constructor enforces. */
  predicate ValidMoment(d: Moment) {
    && 1 <= d.year <= 9999
    && 1 <= d.month <= 12
    && 1 <= d.day <= DaysInMonth(d.year, d.month)
    && 0 <= d.hour < 24
    && 0 <= d.minute < 60
    && 0 <= d.second < 60
    && 0 <= d.microsecond < 1000000
  }

  /** A `datetime` value: a moment whose fields are in range. */
  type DateTime = d: Moment | ValidMoment(d) witness Moment(1, 1, 1, 0, 0, 0, 0)

  function Pow10(w: nat): (r: nat)
    ensures r >= 1
  {
    if w == 0 then 1 else 10 * Pow10(w - 1)
  }

  /** `'%0*d' % (w, n)` for `n < 10^w`: exactly `w` decimal digits. */
  function Pad(n: nat, w: nat): (r: string)
    ensures |r| == w && AllDigits(r)
  {
    if w == 0 then "" else Pad(n / 10, w - 1) + [DigitChar(n % 10)]
  }

  /** Reading the padded digits back gives the number. */
  lemma {:induction false} PadValue(n: nat, w: nat)
    requires n < Pow10(w)
    ensures DigitsValue(Pad(n, w)) == n
  {
    if w > 0 {
      PadValue(n / 10, w - 1);
      var r := Pad(n, w);
      assert r[..|r| - 1] == Pad(n / 10, w - 1);
    }
  }

  /** `d.isoformat()`: `YYYY-MM-DDTHH:MM:SS`, followed by `.ffffff` when the microsecond is not 0. */
  function IsoFormat(d: DateTime): (r: string)
    ensures |r| == (if d.microsecond == 0 then 19 else 26)
  {
    DatePart(d) + "T" + TimePart(d) + (if d.microsecond == 0 then "" else "." + Pad(d.microsecond, 6))
  }

  /** The value of a run of digits, or None when it holds anything else (`int()` on a slice). */
  function Number(s: string): Option<nat> {
    if AllDigits(s) then Some(DigitsValue(s)) else None
  }

  /** `datetime.fromisoformat(s)` for the two shapes `isoformat()` writes: `YYYY-MM-DD?HH:MM:SS`
      and the same followed by `.ffffff`, where `?` is any one character. Out-of-range fields are
      rejected, as the constructor rejects them. */
  function FromIsoFormat(s: string): (r: Option<DateTime>)
    ensures r.Some? ==> |s| == 19 || |s| == 26
  {
    if !(|s| == 19 || (|s| == 26 && s[19] == '.')) then None
    else if s[4] != '-' || s[7] != '-' || s[13] != ':' || s[16] != ':' then None
    else
      var year, month, day := Number(s[0..4]), Number(s[5..7]), Number(s[8..10]);
      var hour, minute, second := Number(s[11..13]), Number(s[14..16]), Number(s[17..19]);
      var micro := if |s| == 26 then Number(s[20..26]) else Some(0);
      if year.None? || month.None? || day.None? || hour.None? || minute.None? || second.None? || micro.None?
      then None
      else
        var m := Moment(year.value, month.value, day.value, hour.value, minute.value, second.value, micro.value);
        if ValidMoment(m) then Some(m) else None
  }

  /** The date half of `isoformat()`: `YYYY-MM-DD`. */
  function DatePart(d: DateTime): (r: string)
    ensures |r| == 10
  {
    Pad(d.year, 4) + "-" + Pad(d.month, 2) + "-" + Pad(d.day, 2)
  }

  /** The time half of `isoformat()`: `HH:MM:SS`. */
  function TimePart(d: DateTime): (r: string)
    ensures |r| == 8
  {
    Pad(d.hour, 2) + ":" + Pad(d.minute, 2) + ":" + Pad(d.second, 2)
  }

  lemma DatePartFields(d: DateTime)
    ensures DatePart(d)[0..4] == Pad(d.year, 4) && DatePart(d)[4] == '-'
    ensures DatePart(d)[5..7] == Pad(d.month, 2) && DatePart(d)[7] == '-'
    ensures DatePart(d)[8..10] == Pad(d.day, 2)
  {
  }

  lemma TimePartFields(d: DateTime)
    ensures TimePart(d)[0..2] == Pad(d.hour, 2) && TimePart(d)[2] == ':'
    ensures TimePart(d)[3..5] == Pad(d.minute, 2) && TimePart(d)[5] == ':'
    ensures TimePart(d)[6..8] == Pad(d.second, 2)
  {
  }

  /** The slices `fromisoformat()` reads out of an `isoformat()` string are the padded fields. */
  lemma IsoFormatSlices(d: DateTime)
    ensures IsoFormat(d)[0..4] == Pad(d.year, 4) && IsoFormat(d)[4] == '-'
    ensures IsoFormat(d)[5..7] == Pad(d.month, 2) && IsoFormat(d)[7] == '-'
    ensures IsoFormat(d)[8..10] == Pad(d.day, 2)
    ensures IsoFormat(d)[11..13] == Pad(d.hour, 2) && IsoFormat(d)[13] == ':'
    ensures IsoFormat(d)[14..16] == Pad(d.minute, 2) && IsoFormat(d)[16] == ':'
    ensures IsoFormat(d)[17..19] == Pad(d.second, 2)
    ensures d.microsecond != 0 ==> IsoFormat(d)[19] == '.' && IsoFormat(d)[20..26] == Pad(d.microsecond, 6)
  {
    var s := IsoFormat(d);
    var tail := if d.microsecond == 0 then "" else "." + Pad(d.microsecond, 6);
    assert s == DatePart(d) + "T" + TimePart(d) + tail;
    assert s[0..10] == DatePart(d);
    assert s[11..19] == TimePart(d);
    assert s[19..] == tail;
    DatePartFields(d);
    TimePartFields(d);
    assert s[0..4] == s[0..10][0..4];
    assert s[5..7] == s[0..10][5..7];
    assert s[8..10] == s[0..10][8..10];
    assert s[11..13] == s[11..19][0..2];
    assert s[14..16] == s[11..19][3..5];
    assert s[17..19] == s[11..19][6..8];
    if d.microsecond != 0 {
      assert s[20..26] == s[19..][1..7];
    }
  }

  /** A padded field reads back as its number. */
  lemma PaddedNumber(n: nat, w: nat)
    requires n < Pow10(w)
    ensures Number(Pad(n, w)) == Some(n)
  {
    PadValue(n, w);
  }

  lemma Pow10Values()
    ensures Pow10(2) == 100 && Pow10(4) == 10000 && Pow10(6) == 1000000
  {
    assert Pow10(2) == 100;
    assert Pow10(4) == 10000;
  }

  /** A timestamp written by `isoformat()` is read back unchanged by `fromisoformat()`. */
  lemma IsoRoundTrip(d: DateTime)
    ensures FromIsoFormat(IsoFormat(d)) == Some(d)
  {
    IsoFormatSlices(d);
    Pow10Values();
    PaddedNumber(d.year, 4);
    PaddedNumber(d.month, 2);
    PaddedNumber(d.day, 2);
    PaddedNumber(d.hour, 2);
    PaddedNumber(d.minute, 2);
    PaddedNumber(d.second, 2);
    if d.microsecond != 0 {
      PaddedNumber(d.microsecond, 6);
    }
  }

  /** The position of a moment on the time line, for comparisons: fields weigh in the order
      year, month, day, hour, minute, second, microsecond, as `datetime` compares them. */
  function Ordinal(d: Moment): int {
    Radix(Radix(Radix(Radix(Radix(Radix(d.year, d.month, 13), d.day, 32), d.hour, 24), d.minute, 60), d.second, 60),
          d.microsecond, 1000000)
  }

  /** The number whose leading digits are worth `x` and whose last digit, in radix `m`, is `y`. */
  function Radix(x: int, y: int, m: int): int {
    x * m + y
  }

  /** `a < b` for datetimes: the first field in which they differ decides. */
  predicate Earlier(a: Moment, b: Moment) {
    if a.year != b.year then a.year < b.year
    else if a.month != b.month then a.month < b.month
    else if a.day != b.day then a.day < b.day
    else if a.hour != b.hour then a.hour < b.hour
    else if a.minute != b.minute then a.minute < b.minute
    else if a.second != b.second then a.second < b.second
    else a.microsecond < b.microsecond
  }

  /** How `x` compares to `y`: -1, 0 or 1. */
  function Sign(x: int, y: int): int {
    if x < y then -1 else if x == y then 0 else 1
  }

  /** Numbers written in a mixed radix compare as their leading digits, or, where those are
      equal, as their last digits. */
  lemma SignRadix(x1: int, y1: int, x2: int, y2: int, m: int)
    requires 0 <= y1 < m && 0 <= y2 < m
    ensures Sign(Radix(x1, y1, m), Radix(x2, y2, m)) == if x1 != x2 then Sign(x1, x2) else Sign(y1, y2)
  {
    if x1 < x2 {
      MulAtLeast(x2 - x1, m);
      assert (x2 - x1) * m == x2 * m - x1 * m;
    } else if x2 < x1 {
      MulAtLeast(x1 - x2, m);
      assert (x1 - x2) * m == x1 * m - x2 * m;
    }
  }

  lemma MulAtLeast(k: int, m: int)
    requires k >= 1 && m >= 0
    ensures k * m >= m
  {
    assert k * m == (k - 1) * m + m;
  }

  /** The ordinal orders datetimes exactly as `datetime` comparison does. */
  lemma OrdinalOrders(a: DateTime, b: DateTime)
    ensures Earlier(a, b) <==> Ordinal(a) < Ordinal(b)
  {
    assert a.day <= 31 && b.day <= 31;
    MomentsOrder(a, b);
  }

  /** The same for any moments whose fields after the year stay below their radix. */
  lemma MomentsOrder(a: Moment, b: Moment)
    requires 0 <= a.month < 13 && 0 <= a.day < 32 && 0 <= a.hour < 24 && 0 <= a.minute < 60 && 0 <= a.second < 60
    requires 0 <= b.month < 13 && 0 <= b.day < 32 && 0 <= b.hour < 24 && 0 <= b.minute < 60 && 0 <= b.second < 60
    requires 0 <= a.microsecond < 1000000 && 0 <= b.microsecond < 1000000
    ensures Earlier(a, b) <==> Ordinal(a) < Ordinal(b)
  {
    var na, nb := Radix(a.year, a.month, 13), Radix(b.year, b.month, 13);
    var da, db := Radix(na, a.day, 32), Radix(nb, b.day, 32);
    var ha, hb := Radix(da, a.hour, 24), Radix(db, b.hour, 24);
    var ma, mb := Radix(ha, a.minute, 60), Radix(hb, b.minute, 60);
    var sa, sb := Radix(ma, a.second, 60), Radix(mb, b.second, 60);
    SignRadix(a.year, a.month, b.year, b.month, 13);
    SignRadix(na, a.day, nb, b.day, 32);
    SignRadix(da, a.hour, db, b.hour, 24);
    SignRadix(ha, a.minute, hb, b.minute, 60);
    SignRadix(ma, a.second, mb, b.second, 60);
    SignRadix(sa, a.microsecond, sb, b.microsecond, 1000000);
  }
}
