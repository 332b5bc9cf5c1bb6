/**
 * Calendar dates and naive timestamps (Python `date`, `datetime` and pandas
 * `Timestamp`), kept as calendar fields so that comparison is field by field,
 * as it is for the values themselves.
 */
module Dates {
  import opened Text

  const MicrosPerSecond: int := 1_000_000
  const MicrosPerDay: int := 86_400_000_000

  datatype Date = Date(year: int, month: int, day: int)

  /** A naive timestamp: a date and the microsecond of that day. */
  datatype Stamp = Stamp(date: Date, micros: int)

  predicate Leap(y: int) {
    y % 4 == 0 && (y % 100 != 0 || y % 400 == 0)
  }

  function DaysInMonth(y: int, m: int): (n: int)
    requires 1 <= m <= 12
    ensures 28 <= n <= 31
  {
    if m == 2 then (if Leap(y) then 29 else 28)
    else if m == 4 || m == 6 || m == 9 || m == 11 then 30
    else 31
  }

  predicate ValidDate(d: Date) {
    1 <= d.year <= 9999 && 1 <= d.month <= 12 && 1 <= d.day <= DaysInMonth(d.year, d.month)
  }

  predicate ValidStamp(t: Stamp) {
    ValidDate(t.date) && 0 <= t.micros < MicrosPerDay
  }

  /** `a <= b` on dates. */
  predicate DateLe(a: Date, b: Date) {
    a.year < b.year
    || (a.year == b.year && (a.month < b.month || (a.month == b.month && a.day <= b.day)))
  }

  /** `a <= b` on timestamps. */
  predicate StampLe(a: Stamp, b: Stamp) {
    (a.date != b.date && DateLe(a.date, b.date)) || (a.date == b.date && a.micros <= b.micros)
  }

  /** `datetime.combine(d, time.min)`. */
  function StartOfDay(d: Date): Stamp {
    Stamp(d, 0)
  }

  /** `datetime.combine(d, time.max)`, 23:59:59.999999. */
  function EndOfDay(d: Date): Stamp {
    Stamp(d, MicrosPerDay - 1)
  }

  /** `Timestamp.date()`. */
  function DateOf(t: Stamp): Date {
    t.date
  }

  lemma DateLeTotal(a: Date, b: Date)
    ensures DateLe(a, b) || DateLe(b, a)
    ensures DateLe(a, b) && DateLe(b, a) ==> a == b
  {
  }

  lemma DateLeTrans(a: Date, b: Date, c: Date)
    requires DateLe(a, b) && DateLe(b, c)
    ensures DateLe(a, c)
  {
  }

  /** `<=` on timestamps is a total order. */
  lemma StampLeOrder(a: Stamp, b: Stamp, c: Stamp)
    ensures StampLe(a, a)
    ensures StampLe(a, b) || StampLe(b, a)
    ensures StampLe(a, b) && StampLe(b, a) ==> a == b
    ensures StampLe(a, b) && StampLe(b, c) ==> StampLe(a, c)
  {
    DateLeTotal(a.date, b.date);
    if StampLe(a, b) && StampLe(b, c) {
      if a.date != b.date && b.date != c.date {
        DateLeTrans(a.date, b.date, c.date);
        DateLeTotal(a.date, c.date);
      }
    }
  }

  /** A timestamp lies between the start of day `d1` and the end of day `d2`
      exactly when its date lies between `d1` and `d2`. */
  lemma DayWindow(d1: Date, d2: Date, t: Stamp)
    requires ValidStamp(t)
    ensures StampLe(StartOfDay(d1), t) && StampLe(t, EndOfDay(d2))
        <==> DateLe(d1, t.date) && DateLe(t.date, d2)
  {
  }

  /** The position of a date among all dates with months of at most 31 days. */
  function DayNumber(d: Date): int {
    (d.year * 12 + (d.month - 1)) * 31 + (d.day - 1)
  }

  /** A timestamp as one number, for ordering. */
  function StampKey(t: Stamp): int {
    DayNumber(t.date) * MicrosPerDay + t.micros
  }

  lemma {:induction false} DayNumberOrder(a: Date, b: Date)
    requires ValidDate(a) && ValidDate(b)
    ensures DateLe(a, b) <==> DayNumber(a) <= DayNumber(b)
    ensures DayNumber(a) == DayNumber(b) ==> a == b
  {
    assert a.day <= 31 && b.day <= 31;
  }

  /** On timestamps that exist, the number orders as `<=` does. */
  lemma StampKeyOrder(a: Stamp, b: Stamp)
    requires ValidStamp(a) && ValidStamp(b)
    ensures StampLe(a, b) <==> StampKey(a) <= StampKey(b)
  {
    DayNumberOrder(a.date, b.date);
  }

  // ---------------------------------------------------------------------
  // text forms

  /** The English month name used by `strftime("%B")`. */
  function MonthName(m: int): (r: string)
    requires 1 <= m <= 12
    ensures |r| >= 3
  {
    ["January", "February", "March", "April", "May", "June", "July",
     "August", "September", "October", "November", "December"][m - 1]
  }

  /** `d.strftime("%B %Y")`. */
  function MonthYear(d: Date): (r: string)
    requires ValidDate(d)
  {
    MonthName(d.month) + " " + PadNat(d.year, 4)
  }

  /** `str(d)`, ISO `YYYY-MM-DD`. */
  function ShowDate(d: Date): (r: string)
    requires ValidDate(d)
    ensures |r| == 10 && r[4] == '-' && r[7] == '-'
  {
    PadNat(d.year, 4) + "-" + PadNat(d.month, 2) + "-" + PadNat(d.day, 2)
  }

  /** `str(t)`: `YYYY-MM-DD HH:MM:SS`, with `.ffffff` only when the
      microseconds are not zero. */
  function ShowStamp(t: Stamp): (r: string)
    requires ValidStamp(t)
    ensures |r| == 19 || |r| == 26
    ensures r[..10] == ShowDate(t.date) && r[10] == ' '
  {
    var secs := t.micros / MicrosPerSecond;
    var frac := t.micros % MicrosPerSecond;
    ShowDate(t.date) + " " + PadNat(secs / 3600, 2) + ":" + PadNat(secs / 60 % 60, 2) + ":" + PadNat(secs % 60, 2)
      + (if frac == 0 then "" else "." + PadNat(frac, 6))
  }
}
