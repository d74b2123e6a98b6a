/**
 Purchase timestamps and calendar months.

 A timestamp is a day ordinal (days since 1970-01-01, proleptic Gregorian
 calendar) together with the second within that day, and carries the
 calendar month it falls in. Timestamps compare lexicographically on (day,
 second), which is how pandas compares `datetime64` values. A calendar
 month is a (year, month) pair; months are also numbered consecutively by
 `MonthIndex`, which is what makes "contiguous months" a statement about
 integers.
 */
module Calendar {

  const SecondsPerDay: int := 86400

  datatype Timestamp = Timestamp(day: int, second: int, month: Month) {
    /** The second lies within its day and the month is the day's calendar
        month. */
    predicate Valid() {
      0 <= second < SecondsPerDay && month == CivilMonth(day)
    }
  }

  /** The timestamp at 00:00:00 of day `d` — what a bare date string such as
      "2017-03-01" denotes when it is compared with a timestamp. */
  function Midnight(d: int): (t: Timestamp)
    ensures t.Valid() && t.day == d && t.second == 0
  {
    Timestamp(d, 0, CivilMonth(d))
  }

  /** `a <= b` on timestamps. */
  predicate NotAfter(a: Timestamp, b: Timestamp) {
    a.day < b.day || (a.day == b.day && a.second <= b.second)
  }

  datatype Month = Month(year: int, month: int) {
    predicate Valid() {
      1 <= month <= 12
    }
  }

  /** Consecutive numbering of calendar months: January of year 0 is 0. */
  function MonthIndex(m: Month): int {
    m.year * 12 + (m.month - 1)
  }

  /** The calendar month with index `i`. */
  function MonthAt(i: int): (m: Month)
    ensures m.Valid()
    ensures MonthIndex(m) == i
  {
    Month(i / 12, i % 12 + 1)
  }

  /** Numbering valid months loses nothing. */
  lemma MonthAtIndex(m: Month)
    requires m.Valid()
    ensures MonthAt(MonthIndex(m)) == m
  {
  }

  /** The calendar month containing day ordinal `day`, by the standard
      days-to-civil conversion for the proleptic Gregorian calendar
      (eras of 400 years, years starting on 1 March internally). */
  function CivilMonth(day: int): Month {
    var z := day + 719468;
    var era := z / 146097;
    var doe := z - era * 146097;
    var yoe := (doe - doe / 1460 + doe / 36524 - doe / 146096) / 365;
    var doy := doe - (365 * yoe + yoe / 4 - yoe / 100);
    var mp := (5 * doy + 2) / 153;
    var m := if mp < 10 then mp + 3 else mp - 9;
    var y := yoe + era * 400;
    Month(if m <= 2 then y + 1 else y, m)
  }

  /** Index of the calendar month a timestamp falls in. */
  function MonthOf(t: Timestamp): int {
    MonthIndex(t.month)
  }
}
