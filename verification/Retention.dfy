/** How long a tax document is kept: six years from its issue, or from its upload when the issue is not known. */
module Retention {
  import opened Options

  /** A calendar day. */
  datatype Date = Date(year: int, month: int, day: int)

  const RETENTION_YEARS := 6

  predicate IsLeap(year: int) {
    year % 4 == 0 && (year % 100 != 0 || year % 400 == 0)
  }

  function LastDayOfMonth(year: int, month: int): int {
    if month in {4, 6, 9, 11} then 30
    else if month == 2 then (if IsLeap(year) then 29 else 28)
    else 31
  }

  predicate ValidDate(d: Date) {
    1 <= d.month <= 12 && 1 <= d.day <= LastDayOfMonth(d.year, d.month)
  }

  predicate NotAfter(a: Date, b: Date) {
    a.year < b.year || (a.year == b.year && (a.month < b.month || (a.month == b.month && a.day <= b.day)))
  }

  /** The same day some years later, or the last of the month if there is no such day. */
  function AddYears(d: Date, years: int): Date {
    var maxDay := LastDayOfMonth(d.year + years, d.month);
    Date(d.year + years, d.month, if d.day < maxDay then d.day else maxDay)
  }

  function RetentionUntil(fechaEmision: Option<Date>, createdAt: Date): Date {
    AddYears(if fechaEmision.Some? then fechaEmision.value else createdAt, RETENTION_YEARS)
  }

  /** The term is a day of the calendar, in the same month, and a later issue never makes it end sooner. */
  lemma RetentionIsMonotone(a: Date, b: Date)
    requires ValidDate(a) && ValidDate(b) && NotAfter(a, b)
    ensures ValidDate(AddYears(a, RETENTION_YEARS)) && NotAfter(AddYears(a, RETENTION_YEARS), AddYears(b, RETENTION_YEARS))
  {
  }

  /** Nothing is cut short: only a 29 February ends a day early, since six years later is never a leap year. */
  lemma RetentionDay(d: Date)
    requires ValidDate(d)
    ensures var r := AddYears(d, RETENTION_YEARS);
            r.day == if d.month == 2 && d.day == 29 then 28 else d.day
  {
    if IsLeap(d.year) {
      assert d.year % 4 == 0;
      assert (d.year + RETENTION_YEARS) % 4 == 2;
    }
  }

  /** A day that exists in some year, a 29 February in a year divisible by four. */
  predicate RealDay(d: Date) {
    && 1 <= d.month <= 12 && 1 <= d.day <= 31
    && (d.month in {4, 6, 9, 11} ==> d.day <= 30)
    && (d.month == 2 ==> d.day <= 29 && (d.day == 29 ==> d.year % 4 == 0))
  }

  /** Six years from the issue, or from the upload when the issue is not known; a 29 February ends on the 28th. */
  lemma SixYears(fechaEmision: Option<Date>, createdAt: Date)
    requires RealDay(createdAt) && (fechaEmision.Some? ==> RealDay(fechaEmision.value))
    ensures var start := if fechaEmision.Some? then fechaEmision.value else createdAt;
            RetentionUntil(fechaEmision, createdAt) == if start.month == 2 && start.day == 29 then Date(start.year + 6, 2, 28)
                                                       else Date(start.year + 6, start.month, start.day)
  {
    var start := if fechaEmision.Some? then fechaEmision.value else createdAt;
    if start.month == 2 && start.day == 29 {
      assert (start.year + 6) % 4 == 2;
    }
  }
}
