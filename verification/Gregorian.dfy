/** The proleptic Gregorian calendar, one day after another: the leap rule of Appendix C of RFC 3339
    and the month lengths of its section 5.7. */
module Gregorian {
  datatype Date = Date(year: int, month: int, day: int)

  predicate IsLeap(year: int) { year % 4 == 0 && (year % 100 != 0 || year % 400 == 0) }

  function DaysInMonth(year: int, month: int): int {
    if month == 2 then (if IsLeap(year) then 29 else 28)
    else if month == 4 || month == 6 || month == 9 || month == 11 then 30
    else 31
  }

  /** A date that exists. */
  predicate IsReal(d: Date) { 1 <= d.month <= 12 && 1 <= d.day <= DaysInMonth(d.year, d.month) }

  const EPOCH := Date(1970, 1, 1)

  /** The day after `d`. */
  function Next(d: Date): (n: Date)
    requires IsReal(d)
    ensures IsReal(n)
  {
    if d.day < DaysInMonth(d.year, d.month) then d.(day := d.day + 1)
    else if d.month < 12 then Date(d.year, d.month + 1, 1)
    else Date(d.year + 1, 1, 1)
  }

  /** The day before `d`. */
  function Previous(d: Date): (p: Date)
    requires IsReal(d)
    ensures IsReal(p) && Next(p) == d
  {
    if 1 < d.day then d.(day := d.day - 1)
    else if 1 < d.month then Date(d.year, d.month - 1, DaysInMonth(d.year, d.month - 1))
    else Date(d.year - 1, 12, 31)
  }

  function Distance(n: int): nat { if n < 0 then -n else n }

  /** The date `n` days after the epoch, reached one day at a time. */
  function DateAt(n: int): (d: Date)
    ensures IsReal(d)
    decreases Distance(n)
  {
    if n == 0 then EPOCH
    else if n > 0 then Next(DateAt(n - 1))
    else Previous(DateAt(n + 1))
  }

  /** The date `n` days after `d`. */
  function Later(d: Date, n: nat): (e: Date)
    requires IsReal(d)
    ensures IsReal(e)
  {
    if n == 0 then d else Next(Later(d, n - 1))
  }

  predicate Before(d: Date, e: Date) {
    d.year < e.year || (d.year == e.year && (d.month < e.month || (d.month == e.month && d.day < e.day)))
  }
}
