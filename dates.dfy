/**
 * Calendar values a person's identity and birthday are made of: the
 * parts of java.time.LocalDate and java.time.MonthDay that the friend
 * model reads. Calendar validity (month ranges, leap years) is not
 * checked here; every date is taken to be a valid one.
 */
module Dates {

  /** A calendar date: year, month of year (1 to 12), day of month. */
  datatype LocalDate = LocalDate(year: int, month: int, day: int)

  /** A month of year and a day of month, with no year. */
  datatype MonthDay = MonthDay(month: int, day: int)

  /** MonthDay.from: the month and day of a date, its year discarded. */
  function MonthDayFrom(d: LocalDate): (md: MonthDay)
    ensures md.month == d.month && md.day == d.day
  {
    MonthDay(d.month, d.day)
  }

  /**
   * Two dates have the same month-and-day exactly when they agree on
   * month and day, whatever their years.
   */
  lemma MonthDayFromIgnoresYear(d: LocalDate, e: LocalDate)
    ensures MonthDayFrom(d) == MonthDayFrom(e) <==> d.month == e.month && d.day == e.day
    ensures MonthDayFrom(d.(year := e.year)) == MonthDayFrom(d)
  {
  }
}
