/** The persisted settings record, reduced to what the schedule screens read and write. */
module Config {

  import opened DaySelection

  class Settings {

    var enableCheckIns: bool
    var shouldPauseCheckIns: bool

    /** The resume instant, as an opaque timestamp; only the calendar code interprets it. */
    var dateTimeToResumeCheckInsAfterPause: int

    /** The weekly recurrence set; the record keeps this one set for its whole life. */
    const weekdaysForCheckIns: WeekdaySelections

    ghost predicate Valid()
      reads this, weekdaysForCheckIns
    {
      weekdaysForCheckIns.Valid()
    }

    /** The defaults: check-ins off, no pause, resume at `now`, every weekday selected. */
    constructor (now: int)
      ensures Valid() && fresh(weekdaysForCheckIns)
      ensures !enableCheckIns && !shouldPauseCheckIns && dateTimeToResumeCheckInsAfterPause == now
      ensures CountSelected(weekdaysForCheckIns.selections) == DaysPerWeek
    {
      enableCheckIns := false;
      shouldPauseCheckIns := false;
      dateTimeToResumeCheckInsAfterPause := now;
      weekdaysForCheckIns := new WeekdaySelections.AllSelections(true);
    }
  }
}
