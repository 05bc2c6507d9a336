/**
 * One schedule entry (`CheckInTime`): a mutable time of day plus the
 * `isSelected` mark used for batch deletion, shifting with wrap-around at
 * midnight, and the advisory "too close to another entry" spacing rule.
 */
module CheckIns {

  import opened Clock

  /** Entries less than this many seconds after another one are flagged. */
  const MinimumCheckInSpacingSeconds: int := 10 * 60

  const SecondsIn24Hours: int := 24 * 60 * 60

  /**
   * The time `shiftTime` produces. The source adds the hours and then the
   * minutes to the time placed on a fixed calendar day and reads the wall
   * clock back; on that day this is arithmetic modulo one day.
   */
  function ShiftedTime(t: LocalTime, shiftHours: int, shiftMinutes: int): (r: LocalTime)
    ensures r.InRange()
    ensures r.SecondsOfDay() == (t.SecondsOfDay() + shiftHours * SecondsPerHour + shiftMinutes * SecondsPerMinute) % SecondsPerDay
  {
    FromSecondsOfDay((t.SecondsOfDay() + shiftHours * 3600 + shiftMinutes * 60) % SecondsPerDay)
  }

  /** Dividing by one day has only one quotient and remainder in range. */
  lemma DivModDayUnique(a: int, q: int, r: int)
    requires 0 <= r < SecondsPerDay && a == SecondsPerDay * q + r
    ensures a / SecondsPerDay == q && a % SecondsPerDay == r
  {
  }

  /** Shifting never touches the seconds component of an in-range time. */
  lemma ShiftKeepsSecond(t: LocalTime, shiftHours: int, shiftMinutes: int)
    requires t.InRange()
    ensures ShiftedTime(t, shiftHours, shiftMinutes).second == t.second
  {
    var m := t.minute + 60 * t.hour + 60 * shiftHours + shiftMinutes;
    var x := t.SecondsOfDay() + shiftHours * SecondsPerHour + shiftMinutes * SecondsPerMinute;
    assert x == 60 * m + t.second;
    var q := x / SecondsPerDay;
    var rest := x % SecondsPerDay;
    assert rest == 60 * (m - 1440 * q) + t.second;
    DivModSixtyUnique(rest, m - 1440 * q, t.second);
  }

  /** Adding an offset modulo one day and then taking it away again gives back a value in the day. */
  lemma ModDayRoundTrip(n: int, d: int)
    requires 0 <= n < SecondsPerDay
    ensures ((n + d) % SecondsPerDay - d) % SecondsPerDay == n
  {
    var q := (n + d) / SecondsPerDay;
    assert (n + d) % SecondsPerDay - d == SecondsPerDay * (-q) + n;
    DivModDayUnique((n + d) % SecondsPerDay - d, -q, n);
  }

  /** Shifting back by the same offsets restores an in-range time. */
  lemma ShiftThenUnshift(t: LocalTime, shiftHours: int, shiftMinutes: int)
    requires t.InRange()
    ensures ShiftedTime(ShiftedTime(t, shiftHours, shiftMinutes), -shiftHours, -shiftMinutes) == t
  {
    var n := t.SecondsOfDay();
    var d := shiftHours * 3600 + shiftMinutes * 60;
    var once := ShiftedTime(t, shiftHours, shiftMinutes);
    assert once.SecondsOfDay() == (n + d) % SecondsPerDay;
    assert (-shiftHours) * 3600 + (-shiftMinutes) * 60 == -d;
    ModDayRoundTrip(n, d);
    assert ShiftedTime(once, -shiftHours, -shiftMinutes) == FromSecondsOfDay(n);
    FromSecondsOfDayOfInRange(t);
  }

  /** A shift that stays within the same day just adds the offset. */
  lemma ShiftWithinDay(t: LocalTime, shiftHours: int, shiftMinutes: int)
    requires 0 <= t.SecondsOfDay() + shiftHours * SecondsPerHour + shiftMinutes * SecondsPerMinute < SecondsPerDay
    ensures ShiftedTime(t, shiftHours, shiftMinutes).SecondsOfDay()
            == t.SecondsOfDay() + shiftHours * SecondsPerHour + shiftMinutes * SecondsPerMinute
  {
    var x := t.SecondsOfDay() + shiftHours * SecondsPerHour + shiftMinutes * SecondsPerMinute;
    DivModDayUnique(x, 0, x);
  }

  /** Two shifts in a row are one shift by the summed offsets. */
  lemma ShiftsCompose(t: LocalTime, h1: int, m1: int, h2: int, m2: int)
    ensures ShiftedTime(ShiftedTime(t, h1, m1), h2, m2) == ShiftedTime(t, h1 + h2, m1 + m2)
  {
    var n := t.SecondsOfDay();
    var d1, d2 := h1 * 3600 + m1 * 60, h2 * 3600 + m2 * 60;
    var once := ShiftedTime(t, h1, m1).SecondsOfDay();
    var q1 := (n + d1) / SecondsPerDay;
    var q2 := (once + d2) / SecondsPerDay;
    var r := (once + d2) % SecondsPerDay;
    assert once == n + d1 - SecondsPerDay * q1;
    assert n + d1 + d2 == SecondsPerDay * (q1 + q2) + r;
    assert (h1 + h2) * 3600 + (m1 + m2) * 60 == d1 + d2;
    DivModDayUnique(n + d1 + d2, q1 + q2, r);
  }

  /** Crossing midnight: 23:45:00 shifted by 1 h 30 min is 01:15:00. */
  lemma ShiftAcrossMidnight()
    ensures ShiftedTime(LocalTime(23, 45, 0), 1, 30) == LocalTime(1, 15, 0)
  {
    var t := LocalTime(23, 45, 0);
    assert t.SecondsOfDay() + 1 * 3600 + 30 * 60 == SecondsPerDay + 4500;
    DivModDayUnique(SecondsPerDay + 4500, 1, 4500);
    assert LocalTime(1, 15, 0).SecondsOfDay() == 4500;
    FromSecondsOfDayOfInRange(LocalTime(1, 15, 0));
  }

  /** The other entry's seconds, moved one day back when it is later than this one. */
  function ForcedIntoPast(selfSeconds: int, otherSeconds: int): (past: int)
    ensures 0 <= selfSeconds < SecondsIn24Hours && 0 <= otherSeconds < SecondsIn24Hours ==>
              selfSeconds - SecondsIn24Hours < past <= selfSeconds
    ensures past == otherSeconds || past == otherSeconds - SecondsIn24Hours
  {
    if otherSeconds > selfSeconds then otherSeconds - SecondsIn24Hours else otherSeconds
  }

  /** The spacing test of one ordered pair: the other entry lies less than ten minutes at or before this one. */
  predicate IsTooClose(selfSeconds: int, otherSeconds: int): (tooClose: bool)
    ensures selfSeconds == otherSeconds ==> tooClose
    ensures otherSeconds <= selfSeconds ==> (tooClose <==> selfSeconds - otherSeconds < MinimumCheckInSpacingSeconds)
  {
    selfSeconds - ForcedIntoPast(selfSeconds, otherSeconds) < MinimumCheckInSpacingSeconds
  }

  /** For seconds within one day the test is on the backward gap modulo one day. */
  lemma TooCloseIsBackwardGapModuloDay(selfSeconds: int, otherSeconds: int)
    requires 0 <= selfSeconds < SecondsPerDay && 0 <= otherSeconds < SecondsPerDay
    ensures IsTooClose(selfSeconds, otherSeconds)
            <==> (selfSeconds - otherSeconds) % SecondsPerDay < MinimumCheckInSpacingSeconds
  {
    var gap := selfSeconds - otherSeconds;
    if otherSeconds > selfSeconds {
      DivModDayUnique(gap, -1, gap + SecondsPerDay);
    } else {
      DivModDayUnique(gap, 0, gap);
    }
  }

  /**
   * The rule looks backwards only: of 08:00 and 08:09 only the later one is
   * flagged, equal times flag each other, 00:05 is flagged against 23:58 of
   * the previous day, and a gap of exactly ten minutes is no conflict.
   */
  lemma SpacingRuleExamples()
    ensures IsTooClose(LocalTime(8, 9, 0).SecondsOfDay(), LocalTime(8, 0, 0).SecondsOfDay())
    ensures !IsTooClose(LocalTime(8, 0, 0).SecondsOfDay(), LocalTime(8, 9, 0).SecondsOfDay())
    ensures IsTooClose(LocalTime(8, 0, 0).SecondsOfDay(), LocalTime(8, 0, 0).SecondsOfDay())
    ensures IsTooClose(LocalTime(0, 5, 0).SecondsOfDay(), LocalTime(23, 58, 0).SecondsOfDay())
    ensures !IsTooClose(LocalTime(23, 58, 0).SecondsOfDay(), LocalTime(0, 5, 0).SecondsOfDay())
    ensures !IsTooClose(LocalTime(8, 10, 0).SecondsOfDay(), LocalTime(8, 0, 0).SecondsOfDay())
    ensures !IsTooClose(LocalTime(8, 0, 0).SecondsOfDay(), LocalTime(8, 10, 0).SecondsOfDay())
  {
  }

  class CheckInTime {

    var time: LocalTime
    var isSelected: bool

    /** `init(hour:minute:second:)`; omitted components are zero. */
    constructor (hour: int := 0, minute: int := 0, second: int := 0)
      ensures time == LocalTime(hour, minute, second) && !isSelected
    {
      time := LocalTime(hour := hour, minute := minute, second := second);
      isSelected := false;
    }

    /** `init(date:)`, given the wall-clock components the calendar extracts from the date. */
    constructor WithDate(wallClock: LocalTime)
      requires wallClock.InRange()
      ensures time == wallClock && !isSelected
    {
      time := wallClock;
      isSelected := false;
    }

    /** `init(secondsOfDay:)`. */
    constructor WithSecondsOfDay(secondsOfDay: int)
      ensures time == FromSecondsOfDay(secondsOfDay) && !isSelected
      ensures time.SecondsOfDay() == secondsOfDay
    {
      time := FromSecondsOfDay(secondsOfDay);
      isSelected := false;
    }

    /** `init(checkInTime_AsTimeSource:)`: the same time, but a new, unselected entry. */
    constructor WithTimeOf(source: CheckInTime)
      ensures time == source.time && !isSelected
    {
      time := source.time;
      isSelected := false;
    }

    /** `setTime(time:)`: replaces the time only. */
    method SetTime(time: LocalTime)
      modifies this
      ensures this.time == time && isSelected == old(isSelected)
    {
      this.time := time;
    }

    /** `shiftTime(shiftHours:shiftMinutes:)`: moves the time, wrapping at midnight. */
    method ShiftTime(shiftHours: int, shiftMinutes: int)
      modifies this
      ensures time == ShiftedTime(old(time), shiftHours, shiftMinutes)
      ensures isSelected == old(isSelected)
    {
      time := ShiftedTime(time, shiftHours, shiftMinutes);
    }

    /** `clearSelection`: unmarks the entry and keeps its time. */
    method ClearSelection()
      modifies this
      ensures !isSelected && time == old(time)
    {
      isSelected := false;
    }

    /**
     * `isTooCloseToAnotherCheckInTime(checkInTimes:)`: whether some entry of
     * the list other than this very object lies less than ten minutes at or
     * before this one.
     */
    method IsTooCloseToAnotherCheckInTime(checkInTimes: seq<CheckInTime>) returns (tooClose: bool)
      ensures tooClose <==> exists j :: 0 <= j < |checkInTimes| && checkInTimes[j] != this
                              && IsTooClose(time.SecondsOfDay(), checkInTimes[j].time.SecondsOfDay())
    {
      var selfSecondsOfDay := time.SecondsOfDay();
      for i := 0 to |checkInTimes|
        invariant forall j :: 0 <= j < i && checkInTimes[j] != this
                    ==> !IsTooClose(selfSecondsOfDay, checkInTimes[j].time.SecondsOfDay())
      {
        var otherCheckInTime := checkInTimes[i];
        if this == otherCheckInTime {
          continue;
        }
        var otherSecondsOfDayForcedIntoPast := otherCheckInTime.time.SecondsOfDay();
        if otherSecondsOfDayForcedIntoPast > selfSecondsOfDay {
          otherSecondsOfDayForcedIntoPast := otherSecondsOfDayForcedIntoPast - SecondsIn24Hours;
        }
        var secondsDifference := selfSecondsOfDay - otherSecondsOfDayForcedIntoPast;
        if secondsDifference < MinimumCheckInSpacingSeconds {
          return true;
        }
      }
      return false;
    }

    /** `<`: entries are ordered by their times of day. */
    static function Less(lhs: CheckInTime, rhs: CheckInTime): (before: bool)
      reads lhs, rhs
      ensures lhs.time.InRange() && rhs.time.InRange() ==>
                (before <==> LexicographicallyBefore(lhs.time, rhs.time))
    {
      var before := lhs.time.SecondsOfDay() < rhs.time.SecondsOfDay();
      if lhs.time.InRange() && rhs.time.InRange() then
        SecondsOfDayOrderIsLexicographic(lhs.time, rhs.time);
        before
      else
        before
    }
  }
}
