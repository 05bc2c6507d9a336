/**
 * The wall-clock time-of-day value (`LocalTime`): three integer components
 * and their conversion to and from seconds-of-day.
 */
module Clock {

  const SecondsPerMinute: int := 60
  const SecondsPerHour: int := 60 * 60
  const SecondsPerDay: int := 24 * 60 * 60

  /** Swift's `/` on `Int`: the quotient truncated toward zero. */
  function Quot(a: int, b: int): (q: int)
    requires b > 0
    ensures a >= 0 ==> q == a / b
    ensures a >= 0 ==> b * q <= a < b * (q + 1)
    ensures a < 0 ==> b * (q - 1) < a <= b * q
  {
    if a >= 0 then a / b else -((-a) / b)
  }

  /** Swift's `%` on `Int`: the remainder carries the sign of the dividend. */
  function Rem(a: int, b: int): (r: int)
    requires b > 0
    ensures a == b * Quot(a, b) + r
    ensures a >= 0 ==> 0 <= r < b && r == a % b
    ensures a < 0 ==> -b < r <= 0
  {
    a - b * Quot(a, b)
  }

  /**
   * An immutable time of day. The field comments give the ranges hour 0-23,
   * minute 0-59 and second 0-59, but the initializer stores whatever it is
   * given; omitted components default to zero.
   */
  datatype LocalTime = LocalTime(hour: int := 0, minute: int := 0, second: int := 0) {

    /** The commented component ranges; nothing in the type enforces them. */
    predicate InRange() {
      0 <= hour < 24 && 0 <= minute < 60 && 0 <= second < 60
    }

    /** Seconds since midnight. */
    function SecondsOfDay(): (n: int)
      ensures InRange() ==> 0 <= n < SecondsPerDay
      ensures InRange() ==> n % SecondsPerMinute == second
    {
      second + minute * 60 + hour * 60 * 60
    }
  }

  /**
   * `LocalTime.from(secondsOfDay:)`: splits a second count into components
   * with Swift's truncating division, without reducing modulo one day.
   * Splitting and recombining gives back every integer, negative or not.
   */
  function FromSecondsOfDay(secondsOfDay: int): (t: LocalTime)
    ensures t.SecondsOfDay() == secondsOfDay
    ensures 0 <= secondsOfDay < SecondsPerDay ==> t.InRange()
    ensures secondsOfDay >= 0 ==>
              t.second == secondsOfDay % 60 && t.minute == (secondsOfDay / 60) % 60 && t.hour == secondsOfDay / 3600
  {
    var second := Rem(secondsOfDay, 60);
    var minuteWithOverflow := Quot(secondsOfDay, 60);
    var minute := Rem(minuteWithOverflow, 60);
    var hour := Quot(minuteWithOverflow, 60);
    LocalTime(hour := hour, minute := minute, second := second)
  }

  /** The only in-range time with a given seconds-of-day is the one its components give. */
  lemma FromSecondsOfDayOfInRange(t: LocalTime)
    requires t.InRange()
    ensures FromSecondsOfDay(t.SecondsOfDay()) == t
  {
    var n := t.SecondsOfDay();
    var m := t.minute + 60 * t.hour;
    assert n == t.second + 60 * m;
    DivModSixtyUnique(n, m, t.second);
    DivModSixtyUnique(m, t.hour, t.minute);
  }

  /** Division by 60 has only one quotient and remainder in range. */
  lemma DivModSixtyUnique(a: int, q: int, r: int)
    requires 0 <= r < 60 && a == 60 * q + r
    ensures a / 60 == q && a % 60 == r
  {
  }

  /** Lexicographic order on (hour, minute, second). */
  predicate LexicographicallyBefore(a: LocalTime, b: LocalTime) {
    a.hour < b.hour
    || (a.hour == b.hour && a.minute < b.minute)
    || (a.hour == b.hour && a.minute == b.minute && a.second < b.second)
  }

  /** For in-range times, comparing seconds-of-day is comparing components lexicographically. */
  lemma SecondsOfDayOrderIsLexicographic(a: LocalTime, b: LocalTime)
    requires a.InRange() && b.InRange()
    ensures a.SecondsOfDay() < b.SecondsOfDay() <==> LexicographicallyBefore(a, b)
    ensures a.SecondsOfDay() == b.SecondsOfDay() <==> a == b
  {
    if a.SecondsOfDay() == b.SecondsOfDay() {
      FromSecondsOfDayOfInRange(a);
      FromSecondsOfDayOfInRange(b);
    }
  }
}
