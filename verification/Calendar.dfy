// The 05:00 boundaries of util/timer.go, with the game zone as a fixed UTC+8.
module Calendar {

  const MS := 1000
  const HOUR := 3600
  const DAY := 86400
  const ZONE := 8 * HOUR

  // Local dates up to the end of the year 9999 print and parse back.
  const LAST_DAY := 2932896

  // The longest span a duration of 64 bits of nanoseconds holds, in days.
  const LONGEST_SPAN := 106751

  // ---- local time ----------------------------------------------------------------------

  function LocalSeconds(ms: nat): nat {
    ms / MS + ZONE
  }

  // Days since 1970-01-01, a Thursday.
  function Day(ms: nat): nat {
    LocalSeconds(ms) / DAY
  }

  function Hour(ms: nat): (h: nat)
  {
    LocalSeconds(ms) % DAY / HOUR
  }

  // Sunday is 0.
  function Weekday(day: nat): nat {
    (day + 4) % 7
  }

  // The instant of 05:00 on a local day, in milliseconds.
  function FiveOClock(day: int): int {
    (day * DAY + 5 * HOUR - ZONE) * MS
  }

  lemma HourIsFive(ms: nat)
    ensures Hour(ms) >= 5 <==> FiveOClock(Day(ms)) <= ms
    ensures FiveOClock(Day(ms) - 1) <= ms < FiveOClock(Day(ms) + 1)
  {
    var s := LocalSeconds(ms);
    assert s == Day(ms) * DAY + s % DAY;
    var r := s % DAY;
    assert r == r / HOUR * HOUR + r % HOUR;
    assert ms == ms / MS * MS + ms % MS;
  }

  // An instant is at or before ms exactly when its day is before today, or is today and
  // the hour has come.
  lemma ReachedExactly(ms: nat, day: int)
    ensures FiveOClock(day) <= ms <==> day < Reached(ms)
  {
    HourIsFive(ms);
  }

  // How many days, counted from day 0, had their 05:00 by ms.
  function Reached(ms: nat): nat {
    Day(ms) + if Hour(ms) >= 5 then 1 else 0
  }

  // ---- the next Monday -------------------------------------------------------------------

  // AddDate, printing the date and parsing it keep the local day.
  function GetLatestWeek5Hour(ms: nat): int
  {
    var today := Weekday(Day(ms));
    var curWeekDay := if today == 0 then 7 else today;
    var delDay := if curWeekDay == 1 then if Hour(ms) >= 5 then 7 else 0 else 7 - curWeekDay + 1;
    FiveOClock(Day(ms) + delDay)
  }

  predicate MondayFive(t: int, day: int) {
    day % 7 == 4 && t == FiveOClock(day)
  }

  // It is the least Monday 05:00 strictly after ms.
  lemma NextMonday(ms: nat)
    requires ms > 0 && Day(ms) + 7 <= LAST_DAY
    ensures var t := GetLatestWeek5Hour(ms);
            && t > ms
            && (exists day :: MondayFive(t, day))
            && forall u, day :: MondayFive(u, day) && u > ms ==> t <= u
  {
    var day := Day(ms);
    var today := Weekday(day);
    var curWeekDay := if today == 0 then 7 else today;
    var delDay := if curWeekDay == 1 then if Hour(ms) >= 5 then 7 else 0 else 7 - curWeekDay + 1;
    var next := day + delDay;
    var t := GetLatestWeek5Hour(ms);
    assert next % 7 == 4;
    assert MondayFive(t, next);
    HourIsFive(ms);
    forall u, d | MondayFive(u, d) && u > ms ensures t <= u {
      ReachedExactly(ms, d);
      assert d >= Reached(ms);
      SameResidue(d, next, Reached(ms));
    }
  }

  // Of the days from `start` on, a Monday less than a week later is the first.
  lemma SameResidue(d: int, next: int, start: int)
    requires d % 7 == next % 7 && d >= start && next < start + 7
    ensures d >= next
  {
  }

  // ---- days between --------------------------------------------------------------------

  function GetDurationDay2(t1: nat, t2: nat): int {
    Day(t2) - Day(t1) + (if Hour(t1) < 5 then 1 else 0) + (if Hour(t2) >= 5 then 1 else 0)
  }

  // The days whose 05:00 falls in (t1, t2].
  function FivesBetween(t1: nat, t2: nat): set<int> {
    set day: int | Reached(t1) <= day < Reached(t2) && t1 < FiveOClock(day) <= t2
  }

  function Interval(lo: int, hi: int): (r: set<int>)
    requires lo <= hi
    ensures |r| == hi - lo && forall day :: day in r <==> lo <= day < hi
    decreases hi - lo
  {
    if lo == hi then {} else Interval(lo, hi - 1) + {hi - 1}
  }

  // One less than the result is how often the clock struck 05:00 in (t1, t2].
  lemma DurationCounts(t1: nat, t2: nat)
    requires t1 <= t2 && Day(t2) <= LAST_DAY && Day(t2) - Day(t1) <= LONGEST_SPAN
    ensures GetDurationDay2(t1, t2) - 1 == |FivesBetween(t1, t2)|
    ensures forall day :: day in FivesBetween(t1, t2) <==> t1 < FiveOClock(day) <= t2
  {
    forall day ensures t1 < FiveOClock(day) <= t2 <==> Reached(t1) <= day < Reached(t2) {
      ReachedExactly(t1, day);
      ReachedExactly(t2, day);
    }
    ReachedExactly(t1, Reached(t1) - 1);
    ReachedExactly(t2, Reached(t1) - 1);
    assert FivesBetween(t1, t2) == Interval(Reached(t1), Reached(t2));
  }

  // Adjoining spans share no 05:00 and miss none, so their counts add up.
  lemma DurationAdds(t1: nat, t2: nat, t3: nat)
    requires t1 <= t2 <= t3 && Day(t3) <= LAST_DAY && Day(t3) - Day(t1) <= LONGEST_SPAN
    ensures FivesBetween(t1, t2) !! FivesBetween(t2, t3)
    ensures FivesBetween(t1, t3) == FivesBetween(t1, t2) + FivesBetween(t2, t3)
    ensures GetDurationDay2(t1, t3) - 1 == (GetDurationDay2(t1, t2) - 1) + (GetDurationDay2(t2, t3) - 1)
  {
    DurationCounts(t1, t2);
    DurationCounts(t2, t3);
    DurationCounts(t1, t3);
  }

  // ---- known instants --------------------------------------------------------------------

  // 1970-01-01 was a Thursday and began at 8 o'clock in the zone; 2024-01-01 was a Monday,
  // and its 05:00 came 1704056400 seconds later by the world's clock.
  lemma KnownInstants()
    ensures Day(0) == 0 && Hour(0) == 8 && Weekday(0) == 4
    ensures Day(1704056400000) == 19723 && Hour(1704056400000) == 5 && Weekday(19723) == 1
    ensures FiveOClock(19723) == 1704056400000
    ensures GetLatestWeek5Hour(1704056399999) == 1704056400000
    ensures GetLatestWeek5Hour(1704056400000) == 1704056400000 + 7 * 86400000
    ensures GetDurationDay2(1704056399999, 1704056400000) == 2
  {
  }
}
