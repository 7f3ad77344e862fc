/** Day numbers and weekday names. A date is the number of days since
    1970-01-01, which was a Thursday. */
module Calendar {

  /** The weekday names in the Sunday-first order used by the chart. */
  const WeekdayNames: seq<string> :=
    ["Sunday", "Monday", "Tuesday", "Wednesday", "Thursday", "Friday", "Saturday"]

  /** Sunday-first weekday index of a day number (the `%w` directive). */
  function Weekday(day: int): (w: nat)
    ensures w < 7
  {
    (day + 4) % 7
  }

  /** Full weekday name of a day number (the `%A` directive). */
  function DayName(day: int): string
  {
    WeekdayNames[Weekday(day)]
  }

  /** The seven names are pairwise different. */
  lemma WeekdayNamesDistinct()
    ensures forall i, j :: 0 <= i < j < 7 ==> WeekdayNames[i] != WeekdayNames[j]
  {
  }

  /** A day and the same day one week later share a weekday. */
  lemma {:induction false} WeekdayPeriodic(day: int)
    ensures Weekday(day + 7) == Weekday(day)
    ensures DayName(day + 7) == DayName(day)
  {
    assert day + 7 + 4 == (day + 4) + 7 * 1;
  }

  /** Within any seven consecutive days no weekday name repeats. */
  lemma {:induction false} DayNameInjective(lo: int, a: int, b: int)
    requires lo <= a < lo + 7 && lo <= b < lo + 7
    ensures DayName(a) == DayName(b) <==> a == b
  {
    if DayName(a) == DayName(b) {
      WeekdayNamesDistinct();
      assert Weekday(a) == Weekday(b);
      var qa, qb := (a + 4) / 7, (b + 4) / 7;
      assert a + 4 == 7 * qa + Weekday(a);
      assert b + 4 == 7 * qb + Weekday(b);
      assert 7 * (qa - qb) == a - b;
    }
  }
}
