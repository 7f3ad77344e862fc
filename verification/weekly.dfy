/** The weekly bar chart: per-day occurrence counts are cut to a window
    ending today, labelled with weekday names, and padded with zero bars so
    that the seven weekday names appear in the order of the past week. */
module Weekly {
  import opened Calendar

  /** One row of the per-day count query: a day number and how many
      occurrences were logged on it. */
  datatype DayCount = DayCount(day: int, amount: nat)

  /** One bar of the chart: a weekday name and a count. */
  datatype Bar = Bar(name: string, count: nat)

  /** Days strictly increase along the rows, as the grouped, ordered query
      returns them. */
  predicate StrictlyAscending(rows: seq<DayCount>)
  {
    forall i, j :: 0 <= i < j < |rows| ==> rows[i].day < rows[j].day
  }

  // ---------------------------------------------------------------------
  // The window filter
  // ---------------------------------------------------------------------

  /** The rows whose day lies in `[lo, hi]`, in input order. */
  function InWindow(rows: seq<DayCount>, lo: int, hi: int): (r: seq<DayCount>)
    ensures |r| <= |rows|
    ensures forall k :: 0 <= k < |r| ==> r[k] in rows && lo <= r[k].day <= hi
  {
    if |rows| == 0 then []
    else
      var init := rows[..|rows| - 1];
      var last := rows[|rows| - 1];
      assert forall x :: x in init ==> x in rows;
      if lo <= last.day <= hi then InWindow(init, lo, hi) + [last] else InWindow(init, lo, hi)
  }

  /** Every row in the window is kept. */
  lemma {:induction false} InWindowComplete(rows: seq<DayCount>, lo: int, hi: int)
    ensures forall k :: 0 <= k < |rows| && lo <= rows[k].day <= hi ==> rows[k] in InWindow(rows, lo, hi)
  {
    if |rows| > 0 {
      var init := rows[..|rows| - 1];
      InWindowComplete(init, lo, hi);
      assert forall k :: 0 <= k < |init| ==> rows[k] == init[k];
    }
  }

  /** Keeping a subset of the rows keeps them in ascending order. */
  lemma {:induction false} InWindowAscending(rows: seq<DayCount>, lo: int, hi: int)
    requires StrictlyAscending(rows)
    ensures StrictlyAscending(InWindow(rows, lo, hi))
  {
    if |rows| > 0 {
      var init := rows[..|rows| - 1];
      var last := rows[|rows| - 1];
      assert StrictlyAscending(init);
      InWindowAscending(init, lo, hi);
      var kept := InWindow(init, lo, hi);
      forall x | x in kept
        ensures x.day < last.day
      {
        var k :| 0 <= k < |init| && init[k] == x;
        assert rows[k] == x;
      }
    }
  }

  /** Labels each row with the name of its weekday. */
  function Bars(rows: seq<DayCount>): seq<Bar>
  {
    seq(|rows|, k requires 0 <= k < |rows| => Bar(DayName(rows[k].day), rows[k].amount))
  }

  /** The names along a list of bars. */
  function Names(bars: seq<Bar>): seq<string>
  {
    seq(|bars|, k requires 0 <= k < |bars| => bars[k].name)
  }

  /** The bars `weekly_bar_data` collects before padding: every row dated from
      seven days before `now` up to `now` inclusive, an eight-day window. */
  function WindowBars(rows: seq<DayCount>, now: int): seq<Bar>
  {
    Bars(InWindow(rows, now - 7, now))
  }

  // ---------------------------------------------------------------------
  // The weekday rotation
  // ---------------------------------------------------------------------

  /** The seven weekday names, rotated to start one place after the weekday
      of the day seven days before `now`. When that day is a Saturday the
      start index is 7 and the slice leaves the list as it is. */
  function RotatedWeekdays(now: int): (r: seq<string>)
    ensures |r| == 7
  {
    var first := Weekday(now - 7) + 1;
    WeekdayNames[first..] + WeekdayNames[..first]
  }

  /** The rotation is a cyclic shift of the Sunday-first names by one more
      than the weekday index of `now - 7`. */
  lemma RotationShape(now: int)
    ensures forall i :: 0 <= i < 7 ==>
      RotatedWeekdays(now)[i] == WeekdayNames[(Weekday(now - 7) + 1 + i) % 7]
  {
    var first := Weekday(now - 7) + 1;
    forall i | 0 <= i < 7
      ensures RotatedWeekdays(now)[i] == WeekdayNames[(first + i) % 7]
    {
      ShiftAt(first, i);
    }
  }

  /** Position `i` of the names rotated at `first`. */
  lemma ShiftAt(first: int, i: int)
    requires 1 <= first <= 7 && 0 <= i < 7
    ensures (WeekdayNames[first..] + WeekdayNames[..first])[i] == WeekdayNames[(first + i) % 7]
  {
    var tail, head := WeekdayNames[first..], WeekdayNames[..first];
    if i < 7 - first {
      SmallMod(first + i);
      assert (tail + head)[i] == tail[i];
    } else {
      SmallMod(first + i);
      assert (tail + head)[i] == head[i - (7 - first)];
    }
  }

  lemma SmallMod(x: int)
    requires 0 <= x < 14
    ensures x % 7 == (if x < 7 then x else x - 7)
  {
  }

  /** The rotation holds each weekday name exactly once. */
  lemma RotationPermutation(now: int)
    ensures multiset(RotatedWeekdays(now)) == multiset(WeekdayNames)
  {
    var first := Weekday(now - 7) + 1;
    SwapMultiset(WeekdayNames[first..], WeekdayNames[..first]);
    assert WeekdayNames[..first] + WeekdayNames[first..] == WeekdayNames;
  }

  /** Swapping the two halves of a list keeps its elements. */
  lemma SwapMultiset<T>(a: seq<T>, b: seq<T>)
    ensures multiset(a + b) == multiset(b + a)
  {
  }

  /** The names of the `n` consecutive days starting at `lo`. */
  function WeekNames(lo: int, n: nat): seq<string>
  {
    seq(n, j => DayName(lo + j))
  }

  /** The rotated list names the seven days that end with `now`. */
  lemma RotationEndsToday(now: int)
    ensures RotatedWeekdays(now) == WeekNames(now - 6, 7)
  {
    var r := RotatedWeekdays(now);
    var w := WeekNames(now - 6, 7);
    forall i | 0 <= i < 7
      ensures r[i] == w[i]
    {
      var k := (Weekday(now - 7) + 1 + i) % 7;
      RotationShape(now);
      assert r[i] == WeekdayNames[k];
      RotatedIndex(now, i);
      assert k == Weekday(now - 6 + i);
      assert w[i] == DayName(now - 6 + i);
    }
  }

  /** Position `i` of the rotation is the weekday of day `now - 6 + i`. */
  lemma {:induction false} RotatedIndex(now: int, i: int)
    ensures (Weekday(now - 7) + 1 + i) % 7 == Weekday(now - 6 + i)
  {
    var x := now - 3;
    var q, y := x / 7, x % 7;
    assert x == 7 * q + y;
    assert now - 6 + i + 4 == 7 * q + (y + 1 + i);
    ModShift(y + 1 + i, q);
  }

  /** Adding whole weeks does not change a remainder modulo seven. */
  lemma {:induction false} ModShift(x: int, q: int)
    ensures (7 * q + x) % 7 == x % 7
  {
    var a, b := (7 * q + x) / 7, x / 7;
    assert 7 * q + x == 7 * a + (7 * q + x) % 7;
    assert x == 7 * b + x % 7;
    assert 7 * (q + b - a) == (7 * q + x) % 7 - x % 7;
  }

  // ---------------------------------------------------------------------
  // The padding loop
  // ---------------------------------------------------------------------

  /** `s` with `x` placed at index `i`. */
  function InsertAt(s: seq<Bar>, i: nat, x: Bar): seq<Bar>
    requires i <= |s|
  {
    s[..i] + [x] + s[i..]
  }

  /** The padding loop from index `i` on: a missing trailing weekday is
      appended, a position whose name differs from the expected weekday gets
      a zero bar inserted in front of it, and a matching one is kept. */
  function FillFrom(weekdays: seq<string>, cur: seq<Bar>, i: nat): seq<Bar>
    requires i <= |cur|
    decreases |weekdays| - i
  {
    if i >= |weekdays| then cur
    else if i >= |cur| then FillFrom(weekdays, cur + [Bar(weekdays[i], 0)], i + 1)
    else if weekdays[i] != cur[i].name then FillFrom(weekdays, InsertAt(cur, i, Bar(weekdays[i], 0)), i + 1)
    else FillFrom(weekdays, cur, i + 1)
  }

  /** The whole padding loop. */
  function GapFill(weekdays: seq<string>, data: seq<Bar>): seq<Bar>
  {
    FillFrom(weekdays, data, 0)
  }

  /** `dst` is `src` with zero-count bars inserted: `pos` maps each bar of
      `src` to its place in `dst`, keeps their order, and every other place
      of `dst` holds a zero count. */
  ghost predicate Embeds(src: seq<Bar>, dst: seq<Bar>, pos: seq<int>)
  {
    && |pos| == |src|
    && (forall k :: 0 <= k < |pos| ==> 0 <= pos[k] < |dst| && dst[pos[k]] == src[k])
    && (forall k, l :: 0 <= k < l < |pos| ==> pos[k] < pos[l])
    && (forall j :: 0 <= j < |dst| && j !in pos ==> dst[j].count == 0)
  }

  lemma EmbedsSelf(s: seq<Bar>) returns (pos: seq<int>)
    ensures Embeds(s, s, pos)
  {
    pos := seq(|s|, k => k);
    forall j | 0 <= j < |s|
      ensures j in pos
    {
      assert pos[j] == j;
    }
  }

  lemma EmbedsInsert(s: seq<Bar>, i: nat, x: Bar) returns (pos: seq<int>)
    requires i <= |s| && x.count == 0
    ensures Embeds(s, InsertAt(s, i, x), pos)
  {
    pos := seq(|s|, k => if k < i then k else k + 1);
    var t := InsertAt(s, i, x);
    forall k | 0 <= k < |s|
      ensures t[pos[k]] == s[k]
    {
      if k < i {
        assert t[k] == s[k];
      } else {
        assert t[k + 1] == s[k];
      }
    }
    forall j | 0 <= j < |t| && j != i
      ensures j in pos
    {
      if j < i {
        assert pos[j] == j;
      } else {
        assert pos[j - 1] == j;
      }
    }
  }

  lemma EmbedsCompose(a: seq<Bar>, b: seq<Bar>, c: seq<Bar>, p: seq<int>, q: seq<int>)
    returns (pq: seq<int>)
    requires Embeds(a, b, p) && Embeds(b, c, q)
    ensures Embeds(a, c, pq)
  {
    pq := seq(|p|, k requires 0 <= k < |p| && 0 <= p[k] < |q| => q[p[k]]);
    forall t | 0 <= t < |q| && t in p
      ensures q[t] in pq
    {
      var k :| 0 <= k < |p| && p[k] == t;
      assert pq[k] == q[t];
    }
    forall j | 0 <= j < |c| && j !in pq
      ensures c[j].count == 0
    {
      if j in q {
        var t :| 0 <= t < |q| && q[t] == j;
        assert b[t].count == 0;
      }
    }
  }

  /** The padding loop keeps every bar it is given, in order, and adds only
      zero-count bars. */
  lemma {:induction false} FillEmbeds(weekdays: seq<string>, cur: seq<Bar>, i: nat)
    returns (pos: seq<int>)
    requires i <= |cur|
    ensures Embeds(cur, FillFrom(weekdays, cur, i), pos)
    decreases |weekdays| - i
  {
    if i >= |weekdays| {
      pos := EmbedsSelf(cur);
    } else {
      var z := Bar(weekdays[i], 0);
      if i >= |cur| || weekdays[i] != cur[i].name {
        var next := InsertAt(cur, i, z);
        assert i >= |cur| ==> cur + [z] == next;
        var p := EmbedsInsert(cur, i, z);
        var q := FillEmbeds(weekdays, next, i + 1);
        pos := EmbedsCompose(cur, next, FillFrom(weekdays, next, i + 1), p, q);
      } else {
        pos := FillEmbeds(weekdays, cur, i + 1);
      }
    }
  }

  /** After the padding loop the first `|weekdays|` bars carry exactly the
      expected weekday names. */
  lemma {:induction false} FillNames(weekdays: seq<string>, cur: seq<Bar>, i: nat)
    requires i <= |cur| && i <= |weekdays|
    requires forall j :: 0 <= j < i ==> cur[j].name == weekdays[j]
    ensures |FillFrom(weekdays, cur, i)| >= |weekdays|
    ensures forall j :: 0 <= j < |weekdays| ==> FillFrom(weekdays, cur, i)[j].name == weekdays[j]
    decreases |weekdays| - i
  {
    if i < |weekdays| {
      var z := Bar(weekdays[i], 0);
      if i >= |cur| || weekdays[i] != cur[i].name {
        var next := InsertAt(cur, i, z);
        assert i >= |cur| ==> cur + [z] == next;
        assert forall j :: 0 <= j < i ==> next[j] == cur[j];
        FillNames(weekdays, next, i + 1);
      } else {
        FillNames(weekdays, cur, i + 1);
      }
    }
  }

  /** `a` is a subsequence of `b`, decided by leftmost matching. */
  predicate IsSubseq<T(==)>(a: seq<T>, b: seq<T>)
    decreases |b|
  {
    |a| == 0 || (|b| > 0 && (if a[0] == b[0] then IsSubseq(a[1..], b[1..]) else IsSubseq(a, b[1..])))
  }

  /** When the names still to be visited occur in order among the expected
      weekdays still to be visited, the loop adds exactly the missing ones
      and the result has as many bars as there are weekdays. */
  lemma {:induction false} FillExact(weekdays: seq<string>, cur: seq<Bar>, i: nat)
    requires i <= |cur| && i <= |weekdays|
    requires IsSubseq(Names(cur[i..]), weekdays[i..])
    ensures |FillFrom(weekdays, cur, i)| == |weekdays|
    decreases |weekdays| - i
  {
    if i < |weekdays| {
      var z := Bar(weekdays[i], 0);
      if i >= |cur| {
        var next := cur + [z];
        assert Names(next[i + 1..]) == [];
        FillExact(weekdays, next, i + 1);
      } else if weekdays[i] != cur[i].name {
        var next := InsertAt(cur, i, z);
        assert next[i + 1..] == cur[i..];
        assert weekdays[i..][1..] == weekdays[i + 1..];
        FillExact(weekdays, next, i + 1);
      } else {
        assert Names(cur[i..])[1..] == Names(cur[i + 1..]);
        assert weekdays[i..][1..] == weekdays[i + 1..];
        FillExact(weekdays, cur, i + 1);
      }
    } else {
      assert |Names(cur[i..])| == 0;
    }
  }

  /** The padding loop of `weekly_bar_data`, as written. */
  method FillMissingWeekdays(weekdays: seq<string>, data: seq<Bar>) returns (out: seq<Bar>)
    ensures out == GapFill(weekdays, data)
    ensures |out| >= |weekdays| && |out| >= |data|
    ensures forall j :: 0 <= j < |weekdays| ==> out[j].name == weekdays[j]
  {
    out := data;
    var i := 0;
    while i < |weekdays|
      invariant i <= |out| && |out| >= |data|
      invariant FillFrom(weekdays, out, i) == FillFrom(weekdays, data, 0)
      invariant forall j :: 0 <= j < i && j < |weekdays| ==> out[j].name == weekdays[j]
    {
      if i >= |out| {
        out := out + [Bar(weekdays[i], 0)];
      } else if weekdays[i] != out[i].name {
        out := out[..i] + [Bar(weekdays[i], 0)] + out[i..];
      }
      i := i + 1;
    }
  }

  // ---------------------------------------------------------------------
  // The chart as a whole
  // ---------------------------------------------------------------------

  /** The chart data `weekly_bar_data` computes: the eight-day window
      padded against the seven rotated weekday names. */
  function WeeklyBars(rows: seq<DayCount>, now: int): seq<Bar>
  {
    GapFill(RotatedWeekdays(now), WindowBars(rows, now))
  }

  /** The chart data with the window cut to the seven days the weekday
      names cover, `now - 6` to `now`. */
  function WeeklyBarsFixed(rows: seq<DayCount>, now: int): seq<Bar>
  {
    GapFill(RotatedWeekdays(now), Bars(InWindow(rows, now - 6, now)))
  }

  /** The amount recorded for day `d`, or 0 when no row has that day. */
  function CountOn(rows: seq<DayCount>, d: int): nat
  {
    if |rows| == 0 then 0
    else if rows[0].day == d then rows[0].amount
    else CountOn(rows[1..], d)
  }

  /** The chart the page means to show: one bar per day of the week ending
      today, oldest first, each named by its weekday and carrying that
      day's count. */
  function IntendedTable(rows: seq<DayCount>, now: int): seq<Bar>
  {
    WeekTable(rows, now - 6)
  }

  /** One bar per day of the seven days from `lo`, named by its weekday
      and carrying that day's count. */
  function WeekTable(rows: seq<DayCount>, lo: int): seq<Bar>
  {
    seq(7, j => Bar(DayName(lo + j), CountOn(rows, lo + j)))
  }

  lemma {:induction false} CountOnMember(rows: seq<DayCount>, m: nat)
    requires StrictlyAscending(rows) && m < |rows|
    ensures CountOn(rows, rows[m].day) == rows[m].amount
  {
    if m > 0 {
      assert rows[0].day < rows[m].day;
      assert StrictlyAscending(rows[1..]);
      assert rows[1..][m - 1] == rows[m];
      CountOnMember(rows[1..], m - 1);
    }
  }

  lemma {:induction false} CountOnAbsent(rows: seq<DayCount>, d: int)
    requires forall m :: 0 <= m < |rows| ==> rows[m].day != d
    ensures CountOn(rows, d) == 0
  {
    if |rows| > 0 {
      assert forall m :: 0 <= m < |rows| - 1 ==> rows[1..][m] == rows[m + 1];
      CountOnAbsent(rows[1..], d);
    }
  }

  /** Ascending days inside a run of at most seven days have names that
      occur in order among that run's weekday names. */
  lemma {:induction false} AscendingNamesSubseq(days: seq<DayCount>, lo: int, n: nat)
    requires n <= 7 && StrictlyAscending(days)
    requires forall k :: 0 <= k < |days| ==> lo <= days[k].day < lo + n
    ensures IsSubseq(Names(Bars(days)), WeekNames(lo, n))
    decreases n
  {
    if |days| > 0 {
      assert lo <= days[0].day < lo + n;
      var a := Names(Bars(days));
      var w := WeekNames(lo, n);
      assert w[1..] == WeekNames(lo + 1, n - 1);
      if days[0].day == lo {
        assert a[0] == w[0];
        assert a[1..] == Names(Bars(days[1..]));
        assert forall k :: 0 <= k < |days| - 1 ==> days[1..][k] == days[k + 1];
        AscendingNamesSubseq(days[1..], lo + 1, n - 1);
      } else {
        DayNameInjective(lo, days[0].day, lo);
        assert a[0] != w[0];
        AscendingNamesSubseq(days, lo + 1, n - 1);
      }
    }
  }

  /** Padding the bars of ascending days inside one week against that
      week's weekday names yields one bar per day of the week, carrying the
      day's count or zero. */
  lemma FillWeek(days: seq<DayCount>, lo: int)
    requires StrictlyAscending(days)
    requires forall k :: 0 <= k < |days| ==> lo <= days[k].day < lo + 7
    ensures GapFill(WeekNames(lo, 7), Bars(days)) == WeekTable(days, lo)
  {
    FillWeekBars(days, lo);
    var r, t := GapFill(WeekNames(lo, 7), Bars(days)), WeekTable(days, lo);
    assert forall j :: 0 <= j < 7 ==> r[j] == t[j];
  }

  lemma FillWeekBars(days: seq<DayCount>, lo: int)
    requires StrictlyAscending(days)
    requires forall k :: 0 <= k < |days| ==> lo <= days[k].day < lo + 7
    ensures |GapFill(WeekNames(lo, 7), Bars(days))| == 7
    ensures forall j :: 0 <= j < 7 ==>
      GapFill(WeekNames(lo, 7), Bars(days))[j] == Bar(DayName(lo + j), CountOn(days, lo + j))
  {
    var pos := FillWeekShape(days, lo);
    var r := GapFill(WeekNames(lo, 7), Bars(days));
    WeekOffsets(days, lo, r, pos);
    forall j | 0 <= j < 7
      ensures r[j] == Bar(DayName(lo + j), CountOn(days, lo + j))
    {
      WeekBarAt(days, lo, r, pos, j);
    }
  }

  /** Padding the bars of one week's ascending days gives seven bars, named
      day by day, that embed the given bars. */
  lemma FillWeekShape(days: seq<DayCount>, lo: int) returns (pos: seq<int>)
    requires StrictlyAscending(days)
    requires forall k :: 0 <= k < |days| ==> lo <= days[k].day < lo + 7
    ensures |GapFill(WeekNames(lo, 7), Bars(days))| == 7
    ensures forall j :: 0 <= j < 7 ==> GapFill(WeekNames(lo, 7), Bars(days))[j].name == DayName(lo + j)
    ensures Embeds(Bars(days), GapFill(WeekNames(lo, 7), Bars(days)), pos)
  {
    var data := Bars(days);
    var w := WeekNames(lo, 7);
    AscendingNamesSubseq(days, lo, 7);
    assert data[0..] == data && w[0..] == w;
    FillExact(w, data, 0);
    FillNames(w, data, 0);
    pos := FillEmbeds(w, data, 0);
  }

  /** In a week of bars named day by day, the bar of each day of `days`
      sits at that day's offset from the start of the week. */
  lemma WeekOffsets(days: seq<DayCount>, lo: int, r: seq<Bar>, pos: seq<int>)
    requires forall k :: 0 <= k < |days| ==> lo <= days[k].day < lo + 7
    requires |r| == 7 && forall j :: 0 <= j < 7 ==> r[j].name == DayName(lo + j)
    requires Embeds(Bars(days), r, pos)
    ensures forall k :: 0 <= k < |days| ==> pos[k] == days[k].day - lo
  {
    forall k | 0 <= k < |days|
      ensures pos[k] == days[k].day - lo
    {
      assert r[pos[k]] == Bars(days)[k];
      DayNameInjective(lo, days[k].day, lo + pos[k]);
    }
  }

  /** A bar of such a week carries its day's count, or zero for a day
      without a row. */
  lemma WeekBarAt(days: seq<DayCount>, lo: int, r: seq<Bar>, pos: seq<int>, j: int)
    requires StrictlyAscending(days)
    requires |r| == 7 && forall i :: 0 <= i < 7 ==> r[i].name == DayName(lo + i)
    requires Embeds(Bars(days), r, pos)
    requires forall k :: 0 <= k < |days| ==> pos[k] == days[k].day - lo
    requires 0 <= j < 7
    ensures r[j] == Bar(DayName(lo + j), CountOn(days, lo + j))
  {
    if k :| 0 <= k < |pos| && pos[k] == j {
      CountOnMember(days, k);
      assert r[j] == Bars(days)[k];
    } else {
      assert j !in pos;
      forall m | 0 <= m < |days|
        ensures days[m].day != lo + j
      {
        assert pos[m] != j;
      }
      CountOnAbsent(days, lo + j);
    }
  }

  /** Cutting the rows to a window keeps the count of every day inside it. */
  lemma CountOnWindow(rows: seq<DayCount>, lo: int, hi: int, d: int)
    requires StrictlyAscending(rows) && lo <= d <= hi
    ensures CountOn(InWindow(rows, lo, hi), d) == CountOn(rows, d)
  {
    var days := InWindow(rows, lo, hi);
    InWindowAscending(rows, lo, hi);
    InWindowComplete(rows, lo, hi);
    if m :| 0 <= m < |rows| && rows[m].day == d {
      var k :| 0 <= k < |days| && days[k] == rows[m];
      CountOnMember(rows, m);
      CountOnMember(days, k);
    } else {
      CountOnAbsent(rows, d);
      CountOnAbsent(days, d);
    }
  }

  /** Cutting the rows to the week from `lo` does not change that week's
      table. */
  lemma WeekTableOfWindow(rows: seq<DayCount>, lo: int)
    requires StrictlyAscending(rows)
    ensures WeekTable(InWindow(rows, lo, lo + 6), lo) == WeekTable(rows, lo)
  {
    var t1, t2 := WeekTable(InWindow(rows, lo, lo + 6), lo), WeekTable(rows, lo);
    forall j | 0 <= j < 7
      ensures t1[j] == t2[j]
    {
      CountOnWindow(rows, lo, lo + 6, lo + j);
    }
  }

  /** The corrected chart pads the seven-day window against the names of
      the week ending today. */
  lemma WeeklyBarsFixedUnfold(rows: seq<DayCount>, now: int)
    ensures WeeklyBarsFixed(rows, now) == GapFill(WeekNames(now - 6, 7), Bars(InWindow(rows, now - 6, now)))
  {
    RotationEndsToday(now);
  }

  /** The corrected chart is exactly the intended one: seven bars for the
      seven days ending today, each with that day's count or zero. */
  lemma WeeklyBarsFixedTable(rows: seq<DayCount>, now: int)
    requires StrictlyAscending(rows)
    ensures WeeklyBarsFixed(rows, now) == IntendedTable(rows, now)
  {
    var lo := now - 6;
    InWindowAscending(rows, lo, now);
    WeeklyBarsFixedUnfold(rows, now);
    FillWeek(InWindow(rows, lo, now), lo);
    WeekTableOfWindow(rows, lo);
  }

  /** Without a row dated exactly seven days ago the eight-day window holds
      the same rows as the seven-day one. */
  lemma {:induction false} WindowWithoutStaleDay(rows: seq<DayCount>, now: int)
    requires forall m :: 0 <= m < |rows| ==> rows[m].day != now - 7
    ensures InWindow(rows, now - 7, now) == InWindow(rows, now - 6, now)
  {
    if |rows| > 0 {
      var init := rows[..|rows| - 1];
      assert forall m :: 0 <= m < |init| ==> init[m] == rows[m];
      WindowWithoutStaleDay(init, now);
    }
  }

  /** `n` zero bars named after the first `n` weekdays. */
  function ZeroBars(weekdays: seq<string>): seq<Bar>
  {
    seq(|weekdays|, j requires 0 <= j < |weekdays| => Bar(weekdays[j], 0))
  }

  /** When the first bar carries the name of the last weekday, the loop
      puts zero bars for the six weekdays before it and leaves the given
      bars after them untouched. */
  lemma {:induction false} FillBeforeLast(weekdays: seq<string>, data: seq<Bar>, i: nat)
    requires |weekdays| == 7 && |data| > 0 && i <= 6
    requires data[0].name == weekdays[6]
    requires forall j :: 0 <= j < 6 ==> weekdays[j] != weekdays[6]
    ensures FillFrom(weekdays, ZeroBars(weekdays[..i]) + data, i) == ZeroBars(weekdays[..6]) + data
    decreases 6 - i
  {
    var cur := ZeroBars(weekdays[..i]) + data;
    assert cur[i] == data[0];
    if i < 6 {
      var next := InsertAt(cur, i, Bar(weekdays[i], 0));
      assert next == ZeroBars(weekdays[..i + 1]) + data;
      FillBeforeLast(weekdays, data, i + 1);
    }
  }

  /** A row dated seven days before today opens the window. */
  lemma StaleDayFirst(rows: seq<DayCount>, now: int, m: nat)
    requires StrictlyAscending(rows) && m < |rows| && rows[m].day == now - 7
    ensures |WindowBars(rows, now)| > 0
    ensures WindowBars(rows, now)[0] == Bar(DayName(now), rows[m].amount)
  {
    var days := InWindow(rows, now - 7, now);
    InWindowAscending(rows, now - 7, now);
    InWindowComplete(rows, now - 7, now);
    var k :| 0 <= k < |days| && days[k] == rows[m];
    assert k == 0 by {
      assert days[0].day >= now - 7;
    }
    WeekdayPeriodic(now - 7);
  }

  /** Today's name closes the rotated list and occurs nowhere before. */
  lemma RotationTodayLast(now: int)
    ensures RotatedWeekdays(now)[6] == DayName(now)
    ensures forall j :: 0 <= j < 6 ==> RotatedWeekdays(now)[j] != RotatedWeekdays(now)[6]
  {
    RotationEndsToday(now);
    var w := WeekNames(now - 6, 7);
    forall j | 0 <= j < 6
      ensures w[j] != w[6]
    {
      DayNameInjective(now - 6, now - 6 + j, now);
    }
  }

  /** What `weekly_bar_data` does with a row dated exactly seven days before
      today: that row shares today's weekday name, so the loop pads six
      zero bars in front of it, the row takes the place of today's bar, and
      every later row of the window is pushed past the seventh bar. */
  lemma StaleDayLayout(rows: seq<DayCount>, now: int, m: nat)
    requires StrictlyAscending(rows) && m < |rows| && rows[m].day == now - 7
    ensures WeeklyBars(rows, now) == ZeroBars(RotatedWeekdays(now)[..6]) + WindowBars(rows, now)
    ensures |WindowBars(rows, now)| > 0
    ensures WindowBars(rows, now)[0] == Bar(DayName(now), rows[m].amount)
  {
    var w := RotatedWeekdays(now);
    var data := WindowBars(rows, now);
    StaleDayFirst(rows, now, m);
    RotationTodayLast(now);
    assert ZeroBars(w[..0]) + data == data;
    FillBeforeLast(w, data, 0);
  }

  /** Rows dated seven days ago and today both fall in the window. */
  lemma StaleAndTodayKept(rows: seq<DayCount>, now: int, m: nat, m2: nat)
    requires m < |rows| && rows[m].day == now - 7
    requires m2 < |rows| && rows[m2].day == now
    ensures |WindowBars(rows, now)| >= 2
  {
    var days := InWindow(rows, now - 7, now);
    InWindowComplete(rows, now - 7, now);
    var k :| 0 <= k < |days| && days[k] == rows[m];
    var k2 :| 0 <= k2 < |days| && days[k2] == rows[m2];
    assert k != k2;
  }

  /** Finding: a row dated exactly seven days before today makes the chart
      differ from the intended one. Either a later row of the window is
      pushed past the seventh bar, or today's bar shows last week's count. */
  lemma StaleDayWrong(rows: seq<DayCount>, now: int, m: nat)
    requires StrictlyAscending(rows)
    requires m < |rows| && rows[m].day == now - 7 && rows[m].amount > 0
    ensures WeeklyBars(rows, now) != IntendedTable(rows, now)
  {
    StaleDayLayout(rows, now, m);
    var data := WindowBars(rows, now);
    var r := WeeklyBars(rows, now);
    var t := IntendedTable(rows, now);
    assert |r| == 6 + |data|;
    assert r[6] == data[0];
    if m2 :| 0 <= m2 < |rows| && rows[m2].day == now {
      StaleAndTodayKept(rows, now, m, m2);
      assert |r| > |t|;
    } else {
      CountOnAbsent(rows, now);
      assert t[6].count == 0;
      assert r[6].count > 0;
    }
  }

  /** Without a row dated seven days ago the chart of `weekly_bar_data` is the
      intended one. */
  lemma NoStaleDayCorrect(rows: seq<DayCount>, now: int)
    requires StrictlyAscending(rows)
    requires forall m :: 0 <= m < |rows| ==> rows[m].day != now - 7
    ensures WeeklyBars(rows, now) == IntendedTable(rows, now)
  {
    WindowWithoutStaleDay(rows, now);
    assert WeeklyBars(rows, now) == WeeklyBarsFixed(rows, now);
    WeeklyBarsFixedTable(rows, now);
  }

  /** The chart `weekly_bar_data` computes is the intended one exactly when no
      row is dated seven days before today (the query's counts are
      positive). */
  lemma WeeklyBarsCorrectIff(rows: seq<DayCount>, now: int)
    requires StrictlyAscending(rows)
    requires forall m :: 0 <= m < |rows| ==> rows[m].amount > 0
    ensures WeeklyBars(rows, now) == IntendedTable(rows, now)
        <==> forall m :: 0 <= m < |rows| ==> rows[m].day != now - 7
  {
    if m :| 0 <= m < |rows| && rows[m].day == now - 7 {
      StaleDayWrong(rows, now, m);
    } else {
      NoStaleDayCorrect(rows, now);
    }
  }

  /** A concrete instance. Day 20000 (2024-10-04) is a Friday. With two
      occurrences logged on Friday 2024-09-27, seven days earlier, and three
      on Monday 2024-09-30, `weekly_bar_data` returns eight bars: six zero bars from
      Saturday to Thursday, then last week's Friday with 2, then Monday with
      3. Today's Friday bar shows 2 instead of 0 and the Monday slot shows 0. */
  lemma StaleDayExample()
    ensures var rows := [DayCount(19993, 2), DayCount(19996, 3)];
      |WeeklyBars(rows, 20000)| == 8
      && WeeklyBars(rows, 20000)[6] == Bar("Friday", 2)
      && WeeklyBars(rows, 20000)[2] == Bar("Monday", 0)
      && IntendedTable(rows, 20000)[2] == Bar("Monday", 3)
  {
    var rows := [DayCount(19993, 2), DayCount(19996, 3)];
    ExampleWindow();
    StaleDayLayout(rows, 20000, 0);
    RotationEndsToday(20000);
    ExampleNames();
    var w := RotatedWeekdays(20000);
    assert w[2] == DayName(19996);
    var r := WeeklyBars(rows, 20000);
    assert r == ZeroBars(w[..6]) + WindowBars(rows, 20000);
    assert r[2] == Bar(w[2], 0);
    assert IntendedTable(rows, 20000)[2] == Bar(DayName(19996), CountOn(rows, 19996));
  }

  lemma ExampleWindow()
    ensures WindowBars([DayCount(19993, 2), DayCount(19996, 3)], 20000)
      == [Bar(DayName(19993), 2), Bar(DayName(19996), 3)]
  {
    var rows := [DayCount(19993, 2), DayCount(19996, 3)];
    assert rows[..1] == [DayCount(19993, 2)];
    assert InWindow(rows[..1], 19993, 20000) == rows[..1];
    assert InWindow(rows, 19993, 20000) == rows;
  }

  lemma ExampleNames()
    ensures DayName(19993) == "Friday" && DayName(19996) == "Monday" && DayName(20000) == "Friday"
  {
    assert Weekday(19993) == 5;
    assert Weekday(19996) == 1;
    assert Weekday(20000) == 5;
  }

  /** The window bars of one more row: the row's bar is appended when its
      day lies in the window. */
  lemma WindowBarsStep(rows: seq<DayCount>, i: nat, now: int)
    requires i < |rows|
    ensures WindowBars(rows[..i + 1], now) ==
      if now - 7 <= rows[i].day <= now then WindowBars(rows[..i], now) + [Bar(DayName(rows[i].day), rows[i].amount)]
      else WindowBars(rows[..i], now)
  {
    assert rows[..i + 1][..i] == rows[..i];
    var a, b := InWindow(rows[..i], now - 7, now), InWindow(rows[..i + 1], now - 7, now);
    if now - 7 <= rows[i].day <= now {
      assert b == a + [rows[i]];
      assert Bars(b) == Bars(a) + [Bar(DayName(rows[i].day), rows[i].amount)];
    } else {
      assert b == a;
    }
  }

  /** `weekly_bar_data`: the filtering loop, the rotation and the padding
      loop. */
  method WeeklyBarData(rows: seq<DayCount>, now: int) returns (data: seq<Bar>)
    ensures data == WeeklyBars(rows, now)
    ensures |data| >= 7
    ensures forall j :: 0 <= j < 7 ==> data[j].name == DayName(now - 6 + j)
  {
    data := [];
    var i := 0;
    while i < |rows|
      invariant 0 <= i <= |rows|
      invariant data == WindowBars(rows[..i], now)
    {
      WindowBarsStep(rows, i, now);
      if now - 7 <= rows[i].day <= now {
        data := data + [Bar(DayName(rows[i].day), rows[i].amount)];
      }
      i := i + 1;
    }
    assert rows[..i] == rows;
    var weekdays := RotatedWeekdays(now);
    RotationEndsToday(now);
    data := FillMissingWeekdays(weekdays, data);
  }
}
