/** The minute-by-minute search of `cron_next`, and why its horizon is long enough. */
module CronSearch {
  import opened Text
  import opened Calendar
  import opened Cron

  const DAY: nat := 1440
  const HORIZON: nat := MAX_SEARCH_DAYS * DAY

  /** Instants are minutes since 0001-01-01T00:00 UTC. */
  function DayOf(t: nat): nat { t / 1440 }

  function HourOf(t: nat): nat { t / 60 % 24 }

  function MinuteOf(t: nat): nat { t % 60 }

  function AllDoms(): set<nat> { Every(1, 31, 1) }

  function AllDows(): set<nat> { Every(0, 6, 1) }

  /** Cron counts the days of the week from Sunday. */
  function CronDow(day: nat): nat { (Weekday(day) + 1) % 7 }

  /** It is the day of the week of the date, by the calendar rule. */
  lemma DowOfDate(date: Date)
    requires IsDate(date)
    ensures CronDow(Ordinal(date)) == DayOfWeek(date)
  {
    hide Ordinal, DayOfWeek;
    WeekdayOfDate(date);
  }

  /** `_dom_dow_matches`. */
  predicate DomDowMatches(f: Fields, day: nat, domStar: bool, dowStar: bool) {
    var d := DateOf(day);
    if d.day > DaysInMonth(d.year, d.month) then false
    else if domStar && dowStar then true
    else if domStar then CronDow(day) in f.dows
    else if dowStar then d.day in f.doms
    else d.day in f.doms || CronDow(day) in f.dows
  }

  predicate DayMatches(f: Fields, day: nat) {
    DateOf(day).month in f.months && DomDowMatches(f, day, f.doms == AllDoms(), f.dows == AllDows())
  }

  predicate Fires(f: Fields, t: nat) {
    HourOf(t) in f.hours && MinuteOf(t) in f.minutes && DayMatches(f, DayOf(t))
  }

  /** All fire times in the half-open interval (lo, hi]. */
  function Matching(f: Fields, lo: nat, hi: nat): seq<nat>
    requires lo <= hi
    decreases hi
  {
    if lo == hi then [] else Matching(f, lo, hi - 1) + if Fires(f, hi) then [hi] else []
  }

  /** All fire times within the search horizon. */
  function FiresAfter(f: Fields, start: nat): seq<nat> {
    Matching(f, start, start + HORIZON)
  }

  lemma {:induction false} MatchingInTwoParts(f: Fields, lo: nat, mid: nat, hi: nat)
    requires lo <= mid <= hi
    ensures Matching(f, lo, hi) == Matching(f, lo, mid) + Matching(f, mid, hi)
    decreases hi
  {
    hide Fires;
    if mid < hi {
      MatchingInTwoParts(f, lo, mid, hi - 1);
    }
  }

  /** `_next_fires`; `None` is the refusal because the horizon was reached. */
  method NextFires(f: Fields, start: nat, count: nat) returns (result: Option<seq<nat>>)
    requires 1 <= count
    ensures var all := FiresAfter(f, start);
      result == if |all| < count then None else Some(all[..count])
  {
    hide DayMatches, DomDowMatches;
    var cursor := start + 1;
    var deadline := start + HORIZON;
    var fires: seq<nat> := [];
    var domStar := f.doms == AllDoms();
    var dowStar := f.dows == AllDows();
    while cursor <= deadline && |fires| < count
      invariant start < cursor <= deadline + 1 && |fires| <= count
      invariant fires == Matching(f, start, cursor - 1)
    {
      var d := DateOf(DayOf(cursor));
      assert DayMatches(f, DayOf(cursor)) <==> d.month in f.months && DomDowMatches(f, DayOf(cursor), domStar, dowStar)
        by { ThisDay(f, DayOf(cursor)); }
      if d.month in f.months && HourOf(cursor) in f.hours && MinuteOf(cursor) in f.minutes
        && DomDowMatches(f, DayOf(cursor), domStar, dowStar)
      {
        fires := fires + [cursor];
      }
      cursor := cursor + 1;
    }
    MatchingInTwoParts(f, start, cursor - 1, deadline);
    if |fires| < count {
      return None;
    }
    return Some(fires);
  }

  lemma ThisDay(f: Fields, day: nat)
    ensures DayMatches(f, day) <==>
      DateOf(day).month in f.months && DomDowMatches(f, day, f.doms == AllDoms(), f.dows == AllDows())
  {}

  predicate Increasing(ts: seq<nat>) {
    forall i, j :: 0 <= i < j < |ts| ==> ts[i] < ts[j]
  }

  lemma {:induction false} MatchingIsExact(f: Fields, lo: nat, hi: nat)
    requires lo <= hi
    ensures Increasing(Matching(f, lo, hi))
    ensures forall t :: t in Matching(f, lo, hi) <==> lo < t <= hi && Fires(f, t)
    decreases hi
  {
    hide Fires;
    if lo < hi {
      MatchingIsExact(f, lo, hi - 1);
      var front := Matching(f, lo, hi - 1);
      assert forall i :: 0 <= i < |front| ==> front[i] in front;
    }
  }

  /** What a caller is given: the first fire times after the start, in order, none left out. */
  lemma FirstFires(f: Fields, start: nat, count: nat)
    requires 1 <= count <= |FiresAfter(f, start)|
    ensures var fires := FiresAfter(f, start)[..count];
      && Increasing(fires)
      && forall t :: t in fires <==> start < t <= fires[count - 1] && Fires(f, t)
  {
    hide Fires, Matching;
    MatchingIsExact(f, start, start + HORIZON);
    var all := Matching(f, start, start + HORIZON);
    var fires := all[..count];
    var last := fires[count - 1];
    assert last in all;
    forall t ensures t in fires <==> start < t <= last && Fires(f, t) {
      if t in fires {
        assert t in all;
        var i :| 0 <= i < count && fires[i] == t;
        assert all[i] == t && all[count - 1] == last;
      } else if t in all {
        var i :| 0 <= i < |all| && all[i] == t;
        assert forall j :: 0 <= j < count ==> all[j] == fires[j] && fires[j] in fires;
        assert all[count - 1] == last;
      }
    }
  }

  /** Fire times in order, none of them more than 7320 days after the start. */
  ghost predicate FoundInTime(f: Fields, start: nat, ts: seq<nat>) {
    Increasing(ts) && forall t :: t in ts ==> start < t <= start + 7320 * 24 * 60 && Fires(f, t)
  }

  /** The search succeeds exactly when there are that many fire times within 7320 days, the last minute included. */
  lemma SearchSucceedsIff(f: Fields, start: nat, count: nat)
    ensures |FiresAfter(f, start)| >= count <==> exists ts :: |ts| == count && FoundInTime(f, start, ts)
  {
    hide Fires, Matching;
    MatchingIsExact(f, start, start + HORIZON);
    var all := FiresAfter(f, start);
    if |all| >= count {
      assert forall i :: 0 <= i < count ==> all[..count][i] == all[i] && all[i] in all;
      assert FoundInTime(f, start, all[..count]);
    }
    forall ts | |ts| == count && FoundInTime(f, start, ts) ensures |all| >= count {
      var found := set t | t in all;
      IncreasingCount(ts, found);
      CoverCount(found, all);
    }
  }

  // ----- The day rule -----

  predicate DomRestricted(f: Fields) { f.doms != AllDoms() }

  predicate DowRestricted(f: Fields) { f.dows != AllDows() }

  /** A restricted day field is one way for a day to match; only unrestricted ones match every day. */
  lemma DayRule(f: Fields, day: nat)
    ensures DayMatches(f, day) <==>
      && DateOf(day).month in f.months
      && (|| (DomRestricted(f) && DateOf(day).day in f.doms)
          || (DowRestricted(f) && CronDow(day) in f.dows)
          || (!DomRestricted(f) && !DowRestricted(f)))
  {}

  /** Some month and day of the month that both match and exist in years of the given kind. */
  predicate NamesDate(f: Fields, leap: bool) {
    exists m, d :: m in f.months && d in f.doms && d <= (if leap && m == 2 then 29 else DaysInMonth(1, m))
  }

  /** The syntactic condition for an expression to match some day of the calendar. */
  predicate Satisfiable(f: Fields) {
    DowRestricted(f) || !DomRestricted(f) || NamesDate(f, true)
  }

  /** The same, on a day that every year has. */
  predicate SatisfiableYearly(f: Fields) {
    DowRestricted(f) || !DomRestricted(f) || NamesDate(f, false)
  }

  lemma MonthLengths(year: nat, m: nat)
    ensures DaysInMonth(year, m) == if IsLeap(year) && m == 2 then 29 else DaysInMonth(1, m)
  {}

  // ----- Enough matching days -----

  /** Increasing dates inside the search days from `first` on, all of which match. */
  ghost predicate Evidence(f: Fields, dates: seq<Date>, first: nat) {
    && (forall i :: 0 <= i < |dates| ==> IsDate(dates[i]))
    && (forall i :: 0 <= i < |dates| ==>
          first <= Ordinal(dates[i]) < first + MAX_SEARCH_DAYS && DayMatches(f, Ordinal(dates[i])))
    && (forall i, j :: 0 <= i < j < |dates| ==> Earlier(dates[i], dates[j]))
  }

  /** The days, twenty years running, on which a given month and day fall. */
  lemma AnniversariesFit(first: nat, m: nat, d: nat) returns (y: nat)
    requires 1 <= m <= 12 && 1 <= d <= 31
    ensures 1 <= y
    ensures forall year :: y <= year < y + 20 && IsDate(Date(year, m, d)) ==>
      first <= Ordinal(Date(year, m, d)) < first + MAX_SEARCH_DAYS
  {
    hide DaysBeforeYear, DaysBeforeMonth, Ordinal, IsLeap;
    var y0 := DateOf(first).year;
    OrdinalOfDateOf(first);
    OrdinalIsWithinYear(DateOf(first));
    y := if first <= Slot(y0, m, d) then y0 else y0 + 1;
    forall year | y <= year < y + 20 && IsDate(Date(year, m, d))
      ensures first <= Ordinal(Date(year, m, d)) < first + MAX_SEARCH_DAYS
    {
      if y == y0 {
        AnniversaryAfter(first, y0, Date(year, m, d));
      } else {
        AnniversaryOfPast(first, y0, Date(year, m, d));
      }
    }
  }

  lemma AnniversaryAfter(first: nat, y0: nat, date: Date)
    requires 1 <= y0 && IsDate(date) && DaysBeforeYear(y0) <= first < DaysBeforeYear(y0 + 1)
    requires first <= Slot(y0, date.month, date.day) && y0 <= date.year < y0 + 20
    ensures first <= Ordinal(date) < first + MAX_SEARCH_DAYS
  {
    hide DaysBeforeYear, DaysBeforeMonth, IsLeap;
    TwentyYears(y0);
    OrdinalIsWithinYear(date);
    YearsAreOrdered(date.year + 1, y0 + 20);
    if y0 < date.year {
      YearsAreOrdered(y0 + 1, date.year);
    }
  }

  lemma AnniversaryOfPast(first: nat, y0: nat, date: Date)
    requires 1 <= y0 && IsDate(date) && DaysBeforeYear(y0) <= first < DaysBeforeYear(y0 + 1)
    requires Slot(y0, date.month, date.day) < first && y0 < date.year <= y0 + 20
    ensures first <= Ordinal(date) < first + MAX_SEARCH_DAYS
  {
    hide DaysBeforeYear, DaysBeforeMonth, IsLeap;
    TwentyYears(y0);
    OrdinalIsWithinYear(date);
    YearsAreOrdered(y0 + 1, date.year);
    YearsAreOrdered(date.year, y0 + 20);
    LeapDayIsOneDay(date.year, y0, date.month);
  }

  lemma YearlyDates(f: Fields, first: nat) returns (dates: seq<Date>)
    requires Plausible(f) && DomRestricted(f) && NamesDate(f, false)
    ensures |dates| == 20 && Evidence(f, dates, first)
  {
    hide DayMatches, Ordinal, IsLeap;
    var m, d :| m in f.months && d in f.doms && d <= DaysInMonth(1, m);
    var y := AnniversariesFit(first, m, d);
    dates := seq(20, k requires 0 <= k < 20 => Date(y + k, m, d));
    forall k: nat | k < 20
      ensures IsDate(dates[k]) && DayMatches(f, Ordinal(dates[k]))
    {
      MonthLengths(y + k, m);
      DateOfOrdinal(dates[k]);
      DayRule(f, Ordinal(dates[k]));
    }
  }

  /** Of five fourth years in a row at most one is not leap. */
  lemma LeapYears(year: nat) returns (ys: seq<nat>)
    ensures |ys| == 4 && forall i :: 0 <= i < 4 ==> year <= ys[i] < year + 20 && IsLeap(ys[i])
    ensures forall i, j :: 0 <= i < j < 4 ==> ys[i] < ys[j]
  {
    hide IsLeap, Pick;
    var q := (year + 3) / 4;
    ys := seq(4, i requires 0 <= i < 4 => 4 * Pick(q, i));
    forall i: nat | i < 4 ensures IsLeap(ys[i]) && q + i <= Pick(q, i) <= q + i + 1 {
      PickIsNoCentury(q, i);
      FourthYear(Pick(q, i));
    }
    forall i: nat, j: nat | i < j < 4 ensures Pick(q, i) < Pick(q, j) {
      PicksAscend(q, i, j);
    }
  }

  /** The `i`-th number from `q` on, the next multiple of 25 left out. */
  function Pick(q: nat, i: nat): nat {
    if i < (if q % 25 == 0 then 0 else 25 - q % 25) then q + i else q + i + 1
  }

  lemma PickIsNoCentury(q: nat, i: nat)
    ensures q + i <= Pick(q, i) <= q + i + 1
    ensures i < 4 ==> Pick(q, i) % 25 != 0
  {}

  lemma PicksAscend(q: nat, i: nat, j: nat)
    ensures i < j ==> Pick(q, i) < Pick(q, j)
  {}

  lemma Centuries(c: nat, r: nat)
    ensures r < 100 ==> (100 * c + r) % 100 == r
  {}

  lemma FourthYear(q: nat)
    requires q % 25 != 0
    ensures IsLeap(4 * q)
  {
    var n := 4 * q;
    Centuries(q / 25, 4 * (q % 25));
    assert 4 * q == 100 * (q / 25) + 4 * (q % 25);
    assert n % 4 == 0;
  }

  lemma LeapDates(f: Fields, first: nat) returns (dates: seq<Date>)
    requires Plausible(f) && DomRestricted(f) && 2 in f.months && 29 in f.doms
    ensures |dates| == 4 && Evidence(f, dates, first)
  {
    hide DayMatches, Ordinal, IsLeap;
    var y := AnniversariesFit(first, 2, 29);
    var ys := LeapYears(y);
    dates := seq(4, k requires 0 <= k < 4 => Date(ys[k], 2, 29));
    forall k: nat | k < 4
      ensures IsDate(dates[k]) && DayMatches(f, Ordinal(dates[k]))
      ensures first <= Ordinal(dates[k]) < first + MAX_SEARCH_DAYS
    {
      assert dates[k] == Date(y + (ys[k] - y), 2, 29);
      DateOfOrdinal(dates[k]);
      DayRule(f, Ordinal(dates[k]));
    }
  }

  /** The first day of a month that falls on the given cron day of the week. */
  function FirstDow(year: nat, month: nat, dow: nat): (d: nat)
    requires 1 <= year && 1 <= month <= 12 && dow < 7
    ensures 1 <= d <= 7
  {
    1 + (dow + 7 - CronDow(Ordinal(Date(year, month, 1)))) % 7
  }

  lemma FirstDowFalls(year: nat, month: nat, dow: nat, week: nat)
    requires 1 <= year && 1 <= month <= 12 && dow < 7 && week < 4
    ensures IsDate(Date(year, month, FirstDow(year, month, dow) + 7 * week))
    ensures CronDow(Ordinal(Date(year, month, FirstDow(year, month, dow) + 7 * week))) == dow
  {
    hide DaysBeforeYear, DaysBeforeMonth;
    var n := Ordinal(Date(year, month, 1));
    var d := FirstDow(year, month, dow);
    assert Ordinal(Date(year, month, d + 7 * week)) == n + (d - 1) + 7 * week;
    ShiftDow(n, dow, week);
  }

  lemma ShiftDow(n: nat, dow: nat, week: nat)
    requires dow < 7
    ensures CronDow(n + (dow + 7 - CronDow(n)) % 7 + 7 * week) == dow
  {
    var w := n % 7;
    var gap := (dow + 7 - CronDow(n)) % 7;
    assert CronDow(n) == if w == 6 then 0 else w + 1;
    assert gap == if CronDow(n) <= dow then dow - CronDow(n) else dow + 7 - CronDow(n);
    WholeWeeks(n / 7 + week, w + gap);
    assert n + gap + 7 * week == 7 * (n / 7 + week) + (w + gap);
  }

  lemma WholeWeeks(weeks: nat, days: nat)
    ensures (7 * weeks + days) % 7 == days % 7
  {}

  lemma WeeklyDates(f: Fields, first: nat) returns (dates: seq<Date>)
    requires Plausible(f) && (DowRestricted(f) || !DomRestricted(f))
    ensures |dates| == 20 && Evidence(f, dates, first)
  {
    hide DayMatches, DaysBeforeYear, DaysBeforeMonth, Ordinal, IsLeap, CronDow, FirstDow;
    var m :| m in f.months;
    var dow :| dow in f.dows;
    var y0 := DateOf(first).year;
    var y := y0 + 1;
    dates := seq(20, k requires 0 <= k < 20 => Date(y + k / 4, m, FirstDow(y + k / 4, m, dow) + 7 * (k % 4)));
    OrdinalOfDateOf(first);
    OrdinalIsWithinYear(DateOf(first));
    forall k: nat | k < 20
      ensures IsDate(dates[k]) && DayMatches(f, Ordinal(dates[k]))
      ensures first <= Ordinal(dates[k]) < first + MAX_SEARCH_DAYS
    {
      var date := dates[k];
      FirstDowFalls(y + k / 4, m, dow, k % 4);
      DateOfOrdinal(date);
      DayRule(f, Ordinal(date));
      LaterYear(first, y0, date);
    }
  }

  lemma LaterYear(first: nat, y0: nat, date: Date)
    requires 1 <= y0 && IsDate(date) && DaysBeforeYear(y0) <= first < DaysBeforeYear(y0 + 1)
    requires y0 < date.year < y0 + 20
    ensures first <= Ordinal(date) < first + MAX_SEARCH_DAYS
  {
    hide DaysBeforeYear, DaysBeforeMonth, IsLeap;
    TwentyYears(y0);
    OrdinalIsWithinYear(date);
    YearsAreOrdered(y0 + 1, date.year);
    YearsAreOrdered(date.year + 1, y0 + 20);
  }

  lemma SomeDates(f: Fields, first: nat, yearly: bool) returns (dates: seq<Date>)
    requires Plausible(f) && if yearly then SatisfiableYearly(f) else Satisfiable(f)
    ensures |dates| == (if yearly then 20 else 4) && Evidence(f, dates, first)
  {
    hide DayMatches, Ordinal;
    if DowRestricted(f) || !DomRestricted(f) {
      dates := WeeklyDates(f, first);
    } else if NamesDate(f, false) {
      dates := YearlyDates(f, first);
    } else {
      dates := LeapDates(f, first);
    }
    if !yearly {
      dates := dates[..4];
    }
  }

  // ----- Counting the fire times -----

  function MinuteOfDay(h: nat, m: nat): nat { 60 * h + m }

  function Instant(day: nat, k: nat): nat { day * DAY + k }

  /** The minutes of the day named by the hour and minute fields. */
  function Times(hours: set<nat>, minutes: set<nat>): set<nat> {
    set h, m | h in hours && m in minutes :: MinuteOfDay(h, m)
  }

  function Instants(day: nat, ks: set<nat>): set<nat> {
    set k | k in ks :: Instant(day, k)
  }

  function Daily(days: set<nat>, k: nat): set<nat> {
    set day | day in days :: Instant(day, k)
  }

  lemma {:induction false} InstantsCount(day: nat, ks: set<nat>)
    ensures |Instants(day, ks)| == |ks|
  {
    if ks != {} {
      var k :| k in ks;
      InstantsCount(day, ks - {k});
      assert Instants(day, ks) == Instants(day, ks - {k}) + {Instant(day, k)};
    }
  }

  lemma {:induction false} DailyCount(days: set<nat>, k: nat)
    ensures |Daily(days, k)| == |days|
  {
    if days != {} {
      var day :| day in days;
      DailyCount(days - {day}, k);
      assert Daily(days, k) == Daily(days - {day}, k) + {Instant(day, k)};
    }
  }

  lemma {:induction false} HourCount(h: nat, minutes: set<nat>)
    ensures |Times({h}, minutes)| == |minutes|
  {
    if minutes != {} {
      var m :| m in minutes;
      HourCount(h, minutes - {m});
      assert Times({h}, minutes) == Times({h}, minutes - {m}) + {MinuteOfDay(h, m)};
    }
  }

  lemma {:induction false} TimesCount(hours: set<nat>, minutes: set<nat>)
    requires forall m :: m in minutes ==> m <= 59
    ensures |Times(hours, minutes)| == |hours| * |minutes|
    decreases |hours|
  {
    hide Times;
    if hours == {} {
      NoTimes(minutes);
    }
    if hours != {} {
      var h :| h in hours;
      var rest := hours - {h};
      TimesCount(rest, minutes);
      HourCount(h, minutes);
      TimesSplit(h, rest, minutes);
      assert hours == {h} + rest;
      assert |hours| == |rest| + 1;
      assert (|rest| + 1) * |minutes| == |rest| * |minutes| + |minutes|;
    }
  }

  lemma NoTimes(minutes: set<nat>)
    ensures Times({}, minutes) == {}
  {}

  lemma TimesSplit(h: nat, rest: set<nat>, minutes: set<nat>)
    requires h !in rest && forall m :: m in minutes ==> m <= 59
    ensures |Times({h} + rest, minutes)| == |Times({h}, minutes)| + |Times(rest, minutes)|
  {
    assert Times({h} + rest, minutes) == Times({h}, minutes) + Times(rest, minutes);
    assert Times({h}, minutes) !! Times(rest, minutes);
  }

  lemma ClockOf(day: nat, k: nat)
    requires k < DAY
    ensures HourOf(Instant(day, k)) == k / 60 && MinuteOf(Instant(day, k)) == k % 60
  {
    var hour, minute := k / 60, k % 60;
    assert Instant(day, k) == 60 * (24 * day + hour) + minute;
    assert (60 * (24 * day + hour) + minute) / 60 == 24 * day + hour;
    assert (24 * day + hour) % 24 == hour;
  }

  lemma TimeIsNamed(hours: set<nat>, minutes: set<nat>, k: nat)
    requires forall m :: m in minutes ==> m <= 59
    ensures k in Times(hours, minutes) <==> k / 60 in hours && k % 60 in minutes
  {
    assert k == MinuteOfDay(k / 60, k % 60);
    forall h, m | h in hours && m in minutes && k == MinuteOfDay(h, m) ensures h == k / 60 && m == k % 60 {
      assert (60 * h + m) / 60 == h;
    }
  }

  lemma FireTimeOfDay(f: Fields, day: nat, k: nat)
    requires Plausible(f) && k < DAY
    ensures Fires(f, Instant(day, k)) <==> k in Times(f.hours, f.minutes) && DayMatches(f, day)
  {
    hide DayMatches, HourOf, MinuteOf, Times, MinuteOfDay;
    TimeIsNamed(f.hours, f.minutes, k);
    var t := Instant(day, k);
    assert DayOf(t) == day;
    ClockOf(day, k);
  }

  /** The first day of the window on which the minute of the day `k` still lies ahead. */
  function FirstDay(start: nat, k: nat): nat {
    start / DAY + if k > start % DAY then 0 else 1
  }

  /** Each minute of the day that is in the fields fires on as many days as were found. */
  lemma FiresAtOneTime(f: Fields, start: nat, k: nat, yearly: bool) returns (ts: set<nat>)
    requires Plausible(f) && k in Times(f.hours, f.minutes) && if yearly then SatisfiableYearly(f) else Satisfiable(f)
    ensures |ts| == if yearly then 20 else 4
    ensures forall t :: t in ts ==> start < t <= start + HORIZON && Fires(f, t) && t % DAY == k
  {
    hide DayMatches, Ordinal, Fires, Times, DateOf, Satisfiable, SatisfiableYearly;
    TimesAreWithinDay(f);
    var dates := SomeDates(f, FirstDay(start, k), yearly);
    var days := Days(dates);
    DaysCount(dates);
    ts := Daily(days, k);
    DailyCount(days, k);
    forall t | t in ts ensures start < t <= start + HORIZON && Fires(f, t) && t % DAY == k {
      var d :| d in days && t == Instant(d, k);
      FireTimeOfDay(f, d, k);
    }
  }

  lemma TimesAreWithinDay(f: Fields)
    ensures Plausible(f) ==> (forall k :: k in Times(f.hours, f.minutes) ==> k < DAY)
  {}

  function Days(dates: seq<Date>): set<nat>
    requires forall i :: 0 <= i < |dates| ==> IsDate(dates[i])
  {
    set i | 0 <= i < |dates| :: Ordinal(dates[i])
  }

  lemma {:induction false} DaysCount(dates: seq<Date>)
    requires forall i :: 0 <= i < |dates| ==> IsDate(dates[i])
    requires forall i, j :: 0 <= i < j < |dates| ==> Earlier(dates[i], dates[j])
    ensures |Days(dates)| == |dates|
  {
    hide Ordinal, Earlier, IsDate;
    if dates != [] {
      var n := |dates| - 1;
      var front := dates[..n];
      DaysCount(front);
      assert Days(dates) == Days(front) + {Ordinal(dates[n])};
      forall i | 0 <= i < n ensures Ordinal(front[i]) < Ordinal(dates[n]) {
        OrdinalIsMonotone(dates[i], dates[n]);
      }
    }
  }

  lemma {:induction false} FiresAtTimes(f: Fields, start: nat, ks: set<nat>, yearly: bool) returns (ts: set<nat>)
    requires Plausible(f) && ks <= Times(f.hours, f.minutes) && if yearly then SatisfiableYearly(f) else Satisfiable(f)
    ensures |ts| == (if yearly then 20 else 4) * |ks|
    ensures forall t :: t in ts ==> start < t <= start + HORIZON && Fires(f, t) && t % DAY in ks
    decreases |ks|
  {
    hide Plausible, Fires, Times, Satisfiable, SatisfiableYearly;
    if ks == {} {
      ts := {};
    } else {
      var k :| k in ks;
      var others := FiresAtTimes(f, start, ks - {k}, yearly);
      var here := FiresAtOneTime(f, start, k, yearly);
      assert here !! others;
      assert |ks| == |ks - {k}| + 1;
      ts := others + here;
    }
  }

  lemma {:induction false} CoverCount(ts: set<nat>, s: seq<nat>)
    requires forall t :: t in ts ==> t in s
    ensures |ts| <= |s|
    decreases |s|
  {
    if s == [] {
      assert ts == {};
    } else {
      var last := s[|s| - 1];
      CoverCount(ts - {last}, s[..|s| - 1]);
    }
  }

  lemma {:induction false} IncreasingCount(s: seq<nat>, ts: set<nat>)
    requires Increasing(s) && forall t :: t in s ==> t in ts
    ensures |s| <= |ts|
    decreases |s|
  {
    if s != [] {
      var front, last := s[..|s| - 1], s[|s| - 1];
      assert forall t :: t in front ==> t in s;
      assert last !in front;
      IncreasingCount(front, ts - {last});
    }
  }

  /** At least four fires for each time of day; at least twenty when the date is in every year. */
  lemma EnoughFires(f: Fields, start: nat)
    requires Plausible(f)
    ensures Satisfiable(f) ==> |FiresAfter(f, start)| >= 4 * (|f.hours| * |f.minutes|) >= 4
    ensures SatisfiableYearly(f) ==> |FiresAfter(f, start)| >= 20
  {
    hide Fires, Satisfiable, SatisfiableYearly;
    MatchingIsExact(f, start, start + HORIZON);
    TimesCount(f.hours, f.minutes);
    SizesArePositive(f.hours, f.minutes);
    if Satisfiable(f) {
      var ts := FiresAtTimes(f, start, Times(f.hours, f.minutes), false);
      CoverCount(ts, FiresAfter(f, start));
    }
    if SatisfiableYearly(f) {
      var ts := FiresAtTimes(f, start, Times(f.hours, f.minutes), true);
      CoverCount(ts, FiresAfter(f, start));
    }
  }

  lemma SizesArePositive(hours: set<nat>, minutes: set<nat>)
    ensures hours != {} && minutes != {} ==> |hours| * |minutes| >= 1
  {
    if hours != {} && minutes != {} {
      assert |hours| >= 1 && |minutes| >= 1;
    }
  }

  // ----- The bound is the best one -----

  /** An expression that needs a leap day matches nothing but 29 February. */
  lemma OnlyLeapDays(f: Fields, day: nat)
    requires Plausible(f) && !SatisfiableYearly(f) && DayMatches(f, day)
    ensures var d := DateOf(day); d.month == 2 && d.day == 29 && IsLeap(d.year)
  {
    hide DayMatches, IsLeap;
    DayRule(f, day);
    var d := DateOf(day);
    MonthLengths(d.year, d.month);
    assert d.month in f.months && d.day in f.doms;
  }

  function LeapDay(year: nat): nat
    requires 1 <= year && IsLeap(year)
  {
    Ordinal(Date(year, 2, 29))
  }

  /** The last minute of the last leap day before the century year 2100. */
  const LATE: nat := Instant(LeapDay(2096), 1439)

  /** Searching from there meets only four leap days. */
  lemma FourLeapDays(day: nat)
    requires var d := DateOf(day); d.month == 2 && d.day == 29 && IsLeap(d.year)
    requires LeapDay(2096) < day <= LeapDay(2096) + MAX_SEARCH_DAYS
    ensures day in {LeapDay(2104), LeapDay(2108), LeapDay(2112), LeapDay(2116)}
  {
    hide DaysBeforeMonth, DaysBeforeYear, Ordinal, DateOf, Weekday;
    OrdinalOfDateOf(day);
    LeapDaysApart();
    var year := DateOf(day).year;
    assert LeapDay(year) == day;
    assert year % 4 == 0 && year != 2100;
    if year < 2096 {
      OrdinalIsMonotone(Date(year, 2, 29), Date(2096, 2, 29));
    } else if year > 2120 {
      OrdinalIsMonotone(Date(2120, 2, 29), Date(year, 2, 29));
    }
    assert 2096 < year < 2120;
    assert year in {2104, 2108, 2112, 2116};
  }

  lemma LeapDaysApart()
    ensures LeapDay(2120) - LeapDay(2096) == 8765
  {
    assert DaysBeforeMonth(2096, 2) == 31 == DaysBeforeMonth(2120, 2);
  }

  lemma FewFires(f: Fields)
    requires Plausible(f) && !SatisfiableYearly(f)
    ensures |FiresAfter(f, LATE)| <= 4 * (|f.hours| * |f.minutes|)
  {
    hide Fires, SatisfiableYearly, DayMatches, LeapDay;
    var times := Times(f.hours, f.minutes);
    var a := Instants(LeapDay(2104), times);
    var b := Instants(LeapDay(2108), times);
    var c := Instants(LeapDay(2112), times);
    var d := Instants(LeapDay(2116), times);
    InstantsCount(LeapDay(2104), times);
    InstantsCount(LeapDay(2108), times);
    InstantsCount(LeapDay(2112), times);
    InstantsCount(LeapDay(2116), times);
    TimesCount(f.hours, f.minutes);
    MatchingIsExact(f, LATE, LATE + HORIZON);
    var all := FiresAfter(f, LATE);
    forall t | t in all ensures t in a + b + c + d {
      var day, k := t / DAY, t % DAY;
      assert t == Instant(day, k);
      FireTimeOfDay(f, day, k);
      OnlyLeapDays(f, day);
      FourLeapDays(day);
    }
    IncreasingCount(all, a + b + c + d);
  }

  // ----- Main results -----

  /** Some day matches exactly when the fields say so; otherwise nothing ever fires. */
  lemma SatisfiableMeansSomeDay(f: Fields)
    requires Plausible(f)
    ensures Satisfiable(f) <==> exists day :: DayMatches(f, day)
    ensures !Satisfiable(f) ==> forall start :: FiresAfter(f, start) == []
  {
    hide DayMatches, Ordinal, Satisfiable;
    if Satisfiable(f) {
      var dates := SomeDates(f, 0, false);
      assert DayMatches(f, Ordinal(dates[0]));
    } else {
      forall day: nat ensures !DayMatches(f, day) {
        UnsatisfiableDay(f, day);
      }
      forall start: nat ensures FiresAfter(f, start) == [] {
        MatchingIsExact(f, start, start + HORIZON);
        assert forall t :: Fires(f, t) ==> DayMatches(f, DayOf(t));
        IncreasingCount(FiresAfter(f, start), {});
      }
    }
  }

  lemma UnsatisfiableDay(f: Fields, day: nat)
    requires Plausible(f) && !Satisfiable(f)
    ensures !DayMatches(f, day)
  {
    hide DayMatches;
    DayRule(f, day);
    var d := DateOf(day);
    MonthLengths(d.year, d.month);
  }

  /** Up to four fire times are found from every start unless the expression can never fire. */
  lemma UpToFourAreFound(f: Fields, start: nat, count: nat)
    requires Plausible(f) && 1 <= count <= 4
    ensures |FiresAfter(f, start)| >= count <==> exists day :: DayMatches(f, day)
  {
    hide DayMatches, Satisfiable, FiresAfter;
    SatisfiableMeansSomeDay(f);
    EnoughFires(f, start);
  }

  /** The permitted counts that are found from every start. */
  lemma HorizonIsEnoughExactly(f: Fields, count: nat)
    requires Plausible(f) && 1 <= count <= 20
    ensures (forall start :: |FiresAfter(f, start)| >= count)
      <==> SatisfiableYearly(f) || (Satisfiable(f) && count <= 4 * (|f.hours| * |f.minutes|))
  {
    hide DayMatches, Satisfiable, SatisfiableYearly, FiresAfter;
    SatisfiableMeansSomeDay(f);
    forall start: nat ensures Satisfiable(f) ==> |FiresAfter(f, start)| >= 4 * (|f.hours| * |f.minutes|)
      ensures SatisfiableYearly(f) ==> |FiresAfter(f, start)| >= 20
    {
      EnoughFires(f, start);
    }
    if !SatisfiableYearly(f) {
      FewFires(f);
      assert FiresAfter(f, LATE) == FiresAfter(f, LATE);
    }
  }

  /** The default count of five is refused for midnight on 29 February from the end of that day in 2096. */
  lemma DefaultCountCanFail()
    ensures var f := Fields({0}, {0}, {29}, {2}, AllDows());
      && Plausible(f) && Satisfiable(f)
      && |FiresAfter(f, LATE)| == 4
  {
    hide FiresAfter, LeapDay, DayMatches, Plausible, Satisfiable, SatisfiableYearly, AllDows;
    var f := Fields({0}, {0}, {29}, {2}, AllDows());
    MidnightOnLeapDay();
    EnoughFires(f, LATE);
    FewFires(f);
    assert |f.hours| * |f.minutes| == 1;
  }

  lemma MidnightOnLeapDay()
    ensures var f := Fields({0}, {0}, {29}, {2}, AllDows());
      Plausible(f) && Satisfiable(f) && !SatisfiableYearly(f)
  {
    var f := Fields({0}, {0}, {29}, {2}, AllDows());
    assert OnGrid(0, 0, 1) && 0 in f.dows;
    assert 2 in f.months && 29 in f.doms;
    assert OnGrid(1, 1, 1) && 1 in AllDoms() && 1 !in f.doms;
  }
}
