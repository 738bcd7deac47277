/**
 * What the coordinator resolves for a date (coordinator.py), stated over the
 * loaded configuration: which menu governs the date, whether the school is
 * closed, the rotation week, the next open day and the assembled day record.
 * The coordinator's loops are proved against these definitions.
 */
module Resolution {
  import opened Wrappers
  import opened Calendar
  import opened Constants
  import opened Models

  /** The configuration the coordinator holds after loading it. */
  datatype Schedule = Schedule(
    startDate: Date,
    startWeek: int,
    menus: seq<MenuInfo>,
    periods: seq<ClosurePeriod>,
    restarts: map<Date, int>)
  {
    /**
     * Every menu has a non-zero cycle length; `% total_weeks` raises
     * ZeroDivisionError otherwise.
     */
    predicate CyclesNonZero() {
      forall i | 0 <= i < |menus| :: menus[i].totalWeeks != 0
    }
  }

  // ---------------------------------------------------------------------------
  // Menus sorted by effective date

  predicate SortedByDate(menus: seq<MenuInfo>) {
    forall i, j | 0 <= i < j < |menus| :: menus[i].effectiveDate <= menus[j].effectiveDate
  }

  /** The menus with effective date `x`, in their order. */
  function WithDate(menus: seq<MenuInfo>, x: Date): seq<MenuInfo>
    decreases |menus|
  {
    if menus == [] then []
    else (if menus[0].effectiveDate == x then [menus[0]] else []) + WithDate(menus[1..], x)
  }

  lemma {:induction false} WithDateAppend(menus: seq<MenuInfo>, m: MenuInfo, x: Date)
    ensures WithDate(menus + [m], x) == WithDate(menus, x) + (if m.effectiveDate == x then [m] else [])
    decreases |menus|
  {
    if menus == [] {
      assert [m][1..] == [];
    } else {
      WithDateAppend(menus[1..], m, x);
      assert (menus + [m])[1..] == menus[1..] + [m];
    }
  }

  /** Places `m` after every menu whose date is not later than its own. */
  function InsertByDate(m: MenuInfo, sorted: seq<MenuInfo>): (r: seq<MenuInfo>)
    ensures |r| == |sorted| + 1
    ensures sorted != [] ==> r[0] == m || r[0] == sorted[0]
    decreases |sorted|
  {
    if sorted == [] then [m]
    else if m.effectiveDate < sorted[0].effectiveDate then [m] + sorted
    else [sorted[0]] + InsertByDate(m, sorted[1..])
  }

  lemma {:induction false} InsertByDatePermutes(m: MenuInfo, sorted: seq<MenuInfo>)
    ensures multiset(InsertByDate(m, sorted)) == multiset(sorted) + multiset{m}
    decreases |sorted|
  {
    if sorted != [] && m.effectiveDate >= sorted[0].effectiveDate {
      InsertByDatePermutes(m, sorted[1..]);
      assert sorted == [sorted[0]] + sorted[1..];
    }
  }

  /** `list.sort(key=lambda m: m.effective_date)`: a stable sort by effective date. */
  function SortByDate(menus: seq<MenuInfo>): (r: seq<MenuInfo>)
    ensures |r| == |menus|
    decreases |menus|
  {
    if menus == [] then []
    else InsertByDate(menus[|menus| - 1], SortByDate(menus[..|menus| - 1]))
  }

  lemma {:induction false} InsertByDateSorted(m: MenuInfo, sorted: seq<MenuInfo>)
    requires SortedByDate(sorted)
    ensures SortedByDate(InsertByDate(m, sorted))
    decreases |sorted|
  {
    if sorted != [] && m.effectiveDate >= sorted[0].effectiveDate {
      InsertByDateSorted(m, sorted[1..]);
      var rest := InsertByDate(m, sorted[1..]);
      assert rest[0] == m || rest[0] == sorted[1];
      assert InsertByDate(m, sorted) == [sorted[0]] + rest;
    }
  }

  lemma WithDateCons(h: MenuInfo, t: seq<MenuInfo>, x: Date)
    ensures WithDate([h] + t, x) == (if h.effectiveDate == x then [h] else []) + WithDate(t, x)
  {
    assert ([h] + t)[1..] == t;
  }

  lemma {:induction false} InsertByDateWithDate(m: MenuInfo, sorted: seq<MenuInfo>, x: Date)
    requires SortedByDate(sorted)
    ensures WithDate(InsertByDate(m, sorted), x) == WithDate(sorted, x) + (if m.effectiveDate == x then [m] else [])
    decreases |sorted|
  {
    if sorted == [] {
      WithDateCons(m, [], x);
      assert [m] + [] == [m];
    } else if m.effectiveDate < sorted[0].effectiveDate {
      WithDateCons(m, sorted, x);
      if m.effectiveDate == x {
        NoneWithEarlierDate(sorted, x);
      }
    } else {
      var rest := InsertByDate(m, sorted[1..]);
      InsertByDateWithDate(m, sorted[1..], x);
      WithDateCons(sorted[0], rest, x);
      WithDateCons(sorted[0], sorted[1..], x);
      assert [sorted[0]] + sorted[1..] == sorted;
    }
  }

  /** No menu of a sorted list has a date below the first one's. */
  lemma NoneWithEarlierDate(sorted: seq<MenuInfo>, x: Date)
    requires SortedByDate(sorted)
    requires sorted != [] && x < sorted[0].effectiveDate
    ensures WithDate(sorted, x) == []
    decreases |sorted|
  {
    if |sorted| > 1 {
      NoneWithEarlierDate(sorted[1..], x);
    }
  }

  /**
   * The sort orders the menus by date and, for every date, keeps the menus of
   * that date in their original order (so it is a stable permutation).
   */
  lemma {:induction false} SortByDateCorrect(menus: seq<MenuInfo>)
    ensures SortedByDate(SortByDate(menus))
    ensures multiset(SortByDate(menus)) == multiset(menus)
    ensures forall x :: WithDate(SortByDate(menus), x) == WithDate(menus, x)
    decreases |menus|
  {
    if menus != [] {
      var n := |menus| - 1;
      SortByDateCorrect(menus[..n]);
      InsertByDateSorted(menus[n], SortByDate(menus[..n]));
      InsertByDatePermutes(menus[n], SortByDate(menus[..n]));
      assert menus == menus[..n] + [menus[n]];
      forall x
        ensures WithDate(SortByDate(menus), x) == WithDate(menus, x)
      {
        InsertByDateWithDate(menus[n], SortByDate(menus[..n]), x);
        WithDateAppend(menus[..n], menus[n], x);
        assert menus[..n] + [menus[n]] == menus;
      }
    }
  }

  // ---------------------------------------------------------------------------
  // Menu selection

  /** The length of the leading run of menus whose date is not later than `d`. */
  function LeadingUpTo(menus: seq<MenuInfo>, d: Date): (k: nat)
    ensures k <= |menus|
    ensures forall i | 0 <= i < k :: menus[i].effectiveDate <= d
    ensures k < |menus| ==> menus[k].effectiveDate > d
    decreases |menus|
  {
    if menus == [] || menus[0].effectiveDate > d then 0
    else 1 + LeadingUpTo(menus[1..], d)
  }

  /**
   * `_get_menu_for_date`: the loop keeps the latest menu seen and stops at the
   * first one that takes effect after `d`.
   */
  function MenuFor(menus: seq<MenuInfo>, d: Date): (r: Option<MenuInfo>)
    ensures r.Some? ==> r.value in menus && r.value.effectiveDate <= d
  {
    var k := LeadingUpTo(menus, d);
    if k == 0 then None else Some(menus[k - 1])
  }

  /**
   * Over menus sorted by date, the governing menu is the last one in effect on
   * `d`, and there is none exactly when every menu takes effect later.
   */
  lemma MenuForSorted(menus: seq<MenuInfo>, d: Date)
    requires SortedByDate(menus)
    ensures MenuFor(menus, d).None? <==> forall i | 0 <= i < |menus| :: menus[i].effectiveDate > d
    ensures MenuFor(menus, d).Some? ==> exists i ::
      && 0 <= i < |menus| && menus[i] == MenuFor(menus, d).value && menus[i].effectiveDate <= d
      && forall j | i < j < |menus| :: menus[j].effectiveDate > d
  {
    var k := LeadingUpTo(menus, d);
    if k > 0 {
      assert menus[k - 1].effectiveDate <= d;
      forall j | k - 1 < j < |menus|
        ensures menus[j].effectiveDate > d
      {
        assert menus[k].effectiveDate <= menus[j].effectiveDate;
      }
    } else if menus != [] {
      assert forall i | 0 <= i < |menus| :: menus[0].effectiveDate <= menus[i].effectiveDate;
    }
  }

  // ---------------------------------------------------------------------------
  // Closures

  /** `_is_closed`: a weekend, or a date inside some closure period. */
  predicate ClosedOn(s: Schedule, d: Date) {
    Weekday(d) >= 5 || exists i :: 0 <= i < |s.periods| && s.periods[i].Contains(d)
  }

  // ---------------------------------------------------------------------------
  // Rotation week

  /** Python's `a // b`: the quotient rounded towards minus infinity. */
  function PyDiv(a: int, b: int): int
    requires b != 0
  {
    if b < 0 && a % b != 0 then a / b - 1 else a / b
  }

  /**
   * Python's `a % b`: the remainder takes the sign of the divisor. Dafny's `%`
   * is Euclidean, so a non-zero remainder is shifted by `b` when `b < 0`.
   */
  function PyMod(a: int, b: int): (r: int)
    requires b != 0
    ensures b > 0 ==> 0 <= r < b
    ensures b < 0 ==> b < r <= 0
    ensures a == b * PyDiv(a, b) + r
  {
    var e := a % b;
    assert a == b * (a / b) + e;
    if b < 0 && e != 0 then
      assert b * (a / b - 1) + (e + b) == b * (a / b) + e;
      e + b
    else
      e
  }

  lemma MulAwayFromZero(t: int, k: int)
    requires t > 0
    ensures k >= 1 ==> t * k >= t
    ensures k <= -1 ==> t * k <= -t
  {
  }

  /** Two remainders of the same sign as `t` that differ by a multiple of `t` are equal. */
  lemma RemainderUnique(t: int, r1: int, r2: int, k: int)
    requires t != 0
    requires t > 0 ==> 0 <= r1 < t && 0 <= r2 < t
    requires t < 0 ==> t < r1 <= 0 && t < r2 <= 0
    requires r1 - r2 == t * k
    ensures r1 == r2
  {
    if t > 0 {
      MulAwayFromZero(t, k);
    } else {
      MulAwayFromZero(-t, -k);
      assert (-t) * (-k) == t * k;
    }
  }

  /**
   * The week of `d` in a cycle of `totalWeeks` anchored at `anchorWeek` on the
   * calendar week of `anchorDate`: whole Monday-to-Monday weeks are counted.
   */
  function CycleWeek(anchorDate: Date, anchorWeek: int, totalWeeks: int, d: Date): (w: int)
    requires totalWeeks != 0
    ensures totalWeeks > 0 ==> 1 <= w <= totalWeeks
    ensures totalWeeks < 0 ==> totalWeeks < w - 1 <= 0
  {
    var weeksDiff := (MondayOf(d) - MondayOf(anchorDate)) / 7;
    PyMod(anchorWeek - 1 + weeksDiff, totalWeeks) + 1
  }

  /** `(x + 1) mod t` follows `x mod t`, wrapping from `t - 1` to 0. */
  lemma ModSucc(x: int, t: int)
    requires t > 0
    ensures PyMod(x + 1, t) == (if PyMod(x, t) == t - 1 then 0 else PyMod(x, t) + 1)
  {
    var r, q := PyMod(x, t), PyDiv(x, t);
    var r', q' := PyMod(x + 1, t), PyDiv(x + 1, t);
    var c, qc := if r == t - 1 then 0 else r + 1, if r == t - 1 then q + 1 else q;
    assert x + 1 == t * qc + c;
    assert c - r' == t * (q' - qc);
    RemainderUnique(t, c, r', q' - qc);
  }

  /** Adding the divisor does not change a Python remainder. */
  lemma ModAddDivisor(x: int, t: int)
    requires t != 0
    ensures PyMod(x + t, t) == PyMod(x, t)
  {
    var r, q := PyMod(x, t), PyDiv(x, t);
    var r', q' := PyMod(x + t, t), PyDiv(x + t, t);
    assert r - r' == t * (q' - q - 1);
    RemainderUnique(t, r, r', q' - q - 1);
  }

  /** The week advances by one, wrapping after the last, from one Monday to the next. */
  lemma CycleWeekAdvances(anchorDate: Date, anchorWeek: int, totalWeeks: int, d: Date)
    requires totalWeeks > 0
    ensures CycleWeek(anchorDate, anchorWeek, totalWeeks, d + 7) ==
      (if CycleWeek(anchorDate, anchorWeek, totalWeeks, d) == totalWeeks then 1
       else CycleWeek(anchorDate, anchorWeek, totalWeeks, d) + 1)
  {
    MondayShifts(d, 1);
    var x := anchorWeek - 1 + (MondayOf(d) - MondayOf(anchorDate)) / 7;
    assert (MondayOf(d + 7) - MondayOf(anchorDate)) / 7 == (MondayOf(d) - MondayOf(anchorDate)) / 7 + 1;
    ModSucc(x, totalWeeks);
  }

  /** Dates `7 * total_weeks` days apart fall in the same week of the cycle. */
  lemma CycleWeekPeriodic(anchorDate: Date, anchorWeek: int, totalWeeks: int, d: Date)
    requires totalWeeks != 0
    ensures CycleWeek(anchorDate, anchorWeek, totalWeeks, d + 7 * totalWeeks) == CycleWeek(anchorDate, anchorWeek, totalWeeks, d)
  {
    MondayShifts(d, totalWeeks);
    var x := anchorWeek - 1 + (MondayOf(d) - MondayOf(anchorDate)) / 7;
    assert (MondayOf(d + 7 * totalWeeks) - MondayOf(anchorDate)) / 7 == (MondayOf(d) - MondayOf(anchorDate)) / 7 + totalWeeks;
    ModAddDivisor(x, totalWeeks);
  }

  /** On its own calendar week the anchor's week number is used as it is, when it lies in the cycle. */
  lemma CycleWeekAtAnchor(anchorDate: Date, anchorWeek: int, totalWeeks: int, d: Date)
    requires 1 <= anchorWeek <= totalWeeks
    requires MondayOf(d) == MondayOf(anchorDate)
    ensures CycleWeek(anchorDate, anchorWeek, totalWeeks, d) == anchorWeek
  {
    var r := PyMod(anchorWeek - 1, totalWeeks);
    RemainderUnique(totalWeeks, anchorWeek - 1, r, PyDiv(anchorWeek - 1, totalWeeks));
  }

  /** The restart dates on or before `d`. */
  ghost function RestartsUpTo(restarts: map<Date, int>, d: Date): set<Date> {
    set k | k in restarts && k <= d
  }

  /** The greatest element of `xs`, or `None` when it is empty. */
  ghost function MaxOf(xs: set<int>): (r: Option<int>)
    ensures r.None? <==> xs == {}
    ensures r.Some? ==> r.value in xs && forall x | x in xs :: x <= r.value
    decreases xs
  {
    if exists p :: p in xs then
      var p :| p in xs;
      match MaxOf(xs - {p})
      case None =>
        assert xs == {p};
        Some(p)
      case Some(rest) =>
        assert forall y | y in xs :: y == p || y in xs - {p};
        if p > rest then Some(p) else Some(rest)
    else
      assert xs == {};
      None
  }

  /** The latest restart on or before `d`, if any. */
  ghost function LatestRestart(restarts: map<Date, int>, d: Date): (r: Option<Date>)
    ensures r.None? <==> forall k | k in restarts :: k > d
    ensures r.Some? ==> r.value in restarts && r.value <= d && forall k | k in restarts && k <= d :: k <= r.value
  {
    var upTo := RestartsUpTo(restarts, d);
    assert forall k | k in restarts && k <= d :: k in upTo;
    MaxOf(upTo)
  }

  /** The date and week the cycle counts from: the latest restart on or before `d`, else the start. */
  ghost function Anchor(s: Schedule, d: Date): (Date, int) {
    match LatestRestart(s.restarts, d)
    case None => (s.startDate, s.startWeek)
    case Some(r) => (r, s.restarts[r])
  }

  /** `_get_current_week`: week 1 when no menu governs `d`. */
  ghost function WeekOn(s: Schedule, d: Date): int
    requires s.CyclesNonZero()
  {
    match MenuFor(s.menus, d)
    case None => 1
    case Some(m) =>
      var (anchorDate, anchorWeek) := Anchor(s, d);
      CycleWeek(anchorDate, anchorWeek, m.totalWeeks, d)
  }

  /** With a governing menu the week lies in `1..total_weeks`; without one it is 1. */
  lemma WeekInRange(s: Schedule, d: Date)
    requires s.CyclesNonZero()
    ensures MenuFor(s.menus, d).None? ==> WeekOn(s, d) == 1
    ensures MenuFor(s.menus, d).Some? && MenuFor(s.menus, d).value.totalWeeks > 0 ==>
      1 <= WeekOn(s, d) <= MenuFor(s.menus, d).value.totalWeeks
  {
  }

  /** A restart dated after `d` changes neither the anchor nor the week of `d`. */
  lemma LaterRestartIrrelevant(s: Schedule, d: Date, later: Date, week: int)
    requires s.CyclesNonZero()
    requires later > d
    ensures Anchor(s.(restarts := s.restarts[later := week]), d) == Anchor(s, d)
    ensures WeekOn(s.(restarts := s.restarts[later := week]), d) == WeekOn(s, d)
  {
    var s' := s.(restarts := s.restarts[later := week]);
    assert RestartsUpTo(s'.restarts, d) == RestartsUpTo(s.restarts, d);
  }

  /** A restart whose week lies in the governing cycle sets the week of its own date. */
  lemma RestartDateGetsItsWeek(s: Schedule, d: Date)
    requires s.CyclesNonZero()
    requires d in s.restarts
    requires MenuFor(s.menus, d).Some? && 1 <= s.restarts[d] <= MenuFor(s.menus, d).value.totalWeeks
    ensures WeekOn(s, d) == s.restarts[d]
  {
    assert LatestRestart(s.restarts, d) == Some(d);
    CycleWeekAtAnchor(d, s.restarts[d], MenuFor(s.menus, d).value.totalWeeks, d);
  }

  /**
   * Within one calendar week, days governed by the same menu and anchored at the
   * same restart (or the start) share the week number.
   */
  lemma WeekConstantWithinCalendarWeek(s: Schedule, monday: Date, i: int)
    requires s.CyclesNonZero()
    requires Weekday(monday) == 0 && 0 <= i < 7
    requires MenuFor(s.menus, monday + i) == MenuFor(s.menus, monday)
    requires Anchor(s, monday + i) == Anchor(s, monday)
    ensures WeekOn(s, monday + i) == WeekOn(s, monday)
  {
    SameMondayWithinWeek(monday, i);
    SameMondayWithinWeek(monday, 0);
  }

  /** From one Monday to the next, under the same menu and anchor, the week advances and wraps. */
  lemma WeekAdvancesOnMonday(s: Schedule, monday: Date)
    requires s.CyclesNonZero()
    requires MenuFor(s.menus, monday).Some? && MenuFor(s.menus, monday).value.totalWeeks > 0
    requires MenuFor(s.menus, monday + 7) == MenuFor(s.menus, monday)
    requires Anchor(s, monday + 7) == Anchor(s, monday)
    ensures WeekOn(s, monday + 7) ==
      (if WeekOn(s, monday) == MenuFor(s.menus, monday).value.totalWeeks then 1 else WeekOn(s, monday) + 1)
  {
    var (ad, aw) := Anchor(s, monday);
    CycleWeekAdvances(ad, aw, MenuFor(s.menus, monday).value.totalWeeks, monday);
  }

  // ---------------------------------------------------------------------------
  // Next open day

  /** How many days `_get_next_valid_date` looks ahead. */
  const SearchDays: nat := 30

  /** The first open day among `n` days from `d`. */
  function FirstOpen(s: Schedule, d: Date, n: nat): Option<Date>
    decreases n
  {
    if n == 0 then None
    else if !ClosedOn(s, d) then Some(d)
    else FirstOpen(s, d + 1, n - 1)
  }

  /** `_get_next_valid_date`: the first open day among the 30 days after `from`. */
  function NextValidDate(s: Schedule, from: Date): Option<Date> {
    FirstOpen(s, from + 1, SearchDays)
  }

  lemma {:induction false} FirstOpenMeaning(s: Schedule, d: Date, n: nat)
    ensures FirstOpen(s, d, n).Some? ==>
      var x := FirstOpen(s, d, n).value;
      d <= x < d + n && !ClosedOn(s, x) && forall y | d <= y < x :: ClosedOn(s, y)
    ensures FirstOpen(s, d, n).None? <==> forall y | d <= y < d + n :: ClosedOn(s, y)
    decreases n
  {
    if n > 0 && ClosedOn(s, d) {
      FirstOpenMeaning(s, d + 1, n - 1);
    }
  }

  /**
   * The next open day is the earliest day after `from`, within 30 days, that is
   * not closed (so never a weekend and never `from` itself); there is none
   * exactly when all 30 days are closed.
   */
  lemma NextValidDateMeaning(s: Schedule, from: Date)
    ensures NextValidDate(s, from).Some? ==>
      var x := NextValidDate(s, from).value;
      && from < x <= from + SearchDays
      && !ClosedOn(s, x) && Weekday(x) < 5
      && forall y | from < y < x :: ClosedOn(s, y)
    ensures NextValidDate(s, from).None? <==> forall y | from < y <= from + SearchDays :: ClosedOn(s, y)
  {
    FirstOpenMeaning(s, from + 1, SearchDays);
  }

  /** Of any three consecutive days at least one is a weekday. */
  lemma ThreeDaysHoldAWeekday(from: Date)
    ensures Weekday(from + 1) < 5 || Weekday(from + 2) < 5 || Weekday(from + 3) < 5
  {
    var w := Weekday(from + 1);
    assert Weekday(from + 2) == (w + 1) % 7;
    assert Weekday(from + 3) == (w + 2) % 7;
  }

  /** Without closure periods the next open day is at most three days away. */
  lemma NoPeriodsNextWithinThree(s: Schedule, from: Date)
    requires s.periods == []
    ensures NextValidDate(s, from).Some? && NextValidDate(s, from).value <= from + 3
  {
    NextValidDateMeaning(s, from);
    ThreeDaysHoldAWeekday(from);
    var open := if Weekday(from + 1) < 5 then from + 1 else if Weekday(from + 2) < 5 then from + 2 else from + 3;
    assert !ClosedOn(s, open);
  }

  // ---------------------------------------------------------------------------
  // Day records

  /** `WEEKDAY_TO_CSV[d.weekday()]`. */
  function DayNumber(d: Date): (n: int)
    ensures n == Weekday(d) + 1
  {
    WeekdayToCsvShifts();
    WeekdayToCsv[Weekday(d)]
  }

  /** `menu_data.get(str(week), {}).get(str(day))`. */
  function Lookup(md: MenuData, week: int, day: int): Option<DayEntry>
  {
    if week in md && day in md[week] then Some(md[week][day]) else None
  }

  /** The stored record `_get_day_data` and `_get_meal_for_date` read, if any. */
  ghost function EntryOn(s: Schedule, d: Date): Option<DayEntry>
    requires s.CyclesNonZero()
  {
    if ClosedOn(s, d) then None
    else match MenuFor(s.menus, d)
      case None => None
      case Some(m) => Lookup(m.menuData, WeekOn(s, d), DayNumber(d))
  }

  /** `_get_day_data`. */
  ghost function DayAttrsOn(s: Schedule, d: Date): map<string, string>
    requires s.CyclesNonZero()
  {
    match EntryOn(s, d) case None => map[] case Some(e) => e.dayAttrs
  }

  /** `_get_meal_for_date`. */
  ghost function MealOn(s: Schedule, d: Date, slot: MealSlot): Option<MealData>
    requires s.CyclesNonZero()
  {
    match EntryOn(s, d) case None => None case Some(e) => MealFromDict(e.Meal(slot))
  }

  const UnknownMenu := "Unknown"

  /** `_get_menu_name_for_date`: the governing menu's name (possibly `None`), else "Unknown". */
  function MenuNameOn(s: Schedule, d: Date): (r: Option<string>)
    ensures MenuFor(s.menus, d).None? ==> r == Some(UnknownMenu)
    ensures MenuFor(s.menus, d).Some? ==> r == MenuFor(s.menus, d).value.menuName
  {
    match MenuFor(s.menus, d) case None => Some(UnknownMenu) case Some(m) => m.menuName
  }

  /** `WEEKDAY_NAMES.get(day_number, "Unknown")`. */
  function DayName(n: int): string {
    if n in WeekdayNames then WeekdayNames[n] else UnknownMenu
  }

  /** `_build_day_menu_data`. */
  ghost function DayPlan(s: Schedule, d: Date): DayMenuData
    requires s.CyclesNonZero()
  {
    var closed := ClosedOn(s, d);
    DayMenuData(
      d, WeekOn(s, d), DayNumber(d), DayName(DayNumber(d)), MenuNameOn(s, d), closed,
      if closed then map[] else DayAttrsOn(s, d),
      if closed then None else MealOn(s, d, MainCourse),
      if closed then None else MealOn(s, d, SecondCourse),
      if closed then None else MealOn(s, d, Side),
      if closed then None else MealOn(s, d, Fruit))
  }

  /** A closed day carries no attributes and no meal. */
  lemma ClosedDayIsEmpty(s: Schedule, d: Date)
    requires s.CyclesNonZero()
    requires ClosedOn(s, d)
    ensures DayPlan(s, d).isClosed && DayPlan(s, d).dayAttrs == map[]
    ensures forall slot: MealSlot :: DayPlan(s, d).GetMealData(slot).None?
  {
  }

  /**
   * The day number is the ISO weekday (1 = Monday), the name is defined for it,
   * and days 6 and 7 are always closed.
   */
  lemma DayNumberAndName(s: Schedule, d: Date)
    requires s.CyclesNonZero()
    ensures DayPlan(s, d).dayNumber == Weekday(d) + 1
    ensures DayPlan(s, d).dayName == WeekdayNames[Weekday(d) + 1]
    ensures DayPlan(s, d).dayNumber >= 6 ==> DayPlan(s, d).isClosed
  {
    WeekdayNamesCoverWeek();
  }

  /**
   * On an open day whose week or day is missing from the governing menu, the
   * record has no attributes and no meals, and is still reported open.
   */
  lemma MissingEntryIsEmpty(s: Schedule, d: Date)
    requires s.CyclesNonZero()
    requires !ClosedOn(s, d)
    requires MenuFor(s.menus, d).Some?
    requires var md := MenuFor(s.menus, d).value.menuData;
             !(WeekOn(s, d) in md && DayNumber(d) in md[WeekOn(s, d)])
    ensures !DayPlan(s, d).isClosed && DayPlan(s, d).dayAttrs == map[]
    ensures forall slot: MealSlot :: DayPlan(s, d).GetMealData(slot).None?
  {
  }

  /**
   * On an open day with a stored record for its week and day, the record's
   * attributes are shown and each slot is that record's meal, read by
   * `MealData.from_dict`.
   */
  lemma StoredEntryIsShown(s: Schedule, d: Date, e: DayEntry)
    requires s.CyclesNonZero()
    requires !ClosedOn(s, d)
    requires MenuFor(s.menus, d).Some?
    requires Lookup(MenuFor(s.menus, d).value.menuData, WeekOn(s, d), DayNumber(d)) == Some(e)
    ensures DayPlan(s, d).dayAttrs == e.dayAttrs
    ensures forall slot: MealSlot :: DayPlan(s, d).GetMealData(slot) == MealFromDict(e.Meal(slot))
  {
    forall slot: MealSlot
      ensures DayPlan(s, d).GetMealData(slot) == MealFromDict(e.Meal(slot))
    {
      assert EntryOn(s, d) == Some(e);
    }
  }

  /** `_async_update_data`: today's record, the next open day's record, and the cycle length. */
  ghost function UpdateOf(s: Schedule, today: Date): CoordinatorData
    requires s.CyclesNonZero()
  {
    CoordinatorData(
      DayPlan(s, today),
      match NextValidDate(s, today) case None => None case Some(n) => Some(DayPlan(s, n)),
      match MenuFor(s.menus, today) case None => DefaultCycle case Some(m) => m.totalWeeks)
  }

  /** The reported `total_weeks` when no menu governs today. */
  const DefaultCycle := 4

  /**
   * The reported cycle length is the governing menu's, or 4 without one; the
   * next record, when present, is for an open day after today.
   */
  lemma UpdateOfMeaning(s: Schedule, today: Date)
    requires s.CyclesNonZero()
    ensures MenuFor(s.menus, today).None? ==> UpdateOf(s, today).totalWeeks == 4
    ensures MenuFor(s.menus, today).Some? ==> UpdateOf(s, today).totalWeeks == MenuFor(s.menus, today).value.totalWeeks
    ensures UpdateOf(s, today).today.date == today
    ensures UpdateOf(s, today).next.Some? ==>
      today < UpdateOf(s, today).next.value.date <= today + SearchDays && !UpdateOf(s, today).next.value.isClosed
  {
    NextValidDateMeaning(s, today);
  }

  // ---------------------------------------------------------------------------
  // Worked examples

  /**
   * Menus taking effect on 2024-01-01 and 2024-09-01 (ordinals 738886 and
   * 739130): 2024-06-01 is governed by the first, 2024-10-15 by the second and
   * 2023-12-31 by neither.
   */
  lemma MenuSelectionExample(a: MenuInfo, b: MenuInfo)
    requires a.effectiveDate == 738886 && b.effectiveDate == 739130
    ensures MenuFor([a, b], 739038) == Some(a)
    ensures MenuFor([a, b], 739174) == Some(b)
    ensures MenuFor([a, b], 738885) == None
  {
    assert [a, b][1..] == [b];
    assert [b][1..] == [];
  }

  /** With a single menu in effect, the week is the cycle week from the anchor. */
  lemma SingleMenuWeek(s: Schedule, m: MenuInfo, d: Date)
    requires s.menus == [m] && m.effectiveDate <= d && m.totalWeeks != 0
    ensures s.CyclesNonZero()
    ensures WeekOn(s, d) == CycleWeek(Anchor(s, d).0, Anchor(s, d).1, m.totalWeeks, d)
  {
    assert [m][1..] == [];
  }

  /**
   * Start 2024-09-02 (a Monday, ordinal 739131) at week 1 of 4: that day is
   * week 1, 2024-09-09 is week 2 and 2024-10-21, seven whole weeks on, is week 4.
   */
  lemma RotationExample(s: Schedule, m: MenuInfo)
    requires m.effectiveDate == 739131 && m.totalWeeks == 4
    requires s == Schedule(739131, 1, [m], [], map[])
    ensures s.CyclesNonZero()
    ensures WeekOn(s, 739131) == 1 && WeekOn(s, 739138) == 2 && WeekOn(s, 739180) == 4
  {
    SingleMenuWeek(s, m, 739131);
    SingleMenuWeek(s, m, 739138);
    SingleMenuWeek(s, m, 739180);
    assert MondayOf(739131) == 739131 && MondayOf(739138) == 739138 && MondayOf(739180) == 739180;
    assert CycleWeek(739131, 1, 4, 739138) == PyMod(1, 4) + 1;
    assert CycleWeek(739131, 1, 4, 739180) == PyMod(7, 4) + 1;
  }

  /**
   * With a restart to week 1 on 2024-11-04 (ordinal 739194), the Monday after,
   * 2024-11-11, is week 2.
   */
  lemma RestartExample(s: Schedule, m: MenuInfo)
    requires m.effectiveDate == 739131 && m.totalWeeks == 4
    requires s == Schedule(739131, 1, [m], [], map[739194 := 1])
    ensures s.CyclesNonZero()
    ensures WeekOn(s, 739201) == 2
  {
    SingleMenuWeek(s, m, 739201);
    assert 739194 in s.restarts;
    assert Anchor(s, 739201) == (739194, 1);
    assert MondayOf(739194) == 739194 && MondayOf(739201) == 739201;
    assert CycleWeek(739194, 1, 4, 739201) == PyMod(1, 4) + 1;
  }

  /**
   * The closure period 2024-12-23..2024-12-27 contains both ends and neither
   * neighbouring day; the Monday 2024-12-23 is closed only because of it.
   */
  lemma ClosureExample(p: ClosurePeriod)
    requires p == ClosurePeriod(739243, 739247)
    ensures p.Contains(739243) && p.Contains(739247)
    ensures !p.Contains(739242) && !p.Contains(739248)
    ensures ClosedOn(Schedule(0, 1, [], [p], map[]), 739243)
    ensures !ClosedOn(Schedule(0, 1, [], [], map[]), 739243)
  {
    assert Schedule(0, 1, [], [p], map[]).periods[0].Contains(739243);
    assert Weekday(739243) == 0;
  }
}
