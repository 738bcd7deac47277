/**
 * The data coordinator (coordinator.py): it loads menus, closure periods and
 * restarts from the stored configuration into its fields and resolves dates
 * against them. Each resolver is a read-only method proved equal to its
 * definition in `Resolution`.
 */
module Coordinator {
  import opened Wrappers
  import opened Calendar
  import opened Constants
  import opened Models
  import opened Resolution

  // ---------------------------------------------------------------------------
  // Loading

  /** How converting the stored menus ends: all converted, or stopped by the first failure. */
  datatype LoadOutcome =
    | Loaded(menus: seq<MenuInfo>)
    | Failed(menus: seq<MenuInfo>, error: ConfigError)

  /** `MenuInfo.from_config` over the stored menus in order; the first error stops it. */
  function Converted(stored: seq<(string, StoredMenu)>): LoadOutcome
    decreases |stored|
  {
    if stored == [] then Loaded([])
    else
      var n := |stored| - 1;
      match Converted(stored[..n])
      case Failed(ms, e) => Failed(ms, e)
      case Loaded(ms) =>
        match MenuFromConfig(stored[n].0, stored[n].1)
        case Ok(m) => Loaded(ms + [m])
        case Err(e) => Failed(ms, e)
  }

  /**
   * Loading succeeds exactly when every stored menu converts, and then yields
   * one menu per stored entry, in order; otherwise it holds the menus before
   * the first entry that fails, and that entry's error.
   */
  lemma {:induction false} ConvertedMeaning(stored: seq<(string, StoredMenu)>)
    ensures Converted(stored).Loaded? <==> forall i | 0 <= i < |stored| :: MenuFromConfig(stored[i].0, stored[i].1).Ok?
    ensures Converted(stored).Loaded? ==>
      && |Converted(stored).menus| == |stored|
      && forall i | 0 <= i < |stored| :: Ok(Converted(stored).menus[i]) == MenuFromConfig(stored[i].0, stored[i].1)
    ensures Converted(stored).Failed? ==>
      var j := |Converted(stored).menus|;
      && j < |stored|
      && MenuFromConfig(stored[j].0, stored[j].1) == Err(Converted(stored).error)
      && forall i | 0 <= i < j :: Ok(Converted(stored).menus[i]) == MenuFromConfig(stored[i].0, stored[i].1)
    decreases |stored|
  {
    if stored != [] {
      var n := |stored| - 1;
      ConvertedMeaning(stored[..n]);
      assert forall i | 0 <= i < n :: stored[..n][i] == stored[i];
    }
  }

  /** `ClosurePeriod.from_dict` over the stored periods, dropping those it rejects. */
  function ReadPeriods(data: seq<StoredPeriod>): seq<ClosurePeriod>
    decreases |data|
  {
    if data == [] then []
    else
      var n := |data| - 1;
      ReadPeriods(data[..n]) + match ClosureFromDict(data[n]) case None => [] case Some(p) => [p]
  }

  /** The loaded periods are exactly those of the readable stored entries. */
  lemma {:induction false} ReadPeriodsMembers(data: seq<StoredPeriod>)
    ensures forall p :: p in ReadPeriods(data) <==> exists j :: 0 <= j < |data| && ClosureFromDict(data[j]) == Some(p)
    decreases |data|
  {
    if data != [] {
      var n := |data| - 1;
      ReadPeriodsMembers(data[..n]);
      forall p
        ensures p in ReadPeriods(data) <==> exists j :: 0 <= j < |data| && ClosureFromDict(data[j]) == Some(p)
      {
        if exists j :: 0 <= j < |data| && ClosureFromDict(data[j]) == Some(p) {
          var j :| 0 <= j < |data| && ClosureFromDict(data[j]) == Some(p);
          if j < n {
            assert data[..n][j] == data[j];
          }
        }
        if p in ReadPeriods(data[..n]) {
          var j :| 0 <= j < n && ClosureFromDict(data[..n][j]) == Some(p);
          assert data[j] == data[..n][j];
        }
      }
    }
  }

  /**
   * The restarts read from the stored `date -> week` items: an item whose date
   * does not parse is skipped, and a later item for the same date wins.
   */
  function ReadRestarts(items: seq<(DateText, int)>): map<Date, int>
    decreases |items|
  {
    if items == [] then map[]
    else
      var n := |items| - 1;
      var earlier := ReadRestarts(items[..n]);
      match items[n].0
      case Iso(d) => earlier[d := items[n].1]
      case NotIso => earlier
  }

  /** The item that sets the week of `d`: it carries `d`, and no later item does. */
  predicate LastFor(items: seq<(DateText, int)>, d: Date, i: int) {
    0 <= i < |items| && items[i].0 == Iso(d) && forall j | i < j < |items| :: items[j].0 != Iso(d)
  }

  /** A date is a restart exactly when some item carries it, and its week is the last such item's. */
  lemma {:induction false} ReadRestartsMeaning(items: seq<(DateText, int)>)
    ensures forall d :: d in ReadRestarts(items) <==> exists i :: 0 <= i < |items| && items[i].0 == Iso(d)
    ensures forall d | d in ReadRestarts(items) :: exists i :: LastFor(items, d, i) && ReadRestarts(items)[d] == items[i].1
    decreases |items|
  {
    if items != [] {
      var n := |items| - 1;
      var prefix := items[..n];
      ReadRestartsMeaning(prefix);
      assert forall i | 0 <= i < n :: prefix[i] == items[i];
      forall d | d in ReadRestarts(items)
        ensures exists i :: LastFor(items, d, i) && ReadRestarts(items)[d] == items[i].1
      {
        if items[n].0 == Iso(d) {
          assert LastFor(items, d, n);
        } else {
          var i :| LastFor(prefix, d, i) && ReadRestarts(prefix)[d] == prefix[i].1;
          assert LastFor(items, d, i);
        }
      }
    }
  }

  // ---------------------------------------------------------------------------
  // The coordinator

  class Coordinator {
    var startDate: Date
    var startWeek: int
    var menus: seq<MenuInfo>
    var closurePeriods: seq<ClosurePeriod>
    var restarts: map<Date, int>

    /** The configuration the resolvers read. */
    function Schedule(): Schedule
      reads this
    {
      Resolution.Schedule(startDate, startWeek, menus, closurePeriods, restarts)
    }

    /** The state after `async_setup` has read the start date and week, before loading. */
    constructor (startDate: Date, startWeek: int)
      ensures this.startDate == startDate && this.startWeek == startWeek
      ensures menus == [] && closurePeriods == [] && restarts == map[]
    {
      this.startDate := startDate;
      this.startWeek := startWeek;
      menus := [];
      closurePeriods := [];
      restarts := map[];
    }

    /**
     * `_load_menus`: converts every stored menu and sorts the list by effective
     * date. A failing conversion raises, leaving the menus converted so far,
     * unsorted.
     */
    method LoadMenus(stored: seq<(string, StoredMenu)>) returns (ok: bool)
      modifies this
      ensures ok <==> Converted(stored).Loaded?
      ensures ok ==> menus == SortByDate(Converted(stored).menus) && SortedByDate(menus)
      ensures !ok ==> menus == Converted(stored).menus
      ensures startDate == old(startDate) && startWeek == old(startWeek)
      ensures closurePeriods == old(closurePeriods) && restarts == old(restarts)
    {
      menus := [];
      var i := 0;
      while i < |stored|
        invariant 0 <= i <= |stored|
        invariant Converted(stored[..i]) == Loaded(menus)
        invariant startDate == old(startDate) && startWeek == old(startWeek)
        invariant closurePeriods == old(closurePeriods) && restarts == old(restarts)
      {
        assert stored[..i + 1][..i] == stored[..i];
        var converted := MenuFromConfig(stored[i].0, stored[i].1);
        if converted.Err? {
          PrefixFailureStays(stored, i + 1);
          return false;
        }
        menus := menus + [converted.value];
        i := i + 1;
      }
      assert stored[..i] == stored;
      menus := SortByDate(menus);
      SortByDateCorrect(Converted(stored).menus);
      return true;
    }

    /**
     * `_load_options`: keeps the readable closure periods in order and the
     * restarts whose date parses, a later item for a date replacing an earlier.
     */
    method LoadOptions(periodData: seq<StoredPeriod>, restartItems: seq<(DateText, int)>)
      modifies this
      ensures closurePeriods == ReadPeriods(periodData)
      ensures restarts == ReadRestarts(restartItems)
      ensures startDate == old(startDate) && startWeek == old(startWeek) && menus == old(menus)
    {
      closurePeriods := [];
      for i := 0 to |periodData|
        invariant closurePeriods == ReadPeriods(periodData[..i])
        invariant startDate == old(startDate) && startWeek == old(startWeek) && menus == old(menus)
      {
        assert periodData[..i + 1][..i] == periodData[..i];
        var period := ClosureFromDict(periodData[i]);
        if period.Some? {
          closurePeriods := closurePeriods + [period.value];
        }
      }
      assert periodData[..|periodData|] == periodData;
      restarts := map[];
      for i := 0 to |restartItems|
        invariant restarts == ReadRestarts(restartItems[..i])
        invariant closurePeriods == ReadPeriods(periodData)
        invariant startDate == old(startDate) && startWeek == old(startWeek) && menus == old(menus)
      {
        assert restartItems[..i + 1][..i] == restartItems[..i];
        match restartItems[i].0
        case Iso(d) => restarts := restarts[d := restartItems[i].1];
        case NotIso =>
      }
      assert restartItems[..|restartItems|] == restartItems;
    }

    /** `_get_menu_for_date`: the last menu of the leading run in effect on `d`. */
    method GetMenuForDate(d: Date) returns (active: Option<MenuInfo>)
      ensures active == MenuFor(menus, d)
    {
      active := None;
      var i := 0;
      while i < |menus|
        invariant 0 <= i <= |menus|
        invariant forall j | 0 <= j < i :: menus[j].effectiveDate <= d
        invariant active == if i == 0 then None else Some(menus[i - 1])
      {
        if menus[i].effectiveDate <= d {
          active := Some(menus[i]);
        } else {
          break;
        }
        i := i + 1;
      }
      assert LeadingUpTo(menus, d) == i;
    }

    /** `_is_closed`. */
    method IsClosed(d: Date) returns (closed: bool)
      ensures closed == ClosedOn(Schedule(), d)
    {
      if Weekday(d) >= 5 {
        return true;
      }
      for i := 0 to |closurePeriods|
        invariant forall j | 0 <= j < i :: !closurePeriods[j].Contains(d)
      {
        if closurePeriods[i].Contains(d) {
          return true;
        }
      }
      return false;
    }

    /**
     * The restart `_get_current_week` anchors at: the greatest restart date on
     * or before `d`. The keys are visited in any order; the maximum is the same
     * as over the sorted keys.
     */
    method LatestRestartOnOrBefore(d: Date) returns (latest: Option<Date>)
      ensures latest == LatestRestart(restarts, d)
    {
      var todo := restarts.Keys;
      latest := None;
      while exists k :: k in todo
        invariant todo <= restarts.Keys
        invariant latest.None? ==> forall k | k in restarts && k !in todo :: k > d
        invariant latest.Some? ==>
          && latest.value in restarts && latest.value !in todo && latest.value <= d
          && forall k | k in restarts && k !in todo && k <= d :: k <= latest.value
        decreases todo
      {
        var k :| k in todo;
        if k <= d && (latest.None? || k > latest.value) {
          latest := Some(k);
        }
        todo := todo - {k};
      }
    }

    /** `_get_current_week`. */
    method GetCurrentWeek(d: Date) returns (week: int)
      requires Schedule().CyclesNonZero()
      ensures week == WeekOn(Schedule(), d)
    {
      var menu := GetMenuForDate(d);
      if menu.None? {
        return 1;
      }
      var totalWeeks := menu.value.totalWeeks;
      var anchorDate, anchorWeek := startDate, startWeek;
      var latest := LatestRestartOnOrBefore(d);
      if latest.Some? {
        anchorDate, anchorWeek := latest.value, restarts[latest.value];
      }
      var startMonday := anchorDate - Weekday(anchorDate);
      var checkMonday := d - Weekday(d);
      var weeksDiff := (checkMonday - startMonday) / 7;
      week := PyMod(anchorWeek - 1 + weeksDiff, totalWeeks) + 1;
    }

    /** The stored record for `d` in the governing menu, when the day is open. */
    method GetEntry(d: Date) returns (entry: Option<DayEntry>)
      requires Schedule().CyclesNonZero()
      ensures entry == EntryOn(Schedule(), d)
    {
      var closed := IsClosed(d);
      if closed {
        return None;
      }
      var menu := GetMenuForDate(d);
      if menu.None? {
        return None;
      }
      var week := GetCurrentWeek(d);
      var dayNumber := WeekdayToCsv[Weekday(d)];
      entry := Lookup(menu.value.menuData, week, dayNumber);
    }

    /** `_get_day_data`. */
    method GetDayData(d: Date) returns (attrs: map<string, string>)
      requires Schedule().CyclesNonZero()
      ensures attrs == DayAttrsOn(Schedule(), d)
    {
      var entry := GetEntry(d);
      attrs := if entry.Some? then entry.value.dayAttrs else map[];
    }

    /** `_get_meal_for_date`. */
    method GetMealForDate(d: Date, slot: MealSlot) returns (meal: Option<MealData>)
      requires Schedule().CyclesNonZero()
      ensures meal == MealOn(Schedule(), d, slot)
    {
      var entry := GetEntry(d);
      meal := if entry.Some? then MealFromDict(entry.value.Meal(slot)) else None;
    }

    /** `_get_menu_name_for_date`. */
    method GetMenuNameForDate(d: Date) returns (name: Option<string>)
      ensures name == MenuNameOn(Schedule(), d)
    {
      var menu := GetMenuForDate(d);
      name := if menu.Some? then menu.value.menuName else Some(UnknownMenu);
    }

    /** `_get_next_valid_date`: tries the 30 days after `from` in order. */
    method GetNextValidDate(from: Date) returns (next: Option<Date>)
      ensures next == NextValidDate(Schedule(), from)
    {
      var check := from + 1;
      var i := 0;
      while i < SearchDays
        invariant 0 <= i <= SearchDays && check == from + 1 + i
        invariant FirstOpen(Schedule(), check, SearchDays - i) == NextValidDate(Schedule(), from)
      {
        var closed := IsClosed(check);
        if !closed {
          return Some(check);
        }
        check := check + 1;
        i := i + 1;
      }
      return None;
    }

    /** `_build_day_menu_data`. */
    method BuildDayMenuData(d: Date) returns (day: DayMenuData)
      requires Schedule().CyclesNonZero()
      ensures day == DayPlan(Schedule(), d)
    {
      var closed := IsClosed(d);
      var week := GetCurrentWeek(d);
      var dayNumber := WeekdayToCsv[Weekday(d)];
      var dayName := if dayNumber in WeekdayNames then WeekdayNames[dayNumber] else UnknownMenu;
      var menuName := GetMenuNameForDate(d);
      var dayAttrs: map<string, string> := map[];
      var mainCourse, secondCourse, side, fruit: Option<MealData> := None, None, None, None;
      if !closed {
        dayAttrs := GetDayData(d);
        mainCourse := GetMealForDate(d, MainCourse);
        secondCourse := GetMealForDate(d, SecondCourse);
        side := GetMealForDate(d, Side);
        fruit := GetMealForDate(d, Fruit);
      }
      day := DayMenuData(d, week, dayNumber, dayName, menuName, closed, dayAttrs, mainCourse, secondCourse, side, fruit);
    }

    /** `_async_update_data` for a given `today`. */
    method UpdateData(today: Date) returns (data: CoordinatorData)
      requires Schedule().CyclesNonZero()
      ensures data == UpdateOf(Schedule(), today)
    {
      var nextValid := GetNextValidDate(today);
      var menu := GetMenuForDate(today);
      var totalWeeks := if menu.Some? then menu.value.totalWeeks else DefaultCycle;
      var todayData := BuildDayMenuData(today);
      var nextData: Option<DayMenuData> := None;
      if nextValid.Some? {
        var built := BuildDayMenuData(nextValid.value);
        nextData := Some(built);
      }
      data := CoordinatorData(todayData, nextData, totalWeeks);
    }
  }

  /** Once a prefix of the stored menus has failed to convert, every longer prefix has too. */
  lemma {:induction false} PrefixFailureStays(stored: seq<(string, StoredMenu)>, k: nat)
    requires 0 < k <= |stored|
    requires Converted(stored[..k]).Failed?
    ensures Converted(stored) == Converted(stored[..k])
    decreases |stored| - k
  {
    if k < |stored| {
      assert stored[..k + 1][..k] == stored[..k];
      PrefixFailureStays(stored, k + 1);
    } else {
      assert stored[..k] == stored;
    }
  }
}
