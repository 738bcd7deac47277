/**
 * The validation and update rules of the configuration flow (config_flow.py):
 * the upload step's checks on the parsed CSV, and the options steps that add
 * and delete closure periods and restarts. The form plumbing around them is not
 * modelled; each step is one submission of its form.
 */
module ConfigEdits {
  import opened Wrappers
  import opened Calendar
  import opened Models
  import opened CsvMenu
  import opened Constants

  // Keys of the error dictionaries, and the error and abort codes.
  const StartKey := "start"
  const EndKey := "end"
  const BaseKey := "base"
  const MenuCsvKey := "menu_csv"
  const RestartDateKey := "restart_date"
  const RestartWeekKey := "restart_week"
  const InvalidDate := "invalid_date"
  const InvalidWeek := "invalid_week"
  const InvalidCsv := "invalid_csv"
  const EndBeforeStart := "end_before_start"
  const Overlapping := "closure_period_overlapping"
  const StartWeekExceedsTotal := "start_week_exceeds_total"
  const RestartAlreadyConfigured := "restart_date_already_configured"
  const NoClosures := "no_closures"
  const NoRestarts := "no_restarts"
  const NoSelection := "no_selection"

  /** The `total_weeks` a new flow starts with, and the `.get` default for menus. */
  const DefaultTotalWeeks := 4

  /**
   * How a submitted form ends: the store is updated, the form is shown again
   * with these errors, the flow aborts, or an exception escapes the step.
   */
  datatype StepOutcome = Saved | Rejected(errors: map<string, string>) | Aborted(reason: string) | Raised

  // ---------------------------------------------------------------------------
  // Closure periods

  /** The overlap test of `async_step_add_closure_period`: `not (end < s or start > e)`. */
  predicate Overlaps(p: ClosurePeriod, start: Date, end: Date) {
    !(end < p.start || start > p.end)
  }

  /** For two non-empty ranges, the test holds exactly when some date lies in both. */
  lemma OverlapIsSharedDay(p: ClosurePeriod, start: Date, end: Date)
    requires p.start <= p.end && start <= end
    ensures Overlaps(p, start, end) <==> exists d :: p.Contains(d) && start <= d <= end
  {
    if Overlaps(p, start, end) {
      var d := if start < p.start then p.start else start;
      assert p.Contains(d) && start <= d <= end;
    }
  }

  /** The errors of the two date fields and their order, before the overlap scan. */
  function ClosureFieldErrors(start: DateText, end: DateText): (r: map<string, string>)
    ensures StartKey in r <==> start.NotIso?
    ensures StartKey in r ==> r[StartKey] == InvalidDate
    ensures EndKey in r <==> end.NotIso? || (start.Iso? && end.Iso? && start.date > end.date)
    ensures EndKey in r ==> r[EndKey] == (if end.NotIso? then InvalidDate else EndBeforeStart)
    ensures r.Keys <= {StartKey, EndKey}
    ensures r == map[] <==> start.Iso? && end.Iso? && start.date <= end.date
  {
    match (start, end)
    case (Iso(s), Iso(e)) => if s > e then map[EndKey := EndBeforeStart] else map[]
    case (Iso(_), NotIso) => map[EndKey := InvalidDate]
    case (NotIso, Iso(_)) => map[StartKey := InvalidDate]
    case (NotIso, NotIso) => map[StartKey := InvalidDate, EndKey := InvalidDate]
  }

  /** What the overlap scan over the stored periods ends with. */
  datatype Scan = Clear | Overlap | Unreadable

  /**
   * The scan in list order: the first stored period that does not parse raises,
   * the first one that overlaps stops the scan.
   */
  function ScanPeriods(ps: seq<StoredPeriod>, start: Date, end: Date): Scan
    decreases |ps|
  {
    if ps == [] then Clear
    else match ClosureFromDict(ps[0])
      case None => Unreadable
      case Some(p) => if Overlaps(p, start, end) then Overlap else ScanPeriods(ps[1..], start, end)
  }

  /**
   * The scan is clear exactly when every stored period parses and none overlaps;
   * it reports an overlap only for a period that does overlap, and over readable
   * periods it reports one whenever some period overlaps.
   */
  lemma {:induction false} ScanPeriodsMeaning(ps: seq<StoredPeriod>, start: Date, end: Date)
    ensures ScanPeriods(ps, start, end) == Clear <==>
      forall i | 0 <= i < |ps| :: ClosureFromDict(ps[i]).Some? && !Overlaps(ClosureFromDict(ps[i]).value, start, end)
    ensures ScanPeriods(ps, start, end) == Overlap ==>
      exists i :: 0 <= i < |ps| && ClosureFromDict(ps[i]).Some? && Overlaps(ClosureFromDict(ps[i]).value, start, end)
    ensures (forall i | 0 <= i < |ps| :: ClosureFromDict(ps[i]).Some?) ==>
      (ScanPeriods(ps, start, end) == Overlap <==>
       exists i :: 0 <= i < |ps| && Overlaps(ClosureFromDict(ps[i]).value, start, end))
    decreases |ps|
  {
    if ps != [] {
      ScanPeriodsMeaning(ps[1..], start, end);
      assert forall i | 1 <= i < |ps| :: ps[i] == ps[1..][i - 1];
      if ScanPeriods(ps[1..], start, end) == Overlap && ClosureFromDict(ps[0]).Some? &&
         !Overlaps(ClosureFromDict(ps[0]).value, start, end) {
        var i :| 0 <= i < |ps[1..]| && ClosureFromDict(ps[1..][i]).Some? && Overlaps(ClosureFromDict(ps[1..][i]).value, start, end);
        assert ps[i + 1] == ps[1..][i];
      }
    }
  }

  /** The loop with `break` over the stored periods. */
  method ScanStoredPeriods(ps: seq<StoredPeriod>, start: Date, end: Date) returns (r: Scan)
    ensures r == ScanPeriods(ps, start, end)
  {
    var i := 0;
    while i < |ps|
      invariant 0 <= i <= |ps|
      invariant ScanPeriods(ps, start, end) == ScanPeriods(ps[i..], start, end)
    {
      assert ps[i..][1..] == ps[i + 1..];
      var p := ClosureFromDict(ps[i]);
      if p.None? {
        return Unreadable;
      }
      if Overlaps(p.value, start, end) {
        return Overlap;
      }
      i := i + 1;
    }
    return Clear;
  }

  /**
   * No two readable stored periods share a date: each earlier period fails the
   * overlap test against each later one.
   */
  ghost predicate Separated(ps: seq<StoredPeriod>) {
    forall i, j | 0 <= i < j < |ps| && ClosureFromDict(ps[i]).Some? && ClosureFromDict(ps[j]).Some? ::
      !Overlaps(ClosureFromDict(ps[i]).value, ClosureFromDict(ps[j]).value.start, ClosureFromDict(ps[j]).value.end)
  }

  /** Appending a period the scan found clear keeps the stored periods separated. */
  lemma AppendClearKeepsSeparated(ps: seq<StoredPeriod>, start: Date, end: Date)
    requires Separated(ps)
    requires ScanPeriods(ps, start, end) == Clear
    ensures Separated(ps + [StoredPeriod(Some(Iso(start)), Some(Iso(end)))])
  {
    ScanPeriodsMeaning(ps, start, end);
    var qs := ps + [StoredPeriod(Some(Iso(start)), Some(Iso(end)))];
    forall i, j | 0 <= i < j < |qs| && ClosureFromDict(qs[i]).Some? && ClosureFromDict(qs[j]).Some?
      ensures !Overlaps(ClosureFromDict(qs[i]).value, ClosureFromDict(qs[j]).value.start, ClosureFromDict(qs[j]).value.end)
    {
      assert qs[i] == ps[i];
      if j < |ps| {
        assert qs[j] == ps[j];
      }
    }
  }

  /**
   * The delete step's filter: the period at index `i` is kept when the string
   * `str(i)` is not among the selected values.
   */
  function KeepUnselected(ps: seq<StoredPeriod>, toRemove: set<string>): (r: seq<StoredPeriod>)
    ensures |r| <= |ps|
    decreases |ps|
  {
    if ps == [] then []
    else
      var n := |ps| - 1;
      KeepUnselected(ps[..n], toRemove) + (if DecimalString(n) in toRemove then [] else [ps[n]])
  }

  /** The period `p` sits at index `i`, which the selection does not name. */
  predicate KeptAt(ps: seq<StoredPeriod>, toRemove: set<string>, i: int, p: StoredPeriod) {
    0 <= i < |ps| && DecimalString(i) !in toRemove && ps[i] == p
  }

  /** A period survives the delete step exactly when it sits at an index that was not selected. */
  lemma {:induction false} KeepUnselectedMembers(ps: seq<StoredPeriod>, toRemove: set<string>)
    ensures forall p :: p in KeepUnselected(ps, toRemove) <==> exists i :: KeptAt(ps, toRemove, i, p)
    decreases |ps|
  {
    if ps != [] {
      var n := |ps| - 1;
      var prefix := ps[..n];
      KeepUnselectedMembers(prefix, toRemove);
      var tail := if DecimalString(n) in toRemove then [] else [ps[n]];
      assert KeepUnselected(ps, toRemove) == KeepUnselected(prefix, toRemove) + tail;
      forall p
        ensures p in KeepUnselected(ps, toRemove) <==> exists i :: KeptAt(ps, toRemove, i, p)
      {
        if i :| KeptAt(ps, toRemove, i, p) {
          if i < n {
            assert KeptAt(prefix, toRemove, i, p);
          } else {
            assert p in tail;
          }
        }
        if p in tail {
          assert KeptAt(ps, toRemove, n, p);
        }
        if p in KeepUnselected(prefix, toRemove) {
          var i :| KeptAt(prefix, toRemove, i, p);
          assert KeptAt(ps, toRemove, i, p);
        }
      }
    }
  }

  /** A selection that names no index of the list keeps the whole list, in order. */
  /** The indices `i` of `ps` whose `str(i)` the selection does not name. */
  ghost function UnselectedIndices(ps: seq<StoredPeriod>, toRemove: set<string>): set<int> {
    set i | 0 <= i < |ps| && DecimalString(i) !in toRemove
  }

  /**
   * `ks` lists the members of `keep` in increasing order, and `r` holds the
   * periods at those indices, in that order.
   */
  ghost predicate IndexedBy(ps: seq<StoredPeriod>, keep: set<int>, ks: seq<int>, r: seq<StoredPeriod>) {
    && |ks| == |r|
    && (forall j | 0 <= j < |ks| :: 0 <= ks[j] < |ps| && r[j] == ps[ks[j]])
    && (forall j, j' | 0 <= j < j' < |ks| :: ks[j] < ks[j'])
    && (forall i :: i in ks <==> i in keep)
  }

  /** `r` is the subsequence of `ps` at exactly the indices the selection does not name. */
  ghost predicate KeptIndexing(ps: seq<StoredPeriod>, toRemove: set<string>, ks: seq<int>, r: seq<StoredPeriod>) {
    IndexedBy(ps, UnselectedIndices(ps, toRemove), ks, r)
  }

  /** Dropping the last index: the unselected indices of the shorter list, plus the last one when it is kept. */
  lemma UnselectedIndicesStep(ps: seq<StoredPeriod>, toRemove: set<string>)
    requires ps != []
    ensures UnselectedIndices(ps, toRemove) ==
      UnselectedIndices(ps[..|ps| - 1], toRemove) + (if DecimalString(|ps| - 1) in toRemove then {} else {|ps| - 1})
  {
  }

  /** An index outside `keep` adds nothing to the indexing of the shorter list. */
  lemma IndexedBySkip(ps: seq<StoredPeriod>, keep: set<int>, ks: seq<int>, r: seq<StoredPeriod>)
    requires ps != []
    requires IndexedBy(ps[..|ps| - 1], keep, ks, r)
    ensures IndexedBy(ps, keep, ks, r)
  {
    forall j | 0 <= j < |ks|
      ensures 0 <= ks[j] < |ps| && r[j] == ps[ks[j]]
    {
      assert ps[..|ps| - 1][ks[j]] == ps[ks[j]];
    }
  }

  /** A kept last index extends the indexing by that index and its period. */
  lemma IndexedByKeep(ps: seq<StoredPeriod>, keep: set<int>, ks: seq<int>, r: seq<StoredPeriod>)
    requires ps != []
    requires IndexedBy(ps[..|ps| - 1], keep, ks, r)
    ensures IndexedBy(ps, keep + {|ps| - 1}, ks + [|ps| - 1], r + [ps[|ps| - 1]])
  {
    var n := |ps| - 1;
    var ks', r' := ks + [n], r + [ps[n]];
    forall j | 0 <= j < |ks'|
      ensures 0 <= ks'[j] < |ps| && r'[j] == ps[ks'[j]]
    {
      if j < |ks| {
        assert ps[..n][ks[j]] == ps[ks[j]];
      }
    }
    forall j, j' | 0 <= j < j' < |ks'|
      ensures ks'[j] < ks'[j']
    {
      if j' == |ks| {
        assert ks'[j] == ks[j] < n;
      }
    }
    forall i
      ensures i in ks' <==> i in keep + {n}
    {
      assert i in ks' <==> i in ks || i == n;
    }
  }

  /**
   * The delete step keeps exactly the unselected periods, in their original
   * order and with their multiplicity: the result is the subsequence of the
   * list at the unselected indices.
   */
  lemma {:induction false} KeepUnselectedIndices(ps: seq<StoredPeriod>, toRemove: set<string>)
    ensures exists ks :: KeptIndexing(ps, toRemove, ks, KeepUnselected(ps, toRemove))
    decreases |ps|
  {
    if ps == [] {
      assert UnselectedIndices(ps, toRemove) == {};
      assert KeptIndexing(ps, toRemove, [], KeepUnselected(ps, toRemove));
    } else {
      var n := |ps| - 1;
      var prefix := ps[..n];
      KeepUnselectedIndices(prefix, toRemove);
      var ks :| KeptIndexing(prefix, toRemove, ks, KeepUnselected(prefix, toRemove));
      UnselectedIndicesStep(ps, toRemove);
      if DecimalString(n) in toRemove {
        IndexedBySkip(ps, UnselectedIndices(prefix, toRemove), ks, KeepUnselected(prefix, toRemove));
        assert KeptIndexing(ps, toRemove, ks, KeepUnselected(ps, toRemove));
      } else {
        IndexedByKeep(ps, UnselectedIndices(prefix, toRemove), ks, KeepUnselected(prefix, toRemove));
        assert KeptIndexing(ps, toRemove, ks + [n], KeepUnselected(ps, toRemove));
      }
    }
  }

  lemma {:induction false} KeepUnselectedNoneSelected(ps: seq<StoredPeriod>, toRemove: set<string>)
    requires forall i | 0 <= i < |ps| :: DecimalString(i) !in toRemove
    ensures KeepUnselected(ps, toRemove) == ps
    decreases |ps|
  {
    if ps != [] {
      var n := |ps| - 1;
      KeepUnselectedNoneSelected(ps[..n], toRemove);
      assert ps[..n] + [ps[n]] == ps;
    }
  }

  // ---------------------------------------------------------------------------
  // Restarts

  /** `m.get("total_weeks", 4)`. */
  function TotalWeeksOf(m: StoredMenu): int {
    match m.totalWeeks case Some(w) => w case None => DefaultTotalWeeks
  }

  /** `max((m.get("total_weeks", 4) for m in menus.values()), default=4)`. */
  method MaxWeeks(menus: map<string, StoredMenu>) returns (r: int)
    ensures menus == map[] ==> r == DefaultTotalWeeks
    ensures forall k | k in menus :: TotalWeeksOf(menus[k]) <= r
    ensures menus != map[] ==> exists k :: k in menus && TotalWeeksOf(menus[k]) == r
  {
    var todo := menus.Keys;
    var found := false;
    r := DefaultTotalWeeks;
    while todo != {}
      invariant todo <= menus.Keys
      invariant found <==> todo != menus.Keys
      invariant !found ==> r == DefaultTotalWeeks
      invariant forall k | k in menus && k !in todo :: TotalWeeksOf(menus[k]) <= r
      invariant found ==> exists k :: k in menus && k !in todo && TotalWeeksOf(menus[k]) == r
      decreases todo
    {
      var k :| k in todo;
      var w := TotalWeeksOf(menus[k]);
      if !found || w > r {
        r := w;
      }
      found := true;
      todo := todo - {k};
    }
    if menus != map[] {
      var k :| k in menus;
    }
  }

  /**
   * The errors of `async_step_add_restart`: an unparsable date, a week outside
   * 1..max_weeks, and, only when both are fine, a date string already present.
   */
  function RestartErrors(restarts: map<string, int>, dateText: string, parsed: DateText, week: int, maxWeeks: int): (r: map<string, string>)
    ensures r == map[] <==> parsed.Iso? && 1 <= week <= maxWeeks && dateText !in restarts
    ensures RestartWeekKey in r <==> week < 1 || week > maxWeeks
    ensures RestartWeekKey in r ==> r[RestartWeekKey] == InvalidWeek
    ensures parsed.NotIso? ==> RestartDateKey in r && r[RestartDateKey] == InvalidDate
    ensures parsed.Iso? ==> (RestartDateKey in r <==> 1 <= week <= maxWeeks && dateText in restarts)
    ensures parsed.Iso? && RestartDateKey in r ==> r[RestartDateKey] == RestartAlreadyConfigured
    ensures r.Keys <= {RestartDateKey, RestartWeekKey}
  {
    var weekOk := 1 <= week <= maxWeeks;
    if parsed.NotIso? && !weekOk then map[RestartDateKey := InvalidDate, RestartWeekKey := InvalidWeek]
    else if parsed.NotIso? then map[RestartDateKey := InvalidDate]
    else if !weekOk then
      var r := map[RestartWeekKey := InvalidWeek];
      assert RestartWeekKey in r;
      r
    else if dateText in restarts then map[RestartDateKey := RestartAlreadyConfigured]
    else map[]
  }

  /** The delete step's filter: `{d: w for d, w in restarts.items() if d not in to_remove}`. */
  function RestartsWithout(restarts: map<string, int>, toRemove: set<string>): (r: map<string, int>)
    ensures r.Keys == restarts.Keys - toRemove
    ensures forall k | k in r :: r[k] == restarts[k]
  {
    map k | k in restarts && k !in toRemove :: restarts[k]
  }

  /** Deleting a restart that was just added gives back the restarts before the addition. */
  lemma AddThenDeleteRestart(restarts: map<string, int>, dateText: string, week: int)
    requires dateText !in restarts
    ensures RestartsWithout(restarts[dateText := week], {dateText}) == restarts
  {
    var r := RestartsWithout(restarts[dateText := week], {dateText});
    assert r.Keys == restarts.Keys;
  }

  // ---------------------------------------------------------------------------
  // The options store

  /** The stored configuration the options steps edit in place. */
  class OptionsStore {
    var closurePeriods: seq<StoredPeriod>
    var restarts: map<string, int>
    var menus: map<string, StoredMenu>

    constructor(closurePeriods: seq<StoredPeriod>, restarts: map<string, int>, menus: map<string, StoredMenu>)
      ensures this.closurePeriods == closurePeriods && this.restarts == restarts && this.menus == menus
    {
      this.closurePeriods := closurePeriods;
      this.restarts := restarts;
      this.menus := menus;
    }

    /**
     * `async_step_add_closure_period`: field errors first, then the overlap scan;
     * a clear scan appends the new period and leaves everything else alone.
     */
    method AddClosurePeriod(start: DateText, end: DateText) returns (outcome: StepOutcome)
      modifies this
      ensures restarts == old(restarts) && menus == old(menus)
      ensures ClosureFieldErrors(start, end) != map[] ==>
        outcome == Rejected(ClosureFieldErrors(start, end)) && closurePeriods == old(closurePeriods)
      ensures ClosureFieldErrors(start, end) == map[] ==>
        match ScanPeriods(old(closurePeriods), start.date, end.date)
        case Clear =>
          outcome == Saved && closurePeriods == old(closurePeriods) + [StoredPeriod(Some(start), Some(end))]
        case Overlap =>
          outcome == Rejected(map[BaseKey := Overlapping]) && closurePeriods == old(closurePeriods)
        case Unreadable =>
          outcome == Raised && closurePeriods == old(closurePeriods)
    {
      var errors := ClosureFieldErrors(start, end);
      if errors != map[] {
        return Rejected(errors);
      }
      var scan := ScanStoredPeriods(closurePeriods, start.date, end.date);
      match scan
      case Unreadable =>
        outcome := Raised;
      case Overlap =>
        outcome := Rejected(map[BaseKey := Overlapping]);
      case Clear =>
        closurePeriods := closurePeriods + [StoredPeriod(Some(start), Some(end))];
        outcome := Saved;
    }

    /** `async_step_delete_closure` on submit. */
    method DeleteClosure(toRemove: set<string>) returns (outcome: StepOutcome)
      modifies this
      ensures restarts == old(restarts) && menus == old(menus)
      ensures old(closurePeriods) == [] ==> outcome == Aborted(NoClosures) && closurePeriods == old(closurePeriods)
      ensures old(closurePeriods) != [] && toRemove == {} ==>
        outcome == Aborted(NoSelection) && closurePeriods == old(closurePeriods)
      ensures old(closurePeriods) != [] && toRemove != {} ==>
        outcome == Saved && closurePeriods == KeepUnselected(old(closurePeriods), toRemove)
      ensures old(closurePeriods) != [] && toRemove != {} ==>
        exists ks :: KeptIndexing(old(closurePeriods), toRemove, ks, closurePeriods)
    {
      if closurePeriods == [] {
        return Aborted(NoClosures);
      }
      if toRemove == {} {
        return Aborted(NoSelection);
      }
      KeepUnselectedIndices(closurePeriods, toRemove);
      closurePeriods := KeepUnselected(closurePeriods, toRemove);
      outcome := Saved;
    }

    /**
     * `async_step_add_restart`: `max_weeks` over the stored menus bounds the
     * week; with no error the date string is mapped to the week.
     */
    method AddRestart(dateText: string, parsed: DateText, week: int) returns (outcome: StepOutcome)
      modifies this
      ensures closurePeriods == old(closurePeriods) && menus == old(menus)
      ensures exists maxWeeks ::
        && (forall k | k in menus :: TotalWeeksOf(menus[k]) <= maxWeeks)
        && (menus == map[] ==> maxWeeks == DefaultTotalWeeks)
        && (menus != map[] ==> exists k :: k in menus && TotalWeeksOf(menus[k]) == maxWeeks)
        && var errors := RestartErrors(old(restarts), dateText, parsed, week, maxWeeks);
           if errors == map[] then outcome == Saved && restarts == old(restarts)[dateText := week]
           else outcome == Rejected(errors) && restarts == old(restarts)
    {
      var maxWeeks := MaxWeeks(menus);
      var errors := RestartErrors(restarts, dateText, parsed, week, maxWeeks);
      if errors == map[] {
        restarts := restarts[dateText := week];
        outcome := Saved;
      } else {
        outcome := Rejected(errors);
      }
    }

    /** `async_step_delete_restart` on submit. */
    method DeleteRestart(toRemove: set<string>) returns (outcome: StepOutcome)
      modifies this
      ensures closurePeriods == old(closurePeriods) && menus == old(menus)
      ensures old(restarts) == map[] ==> outcome == Aborted(NoRestarts) && restarts == old(restarts)
      ensures old(restarts) != map[] && toRemove == {} ==> outcome == Aborted(NoSelection) && restarts == old(restarts)
      ensures old(restarts) != map[] && toRemove != {} ==>
        outcome == Saved && restarts == RestartsWithout(old(restarts), toRemove)
    {
      if restarts == map[] {
        return Aborted(NoRestarts);
      }
      if toRemove == {} {
        return Aborted(NoSelection);
      }
      restarts := RestartsWithout(restarts, toRemove);
      outcome := Saved;
    }
  }

  // ---------------------------------------------------------------------------
  // The upload step

  /** The fields of the setup flow that the upload step reads and writes. */
  datatype FlowState = FlowState(startWeek: int, menuData: MenuData, totalWeeks: int)

  /** How the upload step ends: the entry is created with a menu table and week count, or the form comes back. */
  datatype UploadResult = Created(menuData: MenuData, totalWeeks: int) | UploadRejected(errors: map<string, string>)

  /**
   * `async_step_upload` as written: a successful parse is assigned to the flow's
   * fields before it is checked, and empty content skips parsing altogether, so
   * the entry is created from whatever the fields hold.
   */
  ghost function UploadAsWritten(st: FlowState, rows: seq<Row>): (r: (FlowState, UploadResult))
    ensures r.0.startWeek == st.startWeek
    ensures rows == [] ==> r.0 == st
    ensures r.1.Created? ==> r.1.menuData == r.0.menuData && r.1.totalWeeks == r.0.totalWeeks
  {
    if rows == [] then (st, Created(st.menuData, st.totalWeeks))
    else match CsvMenuOf(rows)
      case Err(_) => (st, UploadRejected(map[MenuCsvKey := InvalidCsv]))
      case Ok(parsed) =>
        var st' := FlowState(st.startWeek, parsed.menuData, parsed.totalWeeks);
        if parsed.menuData == map[] then (st', UploadRejected(map[MenuCsvKey := InvalidCsv]))
        else if st.startWeek > parsed.totalWeeks then (st', UploadRejected(map[MenuCsvKey := StartWeekExceedsTotal]))
        else (st', Created(parsed.menuData, parsed.totalWeeks))
  }

  /** A small CSV whose only menu week is week 1. */
  function OneWeekCsv(): seq<Row> {
    [AnchorColumns, ["1", "1", "Pasta", "Fish", "Salad", "Apple"]]
  }

  /** The data row of the one-week CSV is stored under week 1, day 1. */
  lemma OneWeekRowAccepted(l: Layout, row: Row)
    requires l == Layout(AnchorColumns, 0, 1, 2, 3, 4, 5)
    requires row == OneWeekCsv()[1]
    ensures l.Valid()
    ensures ClassifyRow(l, row).Accepted? && ClassifyRow(l, row).week == 1
  {
    var one := row[0];
    assert one == row[1] == "1";
    StripUnchanged(one);
    assert AllDigits(one) && one[..0] == [];
    assert ParseInt(one) == Some(1);
    assert !IsBlankRow(row) by {
      assert Strip(row[0]) != "";
    }
  }

  /** A file with a single accepted row stores it, and its week is the largest seen. */
  lemma SingleAcceptedRow(l: Layout, row: Row)
    requires l.Valid()
    requires ClassifyRow(l, row).Accepted? && ClassifyRow(l, row).week >= 1
    ensures FoldVerdicts(Verdicts(l, [row])).menuData != map[]
    ensures FoldVerdicts(Verdicts(l, [row])).maxWeek == ClassifyRow(l, row).week
  {
    var v := ClassifyRow(l, row);
    var vs := Verdicts(l, [row]);
    assert vs == [v];
    assert vs[..0] == [];
    assert FoldVerdicts(vs) == Apply(ParseState(map[], 0), v);
  }

  /** The one-week CSV parses to a non-empty table with `total_weeks == 1`. */
  lemma OneWeekCsvParses(rows: seq<Row>)
    requires rows == OneWeekCsv()
    ensures CsvMenuOf(rows).Ok?
    ensures CsvMenuOf(rows).value.menuData != map[]
    ensures CsvMenuOf(rows).value.totalWeeks == 1
  {
    CanonicalHeader();
    var l := Layout(AnchorColumns, 0, 1, 2, 3, 4, 5);
    var row := rows[1];
    assert rows[1..] == [row];
    assert rows[0] == AnchorColumns;
    OneWeekRowAccepted(l, row);
    SingleAcceptedRow(l, row);
  }

  /**
   * As written, a rejected upload leaves its table in the flow: starting at week
   * 2, a one-week CSV is refused, and then an empty submission creates the entry
   * with that one-week table although week 2 exceeds it.
   */
  lemma StaleTableAfterRejectedUpload()
    ensures var st0 := FlowState(2, map[], DefaultTotalWeeks);
            var (st1, first) := UploadAsWritten(st0, OneWeekCsv());
            var (_, second) := UploadAsWritten(st1, []);
            && first == UploadRejected(map[MenuCsvKey := StartWeekExceedsTotal])
            && second.Created? && second.menuData != map[] && st0.startWeek > second.totalWeeks
  {
    OneWeekCsvParses(OneWeekCsv());
  }

  /** The flow after the user step: the start week entered and the initial menu table. */
  function InitialFlow(startWeek: int): FlowState {
    FlowState(startWeek, map[], DefaultTotalWeeks)
  }

  /**
   * `async_step_upload` as evidently intended: the parse result is kept only
   * when the upload is accepted, so the entry is created either from this
   * submission's table or, for an empty submission, from the initial one.
   */
  ghost function Upload(st: FlowState, rows: seq<Row>): (r: (FlowState, UploadResult))
    ensures r.0.startWeek == st.startWeek
    ensures r.1.UploadRejected? ==> r.0 == st
    ensures r.1.Created? ==> r.1.menuData == r.0.menuData && r.1.totalWeeks == r.0.totalWeeks
    ensures r.1.Created? && rows != [] ==> r.1.menuData != map[] && st.startWeek <= r.1.totalWeeks
  {
    if rows == [] then (st, Created(st.menuData, st.totalWeeks))
    else match CsvMenuOf(rows)
      case Err(_) => (st, UploadRejected(map[MenuCsvKey := InvalidCsv]))
      case Ok(parsed) =>
        if parsed.menuData == map[] then (st, UploadRejected(map[MenuCsvKey := InvalidCsv]))
        else if st.startWeek > parsed.totalWeeks then (st, UploadRejected(map[MenuCsvKey := StartWeekExceedsTotal]))
        else (FlowState(st.startWeek, parsed.menuData, parsed.totalWeeks), Created(parsed.menuData, parsed.totalWeeks))
  }

  /**
   * Whatever sequence of uploads precedes it, an entry is created either from
   * the initial empty table, or from a parsed table that is non-empty and
   * whose week count covers the start week.
   */
  lemma {:induction false} UploadCreatesCheckedTable(startWeek: int, earlier: seq<seq<Row>>, rows: seq<Row>)
    ensures var st := UploadsFrom(InitialFlow(startWeek), earlier);
            Upload(st, rows).1.Created? ==>
              || (Upload(st, rows).1.menuData == map[] && Upload(st, rows).1.totalWeeks == DefaultTotalWeeks)
              || (Upload(st, rows).1.menuData != map[] && startWeek <= Upload(st, rows).1.totalWeeks)
  {
    UploadsKeepChecked(startWeek, earlier);
  }

  /** The flow state after a series of upload submissions. */
  ghost function UploadsFrom(st: FlowState, submissions: seq<seq<Row>>): FlowState
    decreases |submissions|
  {
    if submissions == [] then st
    else Upload(UploadsFrom(st, submissions[..|submissions| - 1]), submissions[|submissions| - 1]).0
  }

  /** The fields the corrected step keeps: the start week, and an initial or accepted table. */
  lemma {:induction false} UploadsKeepChecked(startWeek: int, submissions: seq<seq<Row>>)
    ensures var st := UploadsFrom(InitialFlow(startWeek), submissions);
            && st.startWeek == startWeek
            && ((st.menuData == map[] && st.totalWeeks == DefaultTotalWeeks) ||
                (st.menuData != map[] && startWeek <= st.totalWeeks))
    decreases |submissions|
  {
    if submissions != [] {
      UploadsKeepChecked(startWeek, submissions[..|submissions| - 1]);
    }
  }

  /** The setup flow's fields, updated in place by its steps. */
  class SetupFlow {
    var startWeek: int
    var menuData: MenuData
    var totalWeeks: int

    /** `__init__` followed by the user step's accepted start week. */
    constructor(startWeek: int)
      ensures FlowState(this.startWeek, menuData, totalWeeks) == InitialFlow(startWeek)
    {
      this.startWeek := startWeek;
      menuData := map[];
      totalWeeks := DefaultTotalWeeks;
    }

    /** The upload step, with the parsed table kept only when it is accepted. */
    method SubmitUpload(rows: seq<Row>) returns (result: UploadResult)
      modifies this
      ensures (FlowState(startWeek, menuData, totalWeeks), result) == Upload(old(FlowState(startWeek, menuData, totalWeeks)), rows)
    {
      if rows == [] {
        return Created(menuData, totalWeeks);
      }
      var parsed := ParseCsvMenu(rows);
      if parsed.Err? {
        return UploadRejected(map[MenuCsvKey := InvalidCsv]);
      }
      if parsed.value.menuData == map[] {
        return UploadRejected(map[MenuCsvKey := InvalidCsv]);
      }
      if startWeek > parsed.value.totalWeeks {
        return UploadRejected(map[MenuCsvKey := StartWeekExceedsTotal]);
      }
      menuData, totalWeeks := parsed.value.menuData, parsed.value.totalWeeks;
      result := Created(menuData, totalWeeks);
    }
  }
}
