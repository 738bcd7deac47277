# School canteen menu: a Dafny model of menu ingestion and day resolution

This project models the core of the `school_canteen_menu` Home Assistant
integration in Dafny and proves properties of the model. The integration
publishes a rotating school-canteen menu. The model covers four parts:

- **CSV menu ingestion** (`parse_csv_menu`). The header must hold six anchor
  columns in order. Columns between two anchors become attributes of the
  anchor before them. Malformed rows are skipped. Accepted rows fill a
  `week -> day -> record` table, where a later row for a cell wins. The result
  also carries the number of weeks in the cycle.
- **The configuration edits of the options flow.** These cover adding a
  closure period (with the overlap check), deleting closure periods, adding
  a restart (with the week bound taken over all menus), deleting restarts,
  and the start-week check of the setup flow's upload step.
- **The coordinator.** It loads menus, closure periods and restarts into its
  fields. For any date it then resolves whether the school is closed, which
  menu governs, the week of the rotation, the next open day, and the day
  record that sensors publish.
- **The value models and constant tables**: meal dicts, day records, menu
  configuration, closure periods, and the weekday and day-number tables.

Dates are Python ordinals (`date.toordinal()`), so `weekday(d) == (d + 6) % 7`.
A stored ISO date string is modelled by what `date.fromisoformat` makes of it:
`DateText` is `Iso(date)` or `NotIso`. The input of the CSV parser is the
sequence of already-split rows.

Files:

- `wrappers.dfy`: `Option` and `Result`.
- `calendar.dfy`: ordinals, weekdays and the Monday of a week.
- `constants.dfy`: `const.py`.
- `models.dfy`: `models.py`.
- `csv_menu.dfy`: `parse_csv_menu`. `ParseCsvMenu` and its row and attribute
  loops are methods. Each is proved equal to a fold over per-row verdicts,
  and the properties are proved about that fold.
- `config_edits.dfy`: the options-flow steps. They work on the `OptionsStore`
  class, whose fields are the stored closure periods, restarts and menus. The
  upload step works on the `SetupFlow` class.
- `resolution.dfy`: what the coordinator computes for a date, as functions
  over a `Schedule` value, with its properties.
- `coordinator.dfy`: the `Coordinator` class. Its loading methods update the
  fields in place. Its resolver methods are loops proved equal to the
  definitions in `Resolution`.

Two behaviours of the code worth knowing when reading the examples:

- The closure period 2024-12-23..2024-12-27 contains neither 2024-12-22 nor
  2024-12-28 (`Resolution.ClosureExample`). Those two dates are a Sunday and a
  Saturday, so the weekend rule of `_is_closed` (coordinator.py:122) reports
  them closed anyway.
- The upload step skips parsing when the submitted content is empty
  (config_flow.py:288) and then creates the entry from the flow's current
  table.

## Model

| member | source | states |
|---|---|---|
| Calendar.Weekday | custom_components/school_canteen_menu/coordinator.py:122 | the weekday lies in 0..6, and 0 (Monday) exactly for ordinals ≡ 1 mod 7 |
| Calendar.MondayOf | custom_components/school_canteen_menu/coordinator.py:158-160 | `d - timedelta(days=d.weekday())` is a Monday no later than `d` and less than a week before it |
| Calendar.MondayShifts | custom_components/school_canteen_menu/coordinator.py:158-163 | moving a date by k weeks keeps its weekday and moves its Monday by k weeks |
| Calendar.SameMondayWithinWeek | custom_components/school_canteen_menu/coordinator.py:158-160 | every day from a Monday to the next Sunday has that Monday |
| Constants.Invert | custom_components/school_canteen_menu/const.py:41 | inverting an injective table maps each value back to its key, with keys and values swapped |
| Constants.WeekdayToCsvShifts | custom_components/school_canteen_menu/const.py:30-38 | `WEEKDAY_TO_CSV` is defined exactly on 0..6 and maps w to w+1 |
| Constants.CsvToWeekdayIsInverse | custom_components/school_canteen_menu/const.py:41 | `CSV_TO_WEEKDAY` is defined exactly on 1..7 and undoes `WEEKDAY_TO_CSV` both ways |
| Constants.WeekdayNamesCoverWeek | custom_components/school_canteen_menu/const.py:44-52 | `WEEKDAY_NAMES` is defined for every day number 1..7, with 6 and 7 Saturday and Sunday |
| Constants.AnchorColumnsDistinct | custom_components/school_canteen_menu/const.py:22-27 | the six anchor column names are pairwise distinct |
| Models.MealFromDict | custom_components/school_canteen_menu/models.py:28-40 | `None` for a missing or empty dict; otherwise `value` is `data["value"]` (or `None`), and `attributes` holds every other key, or is `None` when there is none |
| Models.MealToDict | custom_components/school_canteen_menu/models.py:42-49 | `None` exactly for a missing or empty value; otherwise the keys are "value" plus the attribute names, and attributes override "value" |
| Models.MealDictRoundTrip | custom_components/school_canteen_menu/models.py:28-49 | for a dict with a non-empty "value", `to_dict(from_dict(d)) == d` |
| Models.MealDataRoundTrip | custom_components/school_canteen_menu/models.py:28-49 | a meal with a non-empty value and non-empty attributes without a "value" key survives `from_dict(to_dict(m))` |
| Models.DayMenuData.ToDict | custom_components/school_canteen_menu/models.py:68-82 | every scalar field is copied, and each meal slot is that slot's `to_dict`, or `None` when the slot is empty |
| Models.DayMenuData.GetMealData | custom_components/school_canteen_menu/models.py:84-85 | each of the four meal slots reads its own field (the meal type is a `MealSlot`; see Left out) |
| Models.MealDictOf | custom_components/school_canteen_menu/models.py:78-81 | a serialised slot is present exactly when the slot holds a meal with a non-empty value, and then its keys are "value" plus the meal's attribute names; `ToDictMealsAgree` relates it to `get_meal_data` |
| Models.ToDictMealsAgree | custom_components/school_canteen_menu/models.py:78-85 | a serialised slot is present only when `get_meal_data` of that slot is, and it is present when that meal has a non-empty value |
| Models.MenuFromConfig | custom_components/school_canteen_menu/models.py:99-107 | it fails exactly on a missing or unparsable effective date; `total_weeks` defaults to 4 and `menu_data` to `{}`, and the other fields are copied |
| Models.ClosureFromDict | custom_components/school_canteen_menu/models.py:118-127 | a period exactly when both ends are present and parse, with those dates; start ≤ end is not enforced |
| Models.ClosurePeriod.Contains | custom_components/school_canteen_menu/models.py:129-131 | a date is in the period exactly when it lies between the two ends, both included; `PeriodBoundsInclusive` and `InvertedPeriodIsEmpty` state its consequences |
| Models.PeriodBoundsInclusive | custom_components/school_canteen_menu/models.py:129-131 | a period contains both of its ends and neither neighbouring day |
| Models.InvertedPeriodIsEmpty | custom_components/school_canteen_menu/models.py:118-131 | a period with start > end contains no date |
| CsvMenu.TrimStartDrops | custom_components/school_canteen_menu/config_flow.py:102 | the left trim removes only whitespace, and what remains starts with a non-space or is empty |
| CsvMenu.TrimEndDrops | custom_components/school_canteen_menu/config_flow.py:102 | the right trim removes only whitespace, and what remains ends with a non-space or is empty |
| CsvMenu.Strip | custom_components/school_canteen_menu/config_flow.py:137 | `str.strip()` never lengthens a cell; `StripBlank` and the two trim lemmas state that exactly the leading and trailing whitespace is removed |
| CsvMenu.StripBlank | custom_components/school_canteen_menu/config_flow.py:137 | `s.strip()` is empty exactly when every character of `s` is whitespace |
| CsvMenu.Lower | custom_components/school_canteen_menu/config_flow.py:102 | lower-casing keeps the length, leaves no ASCII capital in the result, changes no other character, and maps each capital to the small letter 32 code points above it; `LowerUnchanged` states that lower-case text is a fixed point |
| CsvMenu.LowerUnchanged | custom_components/school_canteen_menu/config_flow.py:102 | a string without ASCII capitals is its own `lower()` |
| CsvMenu.StripUnchanged | custom_components/school_canteen_menu/config_flow.py:102 | a string with non-space ends is its own `strip()` |
| CsvMenu.NormalizeHeader | custom_components/school_canteen_menu/config_flow.py:102 | the definition of `[h.strip().lower() for h in header]`; `NormalizedUnchanged` and `CanonicalHeader` state its meaning |
| CsvMenu.NormalizedUnchanged | custom_components/school_canteen_menu/config_flow.py:102 | a header of names already stripped and lower-case is its own normal form |
| CsvMenu.DecimalStringValue | custom_components/school_canteen_menu/config_flow.py:202-203 | `str(n)` is a non-empty digit string whose value is n |
| CsvMenu.ParseInt | custom_components/school_canteen_menu/config_flow.py:148-160 | `int()` succeeds exactly on a non-empty digit string or a sign followed by a non-empty digit string; a digit string gives its decimal value, `+` keeps it and `-` negates it, so a negative result needs a leading `-` |
| CsvMenu.DigitsValueLeadingZero | custom_components/school_canteen_menu/config_flow.py:148-160 | a leading zero leaves the value unchanged, so zero-padded cells such as "007" parse to the same number |
| CsvMenu.ParseIntOfDecimal | custom_components/school_canteen_menu/config_flow.py:148 | `int()` reads `str(n)` back as n |
| CsvMenu.IndexOf | custom_components/school_canteen_menu/config_flow.py:106-111 | `list.index` finds the first position of a name, and fails exactly when the name is absent |
| CsvMenu.FindAnchors | custom_components/school_canteen_menu/config_flow.py:105-113 | all six anchors are found exactly when each is present; on failure the error names the first anchor missing |
| CsvMenu.FindAnchorsOfDistinct | custom_components/school_canteen_menu/config_flow.py:105-113 | in a header without repeated names, looking up its own names finds each at its own position |
| CsvMenu.ParseHeader | custom_components/school_canteen_menu/config_flow.py:101-127 | an accepted header yields a valid layout on the normalised header, with anchors at their first occurrences |
| CsvMenu.ParseHeaderVerdict | custom_components/school_canteen_menu/config_flow.py:102-120 | accepted exactly when every anchor is present in strictly increasing order; a missing anchor gives the missing-column error naming the first missing one; any other rejection is the order error |
| CsvMenu.ChainIsOrder | custom_components/school_canteen_menu/config_flow.py:116 | the chained comparison `a < b < c < d < e < f` is the pairwise order of all six anchors |
| CsvMenu.CanonicalHeader | custom_components/school_canteen_menu/config_flow.py:102-120 | the header made of the six anchor names in order puts them at positions 0..5 |
| CsvMenu.AttrsOfKeys | custom_components/school_canteen_menu/config_flow.py:170-174 | an attribute name is present exactly when some column of that name has a non-empty stripped cell |
| CsvMenu.AttrsOfContents | custom_components/school_canteen_menu/config_flow.py:170-174 | each attribute holds the stripped cell of the last non-empty column of that name |
| CsvMenu.AttrsOf | custom_components/school_canteen_menu/config_flow.py:170-174 | the definition of the attribute map; `AttrsOfKeys`, `AttrsOfContents` and `ExtractAttributes` state its meaning |
| CsvMenu.CourseOf | custom_components/school_canteen_menu/config_flow.py:183-199 | the definition of `build_course_data`; `CourseOfShape` and `BuildCourseData` state its meaning |
| CsvMenu.RowEntry | custom_components/school_canteen_menu/config_flow.py:202-214 | the definition of the record an accepted row stores; `ClassifyRow`, `FoldLastWriter` and `CourseOfShape` state its meaning |
| CsvMenu.IsBlankRow | custom_components/school_canteen_menu/config_flow.py:136 | the definition of the blank-row test; `ClassifyRow` and `StripBlank` state its meaning |
| CsvMenu.CourseOfShape | custom_components/school_canteen_menu/config_flow.py:183-199 | a slot is `None` exactly when its stripped cell is empty; otherwise its keys are "value" plus the non-empty attribute names, with the cell as "value" unless an attribute column overrides it |
| CsvMenu.Store | custom_components/school_canteen_menu/config_flow.py:202-214 | storing a record sets that cell, adds the week if new, and changes no other cell |
| CsvMenu.Verdicts | custom_components/school_canteen_menu/config_flow.py:136-167 | one verdict per data row, in order |
| CsvMenu.FoldPrefixStep | custom_components/school_canteen_menu/config_flow.py:136-214 | one more row applies that row's verdict to the state of the loop |
| CsvMenu.FoldBounds | custom_components/school_canteen_menu/config_flow.py:147-167 | `max_week` is the largest week that passed the week check, counting rows whose day is then rejected, and 0 when there is none; stored weeks lie in 1..max_week and stored days in 1..7 |
| CsvMenu.ApplyKeys | custom_components/school_canteen_menu/config_flow.py:205-214 | one row adds at most its own (week, day) cell |
| CsvMenu.Apply | custom_components/school_canteen_menu/config_flow.py:135-214 | the definition of one pass of the row loop on its state; `ApplyKeys`, `FoldPrefixStep` and `ProcessRow` state its meaning |
| CsvMenu.FoldVerdicts | custom_components/school_canteen_menu/config_flow.py:135-214 | the definition of the row loop as a fold; `FoldKeys`, `FoldLastWriter`, `FoldBounds` and `ParseCsvMenu` state its meaning |
| CsvMenu.FoldKeys | custom_components/school_canteen_menu/config_flow.py:136-214 | a (week, day) cell is stored exactly when some row is accepted for it |
| CsvMenu.FoldWeeksInhabited | custom_components/school_canteen_menu/config_flow.py:205-208 | no week is stored without a day in it |
| CsvMenu.FoldLastWriter | custom_components/school_canteen_menu/config_flow.py:205-214 | a stored cell holds the record of the last row accepted for it |
| CsvMenu.SkippedRowContributesNothing | custom_components/school_canteen_menu/config_flow.py:137-167 | a skipped row (blank, too short, bad week or bad day) anywhere in the file leaves the table as if it were absent |
| CsvMenu.ClassifyRow | custom_components/school_canteen_menu/config_flow.py:137-167 | a row is blank exactly when every cell strips to empty, too short exactly when it is not blank and narrower than the last anchor; a bad-day or accepted row parsed its week as that verdict's week, an accepted one its day too and stores its `RowEntry`; every week that passes is ≥ 1 and every accepted day lies in 1..7 |
| CsvMenu.CsvMenuOutcome | custom_components/school_canteen_menu/config_flow.py:96-218 | an empty file fails; otherwise parsing succeeds exactly when the header is in order, and then `total_weeks ≥ 1` bounds every stored week, with every stored day in 1..7 |
| CsvMenu.CsvMenuOf | custom_components/school_canteen_menu/config_flow.py:74-218 | the reference definition of `parse_csv_menu` as a fold over the row verdicts; `CsvMenuOutcome`, `FoldKeys`, `FoldLastWriter` and `FoldBounds` state its meaning |
| CsvMenu.ExtractAttributes | custom_components/school_canteen_menu/config_flow.py:170-174 | the attribute loop builds the attribute map |
| CsvMenu.BuildCourseData | custom_components/school_canteen_menu/config_flow.py:183-193 | `build_course_data` builds the meal dict of a slot |
| CsvMenu.ProcessRow | custom_components/school_canteen_menu/config_flow.py:137-214 | one pass of the row loop applies that row's verdict to the table and to `max_week` |
| CsvMenu.ParseCsvMenu | custom_components/school_canteen_menu/config_flow.py:74-218 | the whole parse returns the fold of the row verdicts under the parsed header, which has all the properties above |
| ConfigEdits.Overlaps | custom_components/school_canteen_menu/config_flow.py:488 | the definition of the overlap test; `OverlapIsSharedDay` states its meaning |
| ConfigEdits.OverlapIsSharedDay | custom_components/school_canteen_menu/config_flow.py:488 | for well-formed periods, `not (end < s or start > e)` holds exactly when the two periods share a day |
| ConfigEdits.ClosureFieldErrors | custom_components/school_canteen_menu/config_flow.py:465-478 | each unparsable end gets `invalid_date`; with both parsed, `end_before_start` exactly when start > end; no error exactly when both parse in order |
| ConfigEdits.ScanPeriods | custom_components/school_canteen_menu/config_flow.py:482-490 | the definition of the overlap scan; `ScanPeriodsMeaning` and `ScanStoredPeriods` state its meaning |
| ConfigEdits.ScanPeriodsMeaning | custom_components/school_canteen_menu/config_flow.py:482-490 | the scan is clear exactly when every stored period parses and none overlaps; an overlap is reported only for one that does |
| ConfigEdits.ScanStoredPeriods | custom_components/school_canteen_menu/config_flow.py:482-490 | the loop with its early `break` computes the scan |
| ConfigEdits.AppendClearKeepsSeparated | custom_components/school_canteen_menu/config_flow.py:480-498 | appending a period after a clear scan keeps the stored periods pairwise disjoint |
| ConfigEdits.KeepUnselected | custom_components/school_canteen_menu/config_flow.py:523-526 | the filter never lengthens the list |
| ConfigEdits.KeepUnselectedMembers | custom_components/school_canteen_menu/config_flow.py:523-526 | a period stays exactly when some position holding it is not selected by `str(i)` |
| ConfigEdits.KeepUnselectedIndices | custom_components/school_canteen_menu/config_flow.py:523-526 | the kept list is exactly the subsequence of the stored periods at the indices `i` whose `str(i)` is not selected, in their original order and with repeated periods kept as often as they occur |
| ConfigEdits.KeepUnselectedNoneSelected | custom_components/school_canteen_menu/config_flow.py:523-526 | a selection that names no position keeps the list unchanged |
| ConfigEdits.TotalWeeksOf | custom_components/school_canteen_menu/config_flow.py:565-568 | the definition of `m.get("total_weeks", 4)`; `MaxWeeks` states its meaning |
| ConfigEdits.MaxWeeks | custom_components/school_canteen_menu/config_flow.py:565-568 | the bound is 4 without menus, and otherwise the largest `total_weeks` (default 4) over the menus |
| ConfigEdits.RestartErrors | custom_components/school_canteen_menu/config_flow.py:574-586 | no error exactly when the date parses, the week is in 1..max_weeks and the date is new; `invalid_week` exactly for an out-of-range week; `invalid_date` for an unparsable date; "already configured" only when all else is valid |
| ConfigEdits.RestartsWithout | custom_components/school_canteen_menu/config_flow.py:618-621 | exactly the unselected dates remain, each with its week |
| ConfigEdits.AddThenDeleteRestart | custom_components/school_canteen_menu/config_flow.py:589-590 | deleting a freshly added restart gives back the previous restarts |
| ConfigEdits.OptionsStore.constructor | custom_components/school_canteen_menu/config_flow.py:364-370 | the options flow works on the stored closure periods, restarts and menus as loaded |
| ConfigEdits.OptionsStore.AddClosurePeriod | custom_components/school_canteen_menu/config_flow.py:457-499 | field errors reject; otherwise an unreadable stored period raises, an overlap rejects with `closure_period_overlapping`, and a clear scan appends the period; restarts and menus are unchanged |
| ConfigEdits.OptionsStore.DeleteClosure | custom_components/school_canteen_menu/config_flow.py:512-530 | no periods aborts with `no_closures`; an empty selection aborts with `no_selection`; otherwise the unselected periods are kept |
| ConfigEdits.OptionsStore.AddRestart | custom_components/school_canteen_menu/config_flow.py:559-592 | with the bound from the menus, any restart error rejects and leaves the restarts; otherwise the date is added with its week |
| ConfigEdits.OptionsStore.DeleteRestart | custom_components/school_canteen_menu/config_flow.py:607-625 | no restarts aborts with `no_restarts`; an empty selection aborts with `no_selection`; otherwise exactly the unselected restarts are kept |
| ConfigEdits.OneWeekRowAccepted | custom_components/school_canteen_menu/config_flow.py:137-167 | the data row "1,1,Pasta,Fish,Salad,Apple" is accepted for week 1 |
| ConfigEdits.SingleAcceptedRow | custom_components/school_canteen_menu/config_flow.py:147-214 | a file with one accepted row stores it, and its week is `max_week` |
| ConfigEdits.OneWeekCsvParses | custom_components/school_canteen_menu/config_flow.py:74-218 | the one-week CSV parses to a non-empty table with `total_weeks == 1` |
| ConfigEdits.UploadAsWritten | custom_components/school_canteen_menu/config_flow.py:281-300 | as written, the entry is always created from the flow's fields after the step, the start week never changes, and an empty submission leaves the fields as they were, including a table an earlier submission was refused with |
| ConfigEdits.Upload | custom_components/school_canteen_menu/config_flow.py:281-300 | as intended, a refused submission leaves the flow's fields unchanged, and an entry created from a non-empty submission has a non-empty table whose week count covers the start week |
| ConfigEdits.StaleTableAfterRejectedUpload | custom_components/school_canteen_menu/config_flow.py:287-300 | as written, with start week 2 a one-week CSV is refused with `start_week_exceeds_total`, and a following empty submission creates the entry with that refused table |
| ConfigEdits.UploadsKeepChecked | custom_components/school_canteen_menu/config_flow.py:287-300 | with the parse kept only on acceptance, the flow's table is always the initial one or a non-empty one covering the start week |
| ConfigEdits.UploadCreatesCheckedTable | custom_components/school_canteen_menu/config_flow.py:287-315 | after any series of uploads, an entry is created only from the initial table or from a non-empty table whose week count covers the start week |
| ConfigEdits.SetupFlow.constructor | custom_components/school_canteen_menu/config_flow.py:226-233 | the flow starts with the entered start week, an empty table and 4 weeks |
| ConfigEdits.SetupFlow.SubmitUpload | custom_components/school_canteen_menu/config_flow.py:281-300 | the upload step, with the parse kept only when accepted, updates the flow's fields as the corrected step does |
| Resolution.InsertByDate | custom_components/school_canteen_menu/coordinator.py:86 | insertion adds one element and puts either it or the old first element first |
| Resolution.InsertByDatePermutes | custom_components/school_canteen_menu/coordinator.py:86 | insertion adds exactly the new menu to the multiset |
| Resolution.InsertByDateSorted | custom_components/school_canteen_menu/coordinator.py:86 | inserting into a sorted list keeps it sorted |
| Resolution.InsertByDateWithDate | custom_components/school_canteen_menu/coordinator.py:86 | the inserted menu goes after every menu of the same date |
| Resolution.SortByDate | custom_components/school_canteen_menu/coordinator.py:86 | the sort keeps the length |
| Resolution.SortByDateCorrect | custom_components/school_canteen_menu/coordinator.py:86 | the sort orders by effective date, is a permutation, and keeps menus of equal date in their original order |
| Resolution.LeadingUpTo | custom_components/school_canteen_menu/coordinator.py:112-117 | the leading run of menus in effect on d ends at the first menu taking effect later |
| Resolution.MenuFor | custom_components/school_canteen_menu/coordinator.py:110-118 | the chosen menu is one of the menus and is in effect on d |
| Resolution.MenuForSorted | custom_components/school_canteen_menu/coordinator.py:110-118 | over sorted menus: the last menu in effect on d, and none exactly when every menu takes effect later |
| Resolution.ClosedOn | custom_components/school_canteen_menu/coordinator.py:120-131 | the definition of `_is_closed`: a Saturday or Sunday, or a date inside some loaded closure period; `ClosureExample` and `DayNumberAndName` use it |
| Resolution.PyDiv | custom_components/school_canteen_menu/coordinator.py:167 | the definition of Python's `//`; `PyMod` states the division identity with it |
| Resolution.PyMod | custom_components/school_canteen_menu/coordinator.py:167 | Python's `%` takes the divisor's sign and satisfies `a == b * (a // b) + a % b` |
| Resolution.RemainderUnique | custom_components/school_canteen_menu/coordinator.py:167 | two remainders in the same range that differ by a multiple of the divisor are equal |
| Resolution.CycleWeek | custom_components/school_canteen_menu/coordinator.py:158-167 | with a positive cycle the week lies in 1..total_weeks, for dates before the anchor too |
| Resolution.ModSucc | custom_components/school_canteen_menu/coordinator.py:167 | `(x + 1) % t` follows `x % t`, wrapping from t-1 to 0 |
| Resolution.ModAddDivisor | custom_components/school_canteen_menu/coordinator.py:167 | `(x + t) % t == x % t` for either sign of t |
| Resolution.CycleWeekAdvances | custom_components/school_canteen_menu/coordinator.py:158-167 | from one Monday to the next the week advances by one, wrapping after the last |
| Resolution.CycleWeekPeriodic | custom_components/school_canteen_menu/coordinator.py:158-167 | dates 7·total_weeks days apart get the same week |
| Resolution.CycleWeekAtAnchor | custom_components/school_canteen_menu/coordinator.py:158-167 | in the anchor's own calendar week, an anchor week within the cycle is the week |
| Resolution.MaxOf | custom_components/school_canteen_menu/coordinator.py:146-150 | the greatest element of a set, none exactly for the empty set |
| Resolution.LatestRestart | custom_components/school_canteen_menu/coordinator.py:146-156 | the restart with the greatest date ≤ d; none exactly when every restart is later |
| Resolution.Anchor | custom_components/school_canteen_menu/coordinator.py:146-156 | the definition of the date and week the cycle counts from; `LaterRestartIrrelevant`, `RestartDateGetsItsWeek` and `CycleWeekAtAnchor` state its meaning |
| Resolution.WeekOn | custom_components/school_canteen_menu/coordinator.py:133-176 | the definition of `_get_current_week`: 1 without a governing menu, otherwise the cycle week from the latest restart on or before the date or else from the start date; `WeekInRange`, `LaterRestartIrrelevant`, `RestartDateGetsItsWeek`, `WeekConstantWithinCalendarWeek` and `WeekAdvancesOnMonday` state its meaning |
| Resolution.WeekInRange | custom_components/school_canteen_menu/coordinator.py:140-144 | week 1 when no menu governs d; otherwise within 1..menu.total_weeks |
| Resolution.LaterRestartIrrelevant | custom_components/school_canteen_menu/coordinator.py:146-156 | adding a restart dated after d changes neither the anchor nor the week of d |
| Resolution.RestartDateGetsItsWeek | custom_components/school_canteen_menu/coordinator.py:146-167 | on a restart's own date, a restart week within the cycle is the week |
| Resolution.WeekConstantWithinCalendarWeek | custom_components/school_canteen_menu/coordinator.py:158-167 | under the same menu and anchor, every day from Monday to Sunday has Monday's week |
| Resolution.WeekAdvancesOnMonday | custom_components/school_canteen_menu/coordinator.py:158-167 | under the same menu and anchor, the week advances by one on each Monday, wrapping to 1 |
| Resolution.FirstOpen | custom_components/school_canteen_menu/coordinator.py:229-233 | the definition of the forward search over n days; `FirstOpenMeaning` states its meaning |
| Resolution.FirstOpenMeaning | custom_components/school_canteen_menu/coordinator.py:229-234 | the search returns the first open day among n days, and none exactly when all n are closed |
| Resolution.NextValidDate | custom_components/school_canteen_menu/coordinator.py:224-234 | the definition of `_get_next_valid_date` as the 30-day forward search from the next day; `NextValidDateMeaning` states its meaning |
| Resolution.NextValidDateMeaning | custom_components/school_canteen_menu/coordinator.py:224-234 | the least d in from+1..from+30 that is not closed, so never a weekend and never from itself; none exactly when all 30 are closed |
| Resolution.ThreeDaysHoldAWeekday | custom_components/school_canteen_menu/coordinator.py:122 | of three consecutive days at least one is Monday to Friday |
| Resolution.NoPeriodsNextWithinThree | custom_components/school_canteen_menu/coordinator.py:224-234 | without closure periods the next open day is found within three days |
| Resolution.DayNumber | custom_components/school_canteen_menu/coordinator.py:187 | `WEEKDAY_TO_CSV[d.weekday()]` is weekday+1 |
| Resolution.DayName | custom_components/school_canteen_menu/coordinator.py:239 | the definition of `WEEKDAY_NAMES.get(day_number, "Unknown")`; `DayNumberAndName` states its meaning |
| Resolution.Lookup | custom_components/school_canteen_menu/coordinator.py:189-190 | the definition of the nested `.get`; `MissingEntryIsEmpty` (week or day absent) and `StoredEntryIsShown` (record present) state what a day shows in each case |
| Resolution.EntryOn | custom_components/school_canteen_menu/coordinator.py:178-215 | the definition of the stored record a day reads; `MissingEntryIsEmpty` and `StoredEntryIsShown` state its meaning |
| Resolution.DayAttrsOn | custom_components/school_canteen_menu/coordinator.py:178-195 | the definition of `_get_day_data`; `MissingEntryIsEmpty` and `StoredEntryIsShown` state its meaning |
| Resolution.MealOn | custom_components/school_canteen_menu/coordinator.py:197-215 | the definition of `_get_meal_for_date`; `MissingEntryIsEmpty` and `StoredEntryIsShown` state its meaning |
| Resolution.MenuNameOn | custom_components/school_canteen_menu/coordinator.py:217-222 | the governing menu's name (which may be `None`), or "Unknown" when no menu governs |
| Resolution.DayPlan | custom_components/school_canteen_menu/coordinator.py:236-262 | the definition of `_build_day_menu_data`; `ClosedDayIsEmpty`, `DayNumberAndName`, `MissingEntryIsEmpty` and `StoredEntryIsShown` state its meaning |
| Resolution.ClosedDayIsEmpty | custom_components/school_canteen_menu/coordinator.py:236-248 | a closed day has `day_attrs == {}` and all four meal slots `None` |
| Resolution.DayNumberAndName | custom_components/school_canteen_menu/coordinator.py:238-241 | `day_number == weekday+1`, with its name from `WEEKDAY_NAMES`, and days 6 and 7 are closed |
| Resolution.MissingEntryIsEmpty | custom_components/school_canteen_menu/coordinator.py:178-215 | an open day whose week or day is missing from the menu has empty attributes and no meals, and stays open |
| Resolution.StoredEntryIsShown | custom_components/school_canteen_menu/coordinator.py:178-215 | an open day with a stored record shows its attributes and each slot's `MealData.from_dict` |
| Resolution.UpdateOf | custom_components/school_canteen_menu/coordinator.py:264-283 | the definition of `_async_update_data`; `UpdateOfMeaning` states its meaning |
| Resolution.UpdateOfMeaning | custom_components/school_canteen_menu/coordinator.py:264-283 | the reported `total_weeks` is the governing menu's, or 4 without one; the next record is for an open day within 30 days after today |
| Resolution.MenuSelectionExample | custom_components/school_canteen_menu/coordinator.py:110-118 | with menus from 2024-01-01 and 2024-09-01, 2024-06-01 selects the first, 2024-10-15 the second, 2023-12-31 none |
| Resolution.SingleMenuWeek | custom_components/school_canteen_menu/coordinator.py:140-167 | with a single menu in effect, the week is the cycle week from the anchor |
| Resolution.RotationExample | custom_components/school_canteen_menu/coordinator.py:133-167 | start 2024-09-02, week 1 of 4: that day is week 1, 2024-09-09 week 2, 2024-10-21 week 4 |
| Resolution.RestartExample | custom_components/school_canteen_menu/coordinator.py:146-167 | with a restart to week 1 on 2024-11-04, 2024-11-11 is week 2 |
| Resolution.ClosureExample | custom_components/school_canteen_menu/coordinator.py:120-131 | the period 2024-12-23..2024-12-27 contains both ends and neither neighbour; the Monday 2024-12-23 is closed only because of it |
| Coordinator.Converted | custom_components/school_canteen_menu/coordinator.py:80-82 | the definition of the conversion loop of `_load_menus`, stopping at the first failing menu; `ConvertedMeaning` and `PrefixFailureStays` state its meaning |
| Coordinator.ConvertedMeaning | custom_components/school_canteen_menu/coordinator.py:80-82 | loading converts every stored menu in order exactly when each converts; otherwise it stops at the first failure with that error |
| Coordinator.PrefixFailureStays | custom_components/school_canteen_menu/coordinator.py:80-82 | once a conversion has failed, later menus are not converted |
| Coordinator.ReadPeriods | custom_components/school_canteen_menu/coordinator.py:94-100 | the definition of the period loop of `_load_options`; `ReadPeriodsMembers` states its meaning |
| Coordinator.ReadRestarts | custom_components/school_canteen_menu/coordinator.py:102-108 | the definition of the restart loop of `_load_options`; `ReadRestartsMeaning` states its meaning |
| Coordinator.ReadPeriodsMembers | custom_components/school_canteen_menu/coordinator.py:94-100 | the loaded periods are exactly those of the stored entries that parse |
| Coordinator.ReadRestartsMeaning | custom_components/school_canteen_menu/coordinator.py:102-108 | a date is a restart exactly when some stored item parses to it, and it holds the week of the last such item |
| Coordinator.Coordinator.constructor | custom_components/school_canteen_menu/coordinator.py:50-69 | the start date and week are those read from storage, and there are no menus, periods or restarts yet |
| Coordinator.Coordinator.LoadMenus | custom_components/school_canteen_menu/coordinator.py:77-86 | on success the menus are the converted ones sorted by date; on failure they are those converted before it; nothing else changes |
| Coordinator.Coordinator.LoadOptions | custom_components/school_canteen_menu/coordinator.py:88-108 | the periods and restarts are replaced by those read from storage; nothing else changes |
| Coordinator.Coordinator.GetMenuForDate | custom_components/school_canteen_menu/coordinator.py:110-118 | the loop with `break` returns the menu selection |
| Coordinator.Coordinator.IsClosed | custom_components/school_canteen_menu/coordinator.py:120-131 | true exactly on weekends and inside some closure period |
| Coordinator.Coordinator.LatestRestartOnOrBefore | custom_components/school_canteen_menu/coordinator.py:146-156 | the loop over restart dates returns the latest one on or before d |
| Coordinator.Coordinator.GetCurrentWeek | custom_components/school_canteen_menu/coordinator.py:133-176 | the week of the rotation for d |
| Coordinator.Coordinator.GetEntry | custom_components/school_canteen_menu/coordinator.py:178-193 | the stored record for an open day, if any |
| Coordinator.Coordinator.GetDayData | custom_components/school_canteen_menu/coordinator.py:178-195 | the day's attributes, `{}` when closed or missing |
| Coordinator.Coordinator.GetMealForDate | custom_components/school_canteen_menu/coordinator.py:197-215 | the slot's meal, `None` when closed or missing |
| Coordinator.Coordinator.GetMenuNameForDate | custom_components/school_canteen_menu/coordinator.py:217-222 | the governing menu's name, else "Unknown" |
| Coordinator.Coordinator.GetNextValidDate | custom_components/school_canteen_menu/coordinator.py:224-234 | the bounded forward search returns the next open day |
| Coordinator.Coordinator.BuildDayMenuData | custom_components/school_canteen_menu/coordinator.py:236-262 | the assembled day record |
| Coordinator.Coordinator.UpdateData | custom_components/school_canteen_menu/coordinator.py:264-283 | today's record, the next open day's record, and `total_weeks` with its fallback 4 |

The resolver methods of `Coordinator` are proved equal to the functions of
`Resolution`. The lemmas of `Resolution` state what those functions promise.

## Left out

- Models.DayMenuData.ToDict: the `date` field stays an ordinal. The ISO text that `date.isoformat()` produces is not modelled, because dates are ordinals throughout.
- Tokenisation of the CSV text by `csv.reader` (quoting and escaping) is left out, as a library call. The parser takes already-split rows.
- Python's `int()` on an already stripped cell is modelled as an optional sign followed by ASCII decimal digits. Digit-group underscores and non-ASCII digits are not modelled.
- `str.lower()` is modelled as folding only A-Z. Unicode case folding is not modelled. `str.strip()` removes the characters for which `str.isspace` holds.
- Menu tables are `map<int, map<int, DayEntry>>`, where Python keys them by the strings `str(week)` and `str(day)` (config_flow.py:202-214, read back at coordinator.py:189-190). A table is representable only when its keys are canonical decimal strings, which is what `parse_csv_menu` writes (`CsvMenu.ParseIntOfDecimal`). Stored tables with other keys, such as "01", are not modelled.
- `date.fromisoformat` is a library call. Its outcome on a stored string is an input (`DateText`). Restarts are stored as strings in the options flow (`ConfigEdits`) and as ordinals in the coordinator, which parses them.
- `date.today()` is a parameter of `UpdateData`. `uuid.uuid4()` and the storage writes are not modelled.
- Form rendering, voluptuous schemas, selectors, `async_*` step plumbing, `async_create_entry`, `async_show_form` and `async_abort` are left out. Each step returns a `StepOutcome` instead.
- `async_step_add_closure_date`'s duplicate check runs only when the date fails to parse, so it never guards a valid date. It is not modelled as an invariant.
- `sensor.py`, `websocket_api.py`, `storage.py` and `__init__.py` are not part of this model. Neither are the hourly refresh and the `DataUpdateCoordinator` scheduling, nor logging.
- A stored closure period that fails to parse makes the overlap loop of `async_step_add_closure_period` raise. The model reports `Raised` and stops; it does not model the exception.
- Coordinator.Coordinator.GetCurrentWeek: requires every loaded menu to have a non-zero `total_weeks`. With `total_weeks == 0`, Python raises ZeroDivisionError and the model does not represent the exception. `BuildDayMenuData`, `UpdateData`, `GetEntry`, `GetDayData` and `GetMealForDate` carry the same requirement.
- Coordinator.Coordinator.LatestRestartOnOrBefore: visits the restart dates in any order instead of sorting them. The result is the same maximum, but the sorted iteration order is not modelled.
- Coordinator.Coordinator.GetMealForDate: takes a `MealSlot` rather than a free string. A meal type other than the four slot names, which Python answers with `None`, is not modelled.
- Coordinator.Coordinator.LoadMenus: a stored menu whose effective date is missing or unparsable stops the loading, as Python's exception does. What the exception does to the caller is not modelled.
- Python's list sort is modelled as a stable insertion sort by effective date (`Resolution.SortByDate`). The in-place permutation of the list is not modelled step by step.
- Before `async_setup`, the coordinator's start date is `None`. The model's constructor takes the start date and week that `async_setup` reads from storage.

## Findings

| source | as written | input that shows it | evidently intended | confidence | as-written member | corrected member |
|---|---|---|---|---|---|---|
| custom_components/school_canteen_menu/config_flow.py:287-300 | `parse_csv_menu`'s result is assigned to the flow's fields before the two checks. A rejected upload therefore leaves its table in the flow, and a later empty submission skips parsing and creates the entry from that table. | Start week 2. Upload "week_number,week_day,main_course,second_course,side,fruit" followed by "1,1,Pasta,Fish,Salad,Apple": rejected with `start_week_exceeds_total`. Then submit empty content: the entry is created with the one-week table and `total_weeks == 1 < 2`. | Keep the parsed table only when the upload is accepted, so that every created entry has either the initial table or a non-empty table covering the start week. | not executed | ConfigEdits.StaleTableAfterRejectedUpload | ConfigEdits.UploadCreatesCheckedTable |
