/**
 * The constant tables of const.py: the six anchor column names of the menu CSV,
 * the Python-weekday to CSV-day-number map, its inverse and the display names.
 */
module Constants {

  const WeekNumberColumn := "week_number"
  const WeekDayColumn := "week_day"
  const MainCourseColumn := "main_course"
  const SecondCourseColumn := "second_course"
  const SideColumn := "side"
  const FruitColumn := "fruit"

  /** The anchors in the order the CSV header must hold them. */
  const AnchorColumns: seq<string> :=
    [WeekNumberColumn, WeekDayColumn, MainCourseColumn, SecondCourseColumn, SideColumn, FruitColumn]

  /** Python weekday (0 = Monday) to CSV day number (1 = Monday). */
  const WeekdayToCsv: map<int, int> :=
    map[0 := 1, 1 := 2, 2 := 3, 3 := 4, 4 := 5, 5 := 6, 6 := 7]

  /** No two keys share a value. */
  ghost predicate Injective(m: map<int, int>) {
    forall x, y | x in m && y in m && x != y :: m[x] != m[y]
  }

  /** The inverting comprehension `{v: k for k, v in m.items()}` of an injective map. */
  function Invert(m: map<int, int>): (r: map<int, int>)
    requires Injective(m)
    ensures r.Keys == m.Values
    ensures forall k | k in m :: r[m[k]] == k
  {
    map k | k in m :: m[k] := k
  }

  /** CSV day number to Python weekday. */
  const CsvToWeekday: map<int, int> := Invert(WeekdayToCsv)

  const WeekdayNames: map<int, string> :=
    map[1 := "Monday", 2 := "Tuesday", 3 := "Wednesday", 4 := "Thursday",
        5 := "Friday", 6 := "Saturday", 7 := "Sunday"]

  /** Every Python weekday maps to the next integer, and nothing else is mapped. */
  lemma WeekdayToCsvShifts()
    ensures WeekdayToCsv.Keys == {0, 1, 2, 3, 4, 5, 6}
    ensures forall w :: 0 <= w < 7 ==> WeekdayToCsv[w] == w + 1
  {
  }

  /** The CSV-to-weekday table undoes the weekday-to-CSV table in both directions. */
  lemma CsvToWeekdayIsInverse()
    ensures CsvToWeekday.Keys == {1, 2, 3, 4, 5, 6, 7}
    ensures forall w :: 0 <= w < 7 ==> WeekdayToCsv[w] in CsvToWeekday && CsvToWeekday[WeekdayToCsv[w]] == w
    ensures forall n :: 1 <= n <= 7 ==> CsvToWeekday[n] in WeekdayToCsv && WeekdayToCsv[CsvToWeekday[n]] == n
  {
    WeekdayToCsvShifts();
    assert WeekdayToCsv.Values == {1, 2, 3, 4, 5, 6, 7} by {
      forall n | n in WeekdayToCsv.Values ensures 1 <= n <= 7 {
        var w :| w in WeekdayToCsv && WeekdayToCsv[w] == n;
      }
      forall n | 1 <= n <= 7 ensures n in WeekdayToCsv.Values {
        assert WeekdayToCsv[n - 1] == n;
      }
    }
    forall n | 1 <= n <= 7 ensures CsvToWeekday[n] in WeekdayToCsv && WeekdayToCsv[CsvToWeekday[n]] == n {
      assert WeekdayToCsv[n - 1] == n;
    }
  }

  /**
   * Every day number has a name; days 6 and 7, exactly the ones whose Python
   * weekday is 5 or more, are Saturday and Sunday.
   */
  lemma WeekdayNamesCoverWeek()
    ensures WeekdayNames.Keys == {1, 2, 3, 4, 5, 6, 7}
    ensures WeekdayNames[6] == "Saturday" && WeekdayNames[7] == "Sunday"
    ensures forall w :: 0 <= w < 7 ==> (WeekdayToCsv[w] >= 6 <==> w >= 5)
  {
  }

  /** The anchors are pairwise distinct, so a strictly increasing order of their positions can exist. */
  lemma AnchorColumnsDistinct()
    ensures |AnchorColumns| == 6
    ensures forall i, j :: 0 <= i < j < |AnchorColumns| ==> AnchorColumns[i] != AnchorColumns[j]
  {
  }
}
