/**
 * `parse_csv_menu` of config_flow.py: a header with six anchor columns in a fixed
 * order, attribute columns between anchors, and data rows folded into a
 * week -> day -> record table. The CSV text arrives already split into rows of cells.
 */
module CsvMenu {
  import opened Wrappers
  import opened Constants
  import opened Models

  type Row = seq<string>

  /** The characters Python's `str.strip()` removes (`str.isspace`). */
  predicate IsSpace(c: char) {
    c in {' ', '\t', '\n', '\r', '\U{b}', '\U{c}', '\U{1c}', '\U{1d}', '\U{1e}', '\U{1f}',
          '\U{85}', '\U{a0}', '\U{1680}', '\U{2000}', '\U{2001}', '\U{2002}', '\U{2003}',
          '\U{2004}', '\U{2005}', '\U{2006}', '\U{2007}', '\U{2008}', '\U{2009}', '\U{200a}',
          '\U{2028}', '\U{2029}', '\U{202f}', '\U{205f}', '\U{3000}'}
  }

  /** Leading whitespace removed. */
  function TrimStart(s: string): string
    decreases |s|
  {
    if s != [] && IsSpace(s[0]) then TrimStart(s[1..]) else s
  }

  /** Trailing whitespace removed. */
  function TrimEnd(s: string): string
    decreases |s|
  {
    if s != [] && IsSpace(s[|s| - 1]) then TrimEnd(s[..|s| - 1]) else s
  }

  /** `str.strip()`. */
  function Strip(s: string): (r: string)
    ensures |r| <= |s|
  {
    TrimStartDrops(s);
    TrimEndDrops(TrimStart(s));
    TrimEnd(TrimStart(s))
  }

  /** TrimStart drops a run of whitespace and stops at the first other character. */
  lemma {:induction false} TrimStartDrops(s: string)
    ensures |TrimStart(s)| <= |s| && TrimStart(s) == s[|s| - |TrimStart(s)|..]
    ensures forall k :: 0 <= k < |s| - |TrimStart(s)| ==> IsSpace(s[k])
    ensures TrimStart(s) != [] ==> !IsSpace(TrimStart(s)[0])
    decreases |s|
  {
    if s != [] && IsSpace(s[0]) {
      TrimStartDrops(s[1..]);
    }
  }

  /** TrimEnd drops a run of trailing whitespace and stops at the last other character. */
  lemma {:induction false} TrimEndDrops(s: string)
    ensures |TrimEnd(s)| <= |s| && TrimEnd(s) == s[..|TrimEnd(s)|]
    ensures forall k :: |TrimEnd(s)| <= k < |s| ==> IsSpace(s[k])
    ensures TrimEnd(s) != [] ==> !IsSpace(TrimEnd(s)[|TrimEnd(s)| - 1])
    decreases |s|
  {
    if s != [] && IsSpace(s[|s| - 1]) {
      TrimEndDrops(s[..|s| - 1]);
    }
  }

  /**
   * A stripped cell is empty exactly when the cell is all whitespace, and a
   * non-empty one neither starts nor ends with whitespace.
   */
  lemma StripBlank(s: string)
    ensures Strip(s) == [] <==> forall k :: 0 <= k < |s| ==> IsSpace(s[k])
    ensures Strip(s) != [] ==> !IsSpace(Strip(s)[0]) && !IsSpace(Strip(s)[|Strip(s)| - 1])
  {
    var t := TrimStart(s);
    TrimStartDrops(s);
    TrimEndDrops(t);
    assert t != [] ==> t[0] == s[|s| - |t|];
  }

  /** `str.lower()` on ASCII letters. */
  function LowerChar(c: char): char {
    if 'A' <= c <= 'Z' then (c as int + 32) as char else c
  }

  /** Lower-casing keeps the length, leaves no ASCII capital, and changes nothing else. */
  function Lower(s: string): (r: string)
    ensures |r| == |s|
    ensures forall i | 0 <= i < |r| :: !('A' <= r[i] <= 'Z')
    ensures forall i | 0 <= i < |s| && !('A' <= s[i] <= 'Z') :: r[i] == s[i]
    ensures forall i | 0 <= i < |s| && 'A' <= s[i] <= 'Z' :: 'a' <= r[i] <= 'z' && r[i] as int - s[i] as int == 'a' as int - 'A' as int
  {
    seq(|s|, i requires 0 <= i < |s| => LowerChar(s[i]))
  }

  predicate IsDigit(c: char) {
    '0' <= c <= '9'
  }

  predicate AllDigits(s: string) {
    forall i :: 0 <= i < |s| ==> IsDigit(s[i])
  }

  /** The value of a string of decimal digits, most significant first. */
  function DigitsValue(s: string): nat
    requires AllDigits(s)
    decreases |s|
  {
    if s == [] then 0 else DigitsValue(s[..|s| - 1]) * 10 + (s[|s| - 1] as int - '0' as int)
  }

  /** A leading zero does not change the value of a digit string, so `int("007") == 7`. */
  lemma {:induction false} DigitsValueLeadingZero(s: string)
    requires AllDigits(s)
    ensures AllDigits("0" + s) && DigitsValue("0" + s) == DigitsValue(s)
    decreases |s|
  {
    var z := "0" + s;
    assert AllDigits(z) by {
      forall i | 0 <= i < |z| ensures IsDigit(z[i]) {
        if i > 0 { assert z[i] == s[i - 1]; }
      }
    }
    if s != [] {
      var init := s[..|s| - 1];
      assert z[..|z| - 1] == "0" + init;
      assert z[|z| - 1] == s[|s| - 1];
      DigitsValueLeadingZero(init);
    }
  }

  /** `int(s)` for an optional sign followed by decimal digits; `None` where `int` raises ValueError. */
  function ParseInt(s: string): (r: Option<int>)
    ensures r.Some? <==> (s != [] && AllDigits(s)) || (|s| > 1 && (s[0] == '+' || s[0] == '-') && AllDigits(s[1..]))
    ensures s != [] && AllDigits(s) ==> r == Some(DigitsValue(s))
    ensures |s| > 1 && s[0] == '+' && AllDigits(s[1..]) ==> r == Some(DigitsValue(s[1..]))
    ensures |s| > 1 && s[0] == '-' && AllDigits(s[1..]) ==> r.Some? && r.value == -(DigitsValue(s[1..]) as int)
    ensures r.Some? && r.value < 0 ==> s[0] == '-'
  {
    if |s| > 1 && (s[0] == '+' || s[0] == '-') && AllDigits(s[1..]) then
      var magnitude: int := DigitsValue(s[1..]);
      Some(if s[0] == '-' then -magnitude else magnitude)
    else if |s| > 0 && AllDigits(s) then Some(DigitsValue(s))
    else None
  }

  /** `str(n)` for a natural number. */
  function DecimalString(n: nat): (r: string)
    ensures |r| > 0 && AllDigits(r)
  {
    var digit := ['0' + (n % 10) as char];
    if n < 10 then digit else DecimalString(n / 10) + digit
  }

  lemma {:induction false} DecimalStringValue(n: nat)
    ensures DigitsValue(DecimalString(n)) == n
  {
    var s := DecimalString(n);
    if n >= 10 {
      DecimalStringValue(n / 10);
      assert s[..|s| - 1] == DecimalString(n / 10);
    }
  }

  /** `int(str(n)) == n` for every integer, negative ones included. */
  lemma {:induction false} ParseIntOfDecimal(n: int)
    ensures n >= 0 ==> ParseInt(DecimalString(n)) == Some(n)
    ensures n < 0 ==> ParseInt("-" + DecimalString(-n)) == Some(n)
  {
    if n >= 0 {
      DecimalStringValue(n);
      assert DecimalString(n)[0] != '+' && DecimalString(n)[0] != '-';
    } else {
      DecimalStringValue(-n);
      assert ("-" + DecimalString(-n))[1..] == DecimalString(-n);
    }
  }

  /** `[h.strip().lower() for h in header]`. */
  function NormalizeHeader(raw: Row): seq<string> {
    seq(|raw|, i requires 0 <= i < |raw| => Lower(Strip(raw[i])))
  }

  /** `list.index`: the first position of `x`, `None` where Python raises ValueError. */
  function IndexOf(s: seq<string>, x: string): (r: Option<nat>)
    ensures r.None? <==> x !in s
    ensures r.Some? ==> r.value < |s| && s[r.value] == x && x !in s[..r.value]
  {
    if s == [] then None
    else if s[0] == x then Some(0)
    else match IndexOf(s[1..], x)
      case None => None
      case Some(i) =>
        assert s[1..][..i] == s[1..i + 1];
        Some(i + 1)
  }

  /** Why a CSV is refused as a whole. */
  datatype CsvError = EmptyCsv | MissingColumn(name: string) | ColumnOrder

  /**
   * The `header.index(...)` calls in order: the positions of all `names`, or the
   * first name that is absent.
   */
  function FindAnchors(h: seq<string>, names: seq<string>): (r: Result<seq<nat>, CsvError>)
    ensures r.Ok? <==> forall k :: 0 <= k < |names| ==> names[k] in h
    ensures r.Ok? ==> |r.value| == |names| && forall k :: 0 <= k < |names| ==> IndexOf(h, names[k]) == Some(r.value[k])
    ensures r.Err? ==> exists k :: 0 <= k < |names| && r.error == MissingColumn(names[k]) && names[k] !in h &&
                                   forall j :: 0 <= j < k ==> names[j] in h
    decreases |names|
  {
    if names == [] then Ok([])
    else match IndexOf(h, names[0])
      case None => Err(MissingColumn(names[0]))
      case Some(i) =>
        match FindAnchors(h, names[1..])
        case Err(e) =>
          assert forall k :: 1 <= k < |names| ==> names[k] == names[1..][k - 1];
          Err(e)
        case Ok(rest) =>
          assert forall k :: 1 <= k < |names| ==> names[k] == names[1..][k - 1];
          Ok([i] + rest)
  }

  /** Every anchor is present and their first positions strictly increase. */
  ghost predicate AnchorsInOrder(h: seq<string>) {
    forall j, k | 0 <= j < k < |AnchorColumns| ::
      && IndexOf(h, AnchorColumns[j]).Some?
      && IndexOf(h, AnchorColumns[k]).Some?
      && IndexOf(h, AnchorColumns[j]).value < IndexOf(h, AnchorColumns[k]).value
  }

  lemma InOrderPair(h: seq<string>, j: nat, k: nat)
    requires AnchorsInOrder(h)
    requires j < k < |AnchorColumns|
    ensures AnchorColumns[j] in h && AnchorColumns[k] in h
  {
  }

  /** Positions of the six anchors in the normalized header. */
  datatype Layout = Layout(header: seq<string>, week: nat, day: nat, main: nat, second: nat, side: nat, fruit: nat) {
    ghost predicate Valid() {
      week < day < main < second < side < fruit < |header|
    }

    /** Each anchor is at its first occurrence in the header. */
    ghost predicate FirstOccurrences() {
      && IndexOf(header, WeekNumberColumn) == Some(week)
      && IndexOf(header, WeekDayColumn) == Some(day)
      && IndexOf(header, MainCourseColumn) == Some(main)
      && IndexOf(header, SecondCourseColumn) == Some(second)
      && IndexOf(header, SideColumn) == Some(side)
      && IndexOf(header, FruitColumn) == Some(fruit)
    }

    /** `max(...) + 1` over the six anchor positions. */
    function RequiredWidth(): nat {
      var m1 := if week > day then week else day;
      var m2 := if m1 > main then m1 else main;
      var m3 := if m2 > second then m2 else second;
      var m4 := if m3 > side then m3 else side;
      var m5 := if m4 > fruit then m4 else fruit;
      m5 + 1
    }

    function DayAttrNames(): seq<string> requires Valid() { header[day + 1..main] }
    function MainAttrNames(): seq<string> requires Valid() { header[main + 1..second] }
    function SecondAttrNames(): seq<string> requires Valid() { header[second + 1..side] }
    function SideAttrNames(): seq<string> requires Valid() { header[side + 1..fruit] }
    function FruitAttrNames(): seq<string> requires Valid() { header[fruit + 1..] }

    /** The anchor column of a meal slot and the attribute names that follow it. */
    function SlotColumn(slot: MealSlot): nat {
      match slot
      case MainCourse => main
      case SecondCourse => second
      case Side => side
      case Fruit => fruit
    }

    function SlotAttrNames(slot: MealSlot): seq<string> requires Valid() {
      match slot
      case MainCourse => MainAttrNames()
      case SecondCourse => SecondAttrNames()
      case Side => SideAttrNames()
      case Fruit => FruitAttrNames()
    }
  }

  /** With every anchor found, the order check passes exactly when AnchorsInOrder holds. */
  lemma {:induction false} ChainIsOrder(h: seq<string>, ix: seq<nat>)
    requires |ix| == |AnchorColumns|
    requires forall k :: 0 <= k < |AnchorColumns| ==> IndexOf(h, AnchorColumns[k]) == Some(ix[k])
    ensures AnchorsInOrder(h) <==> ix[0] < ix[1] < ix[2] < ix[3] < ix[4] < ix[5]
  {
    if ix[0] < ix[1] < ix[2] < ix[3] < ix[4] < ix[5] {
      forall j, k | 0 <= j < k < |AnchorColumns|
        ensures IndexOf(h, AnchorColumns[j]).value < IndexOf(h, AnchorColumns[k]).value
      {
        assert ix[j] < ix[k];
      }
    } else {
      var j := if ix[0] >= ix[1] then 0 else if ix[1] >= ix[2] then 1 else if ix[2] >= ix[3] then 2
               else if ix[3] >= ix[4] then 3 else 4;
      assert IndexOf(h, AnchorColumns[j]).value >= IndexOf(h, AnchorColumns[j + 1]).value;
    }
  }

  /**
   * The header checks: every anchor must be present (the first absent one is
   * reported) and the anchors' first positions must strictly increase.
   */
  function ParseHeader(raw: Row): (r: Result<Layout, CsvError>)
    ensures r.Ok? ==> r.value.Valid() && r.value.FirstOccurrences() && r.value.header == NormalizeHeader(raw)
  {
    var h := NormalizeHeader(raw);
    match FindAnchors(h, AnchorColumns)
    case Err(e) => Err(e)
    case Ok(ix) =>
      ChainIsOrder(h, ix);
      if ix[0] < ix[1] < ix[2] < ix[3] < ix[4] < ix[5] then
        Ok(Layout(h, ix[0], ix[1], ix[2], ix[3], ix[4], ix[5]))
      else
        Err(ColumnOrder)
  }

  /**
   * The header is accepted exactly when every anchor is present in strictly
   * increasing order; a missing anchor is reported by name (the first one
   * missing), any other rejection is the order error.
   */
  lemma ParseHeaderVerdict(raw: Row)
    ensures ParseHeader(raw).Ok? <==> AnchorsInOrder(NormalizeHeader(raw))
    ensures ParseHeader(raw).Err? ==> ParseHeader(raw).error.MissingColumn? || ParseHeader(raw).error == ColumnOrder
    ensures ParseHeader(raw).Err? && ParseHeader(raw).error.MissingColumn? ==>
      exists k :: 0 <= k < |AnchorColumns| && ParseHeader(raw).error.name == AnchorColumns[k] && AnchorColumns[k] !in NormalizeHeader(raw) &&
                  forall j :: 0 <= j < k ==> AnchorColumns[j] in NormalizeHeader(raw)
    ensures (exists k :: 0 <= k < |AnchorColumns| && AnchorColumns[k] !in NormalizeHeader(raw)) ==>
      ParseHeader(raw).Err? && ParseHeader(raw).error.MissingColumn?
  {
    var h := NormalizeHeader(raw);
    match FindAnchors(h, AnchorColumns)
    case Err(e) =>
      assert !AnchorsInOrder(h) by {
        assert |AnchorColumns| == 6;
        var k :| 0 <= k < |AnchorColumns| && e == MissingColumn(AnchorColumns[k]) && AnchorColumns[k] !in h;
        var other := if k == 0 then 1 else 0;
        var lo, hi := if k < other then k else other, if k < other then other else k;
        assert IndexOf(h, AnchorColumns[k]).None?;
        if AnchorsInOrder(h) {
          InOrderPair(h, lo, hi);
          assert false;
        }
      }
    case Ok(ix) =>
      ChainIsOrder(h, ix);
  }

  /** A string that neither starts nor ends with whitespace is its own `strip()`. */
  lemma StripUnchanged(s: string)
    requires s != [] && !IsSpace(s[0]) && !IsSpace(s[|s| - 1])
    ensures Strip(s) == s
  {
  }

  /** A string without upper-case ASCII letters is its own `lower()`. */
  lemma LowerUnchanged(s: string)
    requires forall i | 0 <= i < |s| :: !('A' <= s[i] <= 'Z')
    ensures Lower(s) == s
  {
  }

  /** A header whose names are already stripped and lower-case is its own normal form. */
  lemma NormalizedUnchanged(raw: Row)
    requires forall i | 0 <= i < |raw| :: raw[i] != [] && !IsSpace(raw[i][0]) && !IsSpace(raw[i][|raw[i]| - 1])
    requires forall i, j | 0 <= i < |raw| && 0 <= j < |raw[i]| :: !('A' <= raw[i][j] <= 'Z')
    ensures NormalizeHeader(raw) == raw
  {
    forall i | 0 <= i < |raw|
      ensures Lower(Strip(raw[i])) == raw[i]
    {
      StripUnchanged(raw[i]);
      LowerUnchanged(raw[i]);
    }
  }

  /** In a list without repeats each element first occurs at its own position. */
  lemma IndexOfDistinct(s: seq<string>, k: nat)
    requires forall i, j | 0 <= i < j < |s| :: s[i] != s[j]
    requires k < |s|
    ensures IndexOf(s, s[k]) == Some(k)
  {
    assert s[k] in s;
  }

  lemma AnchorColumnsNormalized()
    ensures NormalizeHeader(AnchorColumns) == AnchorColumns
  {
    NormalizedUnchanged(AnchorColumns);
  }

  /** Looking up every name of a list without repeats finds each at its own position. */
  lemma FindAnchorsOfDistinct(h: seq<string>)
    requires forall i, j | 0 <= i < j < |h| :: h[i] != h[j]
    ensures FindAnchors(h, h).Ok?
    ensures |FindAnchors(h, h).value| == |h| && forall k | 0 <= k < |h| :: FindAnchors(h, h).value[k] == k
  {
    forall k | 0 <= k < |h|
      ensures IndexOf(h, h[k]) == Some(k)
    {
      IndexOfDistinct(h, k);
    }
    assert forall k | 0 <= k < |h| :: h[k] in h;
  }

  lemma AnchorColumnsFound()
    ensures FindAnchors(AnchorColumns, AnchorColumns).Ok?
    ensures var ix := FindAnchors(AnchorColumns, AnchorColumns).value;
            |ix| == 6 && ix[0] == 0 && ix[1] == 1 && ix[2] == 2 && ix[3] == 3 && ix[4] == 4 && ix[5] == 5
  {
    AnchorColumnsDistinct();
    FindAnchorsOfDistinct(AnchorColumns);
  }

  /** The header made of the six anchor names alone, in order, puts the anchors at positions 0..5. */
  lemma CanonicalHeader()
    ensures ParseHeader(AnchorColumns) == Ok(Layout(AnchorColumns, 0, 1, 2, 3, 4, 5))
  {
    AnchorColumnsNormalized();
    AnchorColumnsFound();
  }

  /** The stripped cell at `idx`, or "" past the end of the row. */
  function CellValue(row: Row, idx: nat): string {
    if |row| > idx then Strip(row[idx]) else ""
  }

  /**
   * The attribute map built left to right from the columns after `base`: a
   * column whose stripped cell is non-empty sets its name, a later column of
   * the same name overriding an earlier one.
   */
  function AttrsOf(row: Row, base: nat, names: seq<string>): map<string, string>
    decreases |names|
  {
    if names == [] then map[]
    else
      var j := |names| - 1;
      var cell := CellValue(row, base + 1 + j);
      var prev := AttrsOf(row, base, names[..j]);
      if cell != "" then prev[names[j] := cell] else prev
  }

  /** `build_course_data`: no meal for an empty value, else "value" plus the non-empty attributes. */
  function CourseOf(value: string, row: Row, base: nat, names: seq<string>): Option<MealDict> {
    if value == "" then None else Some(map[ValueKey := value] + AttrsOf(row, base, names))
  }

  /** The record a valid row stores. */
  function RowEntry(l: Layout, row: Row): DayEntry
    requires l.Valid()
  {
    DayEntry(
      AttrsOf(row, l.day, l.DayAttrNames()),
      CourseOf(CellValue(row, l.main), row, l.main, l.MainAttrNames()),
      CourseOf(CellValue(row, l.second), row, l.second, l.SecondAttrNames()),
      CourseOf(CellValue(row, l.side), row, l.side, l.SideAttrNames()),
      CourseOf(CellValue(row, l.fruit), row, l.fruit, l.FruitAttrNames()))
  }

  /** `not row or all(not cell.strip() for cell in row)`. */
  predicate IsBlankRow(row: Row) {
    row == [] || forall k :: 0 <= k < |row| ==> Strip(row[k]) == ""
  }

  /** What the loop body does with one data row. */
  datatype RowVerdict = Blank | TooShort | BadWeek | BadDay(week: int) | Accepted(week: int, day: int, entry: DayEntry)

  function ClassifyRow(l: Layout, row: Row): (r: RowVerdict)
    requires l.Valid()
    ensures ValidVerdict(r)
    ensures r == Blank <==> IsBlankRow(row)
    ensures r == TooShort <==> !IsBlankRow(row) && |row| < l.RequiredWidth()
    ensures r.BadDay? || r.Accepted? ==>
      !IsBlankRow(row) && |row| >= l.RequiredWidth() && ParseInt(Strip(row[l.week])) == Some(r.week)
    ensures r.Accepted? ==>
      ParseInt(Strip(row[l.day])) == Some(r.day) && r.entry == RowEntry(l, row)
  {
    if IsBlankRow(row) then Blank
    else if |row| < l.RequiredWidth() then TooShort
    else match ParseInt(Strip(row[l.week]))
      case None => BadWeek
      case Some(w) =>
        if w < 1 then BadWeek
        else match ParseInt(Strip(row[l.day]))
          case None => BadDay(w)
          case Some(d) => if d < 1 || d > 7 then BadDay(w) else Accepted(w, d, RowEntry(l, row))
  }

  /** The week a row contributes to `max_week`: set once the week check has passed. */
  function WeekSeen(v: RowVerdict): Option<int> {
    match v
    case BadDay(w) => Some(w)
    case Accepted(w, _, _) => Some(w)
    case _ => None
  }

  /** `menu_data[str(week)][str(day)] = entry`, creating the week on first use. */
  function Store(md: MenuData, w: int, d: int, e: DayEntry): (r: MenuData)
    ensures r.Keys == md.Keys + {w}
    ensures d in r[w] && r[w][d] == e
    ensures w in md ==> r[w].Keys == md[w].Keys + {d}
    ensures w !in md ==> r[w].Keys == {d}
    ensures forall w' | w' in md && w' != w :: r[w'] == md[w']
    ensures w in md ==> forall d' | d' in md[w] && d' != d :: r[w][d'] == md[w][d']
  {
    var week := if w in md then md[w] else map[];
    md[w := week[d := e]]
  }

  datatype ParseState = ParseState(menuData: MenuData, maxWeek: int)

  /** The effect of one row's verdict on the state of the loop. */
  function Apply(st: ParseState, v: RowVerdict): ParseState {
    var top := match WeekSeen(v) case None => st.maxWeek case Some(w) => if w > st.maxWeek then w else st.maxWeek;
    match v
    case Accepted(w, d, e) => ParseState(Store(st.menuData, w, d, e), top)
    case _ => ParseState(st.menuData, top)
  }

  /** The state after applying the verdicts, in order, from an empty table and `max_week = 0`. */
  function FoldVerdicts(vs: seq<RowVerdict>): ParseState
    decreases |vs|
  {
    if vs == [] then ParseState(map[], 0)
    else Apply(FoldVerdicts(vs[..|vs| - 1]), vs[|vs| - 1])
  }

  /** The verdict on each data row. */
  function Verdicts(l: Layout, rows: seq<Row>): (vs: seq<RowVerdict>)
    requires l.Valid()
    ensures |vs| == |rows|
    ensures forall i | 0 <= i < |rows| :: vs[i] == ClassifyRow(l, rows[i])
    decreases |rows|
  {
    if rows == [] then []
    else
      var n := |rows| - 1;
      var prev := Verdicts(l, rows[..n]);
      assert forall i | 0 <= i < n :: rows[..n][i] == rows[i];
      prev + [ClassifyRow(l, rows[n])]
  }

  datatype ParsedMenu = ParsedMenu(menuData: MenuData, totalWeeks: int)

  /** What `parse_csv_menu` returns or raises for the given rows. */
  ghost function CsvMenuOf(rows: seq<Row>): Result<ParsedMenu, CsvError> {
    if rows == [] then Err(EmptyCsv)
    else match ParseHeader(rows[0])
      case Err(e) => Err(e)
      case Ok(l) =>
        var st := FoldVerdicts(Verdicts(l, rows[1..]));
        Ok(ParsedMenu(st.menuData, if st.maxWeek > 0 then st.maxWeek else 1))
  }

  /** One more data row: the fold over the longer prefix applies that row's verdict. */
  lemma FoldPrefixStep(l: Layout, rows: seq<Row>, i: nat)
    requires l.Valid()
    requires i < |rows|
    ensures FoldVerdicts(Verdicts(l, rows[..i + 1])) == Apply(FoldVerdicts(Verdicts(l, rows[..i])), ClassifyRow(l, rows[i]))
  {
    assert rows[..i + 1][..i] == rows[..i];
    var vs := Verdicts(l, rows[..i + 1]);
    assert vs[..i] == Verdicts(l, rows[..i]);
  }

  /** A column sets an attribute when its name is `k` and its stripped cell is non-empty. */
  predicate SetsAttr(row: Row, base: nat, names: seq<string>, j: int, k: string) {
    0 <= j < |names| && names[j] == k && CellValue(row, base + 1 + j) != ""
  }

  /** The attribute map holds exactly the names of the non-empty columns. */
  lemma {:induction false} AttrsOfKeys(row: Row, base: nat, names: seq<string>)
    ensures forall k :: k in AttrsOf(row, base, names) <==> exists j :: SetsAttr(row, base, names, j, k)
    decreases |names|
  {
    if names != [] {
      var n := |names| - 1;
      var prefix := names[..n];
      AttrsOfKeys(row, base, prefix);
      assert forall j, k :: SetsAttr(row, base, prefix, j, k) <==> j < n && SetsAttr(row, base, names, j, k);
      forall k
        ensures k in AttrsOf(row, base, names) <==> exists j :: SetsAttr(row, base, names, j, k)
      {
        if SetsAttr(row, base, names, n, k) {
          assert k in AttrsOf(row, base, names);
        } else if exists j :: SetsAttr(row, base, names, j, k) {
          var j :| SetsAttr(row, base, names, j, k);
          assert SetsAttr(row, base, prefix, j, k);
        }
      }
    }
  }

  /** Column `j` sets `k`, and no later column does. */
  predicate LastSetting(row: Row, base: nat, names: seq<string>, j: int, k: string) {
    SetsAttr(row, base, names, j, k) && forall j' | j < j' < |names| :: !SetsAttr(row, base, names, j', k)
  }

  /** The attribute `k` holds the cell of the last column that sets it. */
  ghost predicate HoldsLastCell(row: Row, base: nat, names: seq<string>, k: string)
    requires k in AttrsOf(row, base, names)
  {
    exists j :: LastSetting(row, base, names, j, k) && AttrsOf(row, base, names)[k] == CellValue(row, base + 1 + j)
  }

  /** One more column: an attribute it does not set keeps the column the prefix found for it. */
  lemma AttrsOfContentsStep(row: Row, base: nat, names: seq<string>, k: string)
    requires names != []
    requires k in AttrsOf(row, base, names)
    requires k in AttrsOf(row, base, names[..|names| - 1]) ==> HoldsLastCell(row, base, names[..|names| - 1], k)
    ensures HoldsLastCell(row, base, names, k)
  {
    var n := |names| - 1;
    var prefix := names[..n];
    var r := AttrsOf(row, base, names);
    var cell := CellValue(row, base + 1 + n);
    assert r == if cell != "" then AttrsOf(row, base, prefix)[names[n] := cell] else AttrsOf(row, base, prefix);
    if SetsAttr(row, base, names, n, k) {
      assert LastSetting(row, base, names, n, k) && r[k] == CellValue(row, base + 1 + n);
    } else {
      assert k in AttrsOf(row, base, prefix) && r[k] == AttrsOf(row, base, prefix)[k];
      var j :| LastSetting(row, base, prefix, j, k) && AttrsOf(row, base, prefix)[k] == CellValue(row, base + 1 + j);
      assert SetsAttr(row, base, names, j, k);
      assert forall j' | j < j' < n :: SetsAttr(row, base, names, j', k) ==> SetsAttr(row, base, prefix, j', k);
      assert LastSetting(row, base, names, j, k);
    }
  }

  /** Each attribute name maps to the cell of the last non-empty column carrying it. */
  lemma {:induction false} AttrsOfContents(row: Row, base: nat, names: seq<string>)
    ensures forall k | k in AttrsOf(row, base, names) :: HoldsLastCell(row, base, names, k)
    decreases |names|
  {
    if names != [] {
      var prefix := names[..|names| - 1];
      AttrsOfContents(row, base, prefix);
      forall k | k in AttrsOf(row, base, names)
        ensures HoldsLastCell(row, base, names, k)
      {
        if k in AttrsOf(row, base, prefix) {
          assert HoldsLastCell(row, base, prefix, k);
        }
        AttrsOfContentsStep(row, base, names, k);
      }
    }
  }

  /**
   * `build_course_data`: no meal exactly when the anchor cell is empty; otherwise
   * the keys are "value" and the non-empty attribute names, and "value" holds the
   * anchor cell unless an attribute column of that name overrides it.
   */
  lemma CourseOfShape(value: string, row: Row, base: nat, names: seq<string>)
    ensures CourseOf(value, row, base, names).None? <==> value == ""
    ensures value != "" ==>
      CourseOf(value, row, base, names).value.Keys == {ValueKey} + AttrsOf(row, base, names).Keys
    ensures value != "" && (forall j :: !SetsAttr(row, base, names, j, ValueKey)) ==>
      CourseOf(value, row, base, names).value[ValueKey] == value
    ensures value != "" ==> forall k | k in AttrsOf(row, base, names) ::
      CourseOf(value, row, base, names).value[k] == AttrsOf(row, base, names)[k]
  {
    AttrsOfKeys(row, base, names);
    AttrsOfContents(row, base, names);
  }

  /** The week and day a row stores under, if it is accepted. */
  predicate Writes(v: RowVerdict, w: int, d: int) {
    v.Accepted? && v.week == w && v.day == d
  }

  /**
   * `max_week` is the largest week that passed the week check (a row whose day
   * is then rejected still counts), 0 when there is none; every stored week lies
   * in 1..max_week and every stored day in 1..7.
   */
  lemma {:induction false} FoldBounds(vs: seq<RowVerdict>)
    requires forall i | 0 <= i < |vs| :: ValidVerdict(vs[i])
    ensures FoldVerdicts(vs).maxWeek >= 0
    ensures forall i | 0 <= i < |vs| && WeekSeen(vs[i]).Some? :: WeekSeen(vs[i]).value <= FoldVerdicts(vs).maxWeek
    ensures FoldVerdicts(vs).maxWeek == 0 <==> forall i | 0 <= i < |vs| :: WeekSeen(vs[i]).None?
    ensures FoldVerdicts(vs).maxWeek > 0 ==> exists i :: 0 <= i < |vs| && WeekSeen(vs[i]) == Some(FoldVerdicts(vs).maxWeek)
    ensures forall w | w in FoldVerdicts(vs).menuData :: 1 <= w <= FoldVerdicts(vs).maxWeek
    ensures forall w, d | w in FoldVerdicts(vs).menuData && d in FoldVerdicts(vs).menuData[w] :: 1 <= d <= 7
    decreases |vs|
  {
    if vs != [] {
      var n := |vs| - 1;
      var prefix := vs[..n];
      FoldBounds(prefix);
      assert forall i | 0 <= i < n :: vs[i] == prefix[i];
      if FoldVerdicts(prefix).maxWeek > 0 {
        var i :| 0 <= i < |prefix| && WeekSeen(prefix[i]) == Some(FoldVerdicts(prefix).maxWeek);
        assert WeekSeen(vs[i]) == Some(FoldVerdicts(prefix).maxWeek);
      }
    }
  }

  /** What ClassifyRow guarantees about the week and day of a verdict. */
  predicate ValidVerdict(v: RowVerdict) {
    && (v.BadDay? ==> v.week >= 1)
    && (v.Accepted? ==> v.week >= 1 && 1 <= v.day <= 7)
  }

  lemma VerdictsValid(l: Layout, rows: seq<Row>)
    requires l.Valid()
    ensures forall i | 0 <= i < |rows| :: ValidVerdict(Verdicts(l, rows)[i])
  {
  }

  /** The table has a record for `day` of `week`. */
  predicate Stored(md: MenuData, w: int, d: int) {
    w in md && d in md[w]
  }

  /** One verdict adds at most the cell it writes to the table. */
  lemma ApplyKeys(st: ParseState, v: RowVerdict, w: int, d: int)
    ensures Stored(Apply(st, v).menuData, w, d) <==> Stored(st.menuData, w, d) || Writes(v, w, d)
  {
    if v.Accepted? {
      var r := Store(st.menuData, v.week, v.day, v.entry);
      assert Apply(st, v).menuData == r;
    }
  }

  /** A (week, day) cell is stored exactly when some row is accepted for it. */
  lemma {:induction false} FoldKeys(vs: seq<RowVerdict>)
    ensures forall w, d :: Stored(FoldVerdicts(vs).menuData, w, d) <==> exists i :: 0 <= i < |vs| && Writes(vs[i], w, d)
    decreases |vs|
  {
    if vs != [] {
      var n := |vs| - 1;
      var prefix := vs[..n];
      FoldKeys(prefix);
      assert FoldVerdicts(vs) == Apply(FoldVerdicts(prefix), vs[n]);
      forall w, d
        ensures Stored(FoldVerdicts(vs).menuData, w, d) <==> exists i :: 0 <= i < |vs| && Writes(vs[i], w, d)
      {
        ApplyKeys(FoldVerdicts(prefix), vs[n], w, d);
        if i :| 0 <= i < |vs| && Writes(vs[i], w, d) {
          if i < n {
            assert Writes(prefix[i], w, d);
          }
        }
        if Stored(FoldVerdicts(prefix).menuData, w, d) {
          var i :| 0 <= i < |prefix| && Writes(prefix[i], w, d);
          assert Writes(vs[i], w, d);
        }
      }
    }
  }

  /** A week is only created together with a day in it. */
  lemma {:induction false} FoldWeeksInhabited(vs: seq<RowVerdict>)
    ensures forall w | w in FoldVerdicts(vs).menuData :: exists d :: Stored(FoldVerdicts(vs).menuData, w, d)
    decreases |vs|
  {
    if vs != [] {
      var n := |vs| - 1;
      FoldWeeksInhabited(vs[..n]);
      var st := FoldVerdicts(vs[..n]);
      assert FoldVerdicts(vs) == Apply(st, vs[n]);
      forall w | w in FoldVerdicts(vs).menuData
        ensures exists d :: Stored(FoldVerdicts(vs).menuData, w, d)
      {
        if vs[n].Accepted? && vs[n].week == w {
          ApplyKeys(st, vs[n], w, vs[n].day);
        } else {
          var d :| Stored(st.menuData, w, d);
          ApplyKeys(st, vs[n], w, d);
        }
      }
    }
  }

  /** A stored cell holds the record of the last row accepted for it: later rows overwrite earlier ones. */
  lemma {:induction false} FoldLastWriter(vs: seq<RowVerdict>)
    ensures forall w, d | Stored(FoldVerdicts(vs).menuData, w, d) :: exists i ::
      && 0 <= i < |vs|
      && vs[i] == Accepted(w, d, FoldVerdicts(vs).menuData[w][d])
      && forall i' | i < i' < |vs| :: !Writes(vs[i'], w, d)
    decreases |vs|
  {
    if vs != [] {
      var n := |vs| - 1;
      var prefix := vs[..n];
      FoldLastWriter(prefix);
      var md := FoldVerdicts(vs).menuData;
      var pmd := FoldVerdicts(prefix).menuData;
      assert FoldVerdicts(vs) == Apply(FoldVerdicts(prefix), vs[n]);
      forall w, d | Stored(md, w, d)
        ensures exists i ::
          && 0 <= i < |vs|
          && vs[i] == Accepted(w, d, md[w][d])
          && forall i' | i < i' < |vs| :: !Writes(vs[i'], w, d)
      {
        if Writes(vs[n], w, d) {
          assert vs[n] == Accepted(w, d, md[w][d]);
        } else {
          ApplyKeys(FoldVerdicts(prefix), vs[n], w, d);
          assert Stored(pmd, w, d) && md[w][d] == pmd[w][d];
          var i :| && 0 <= i < |prefix|
                   && prefix[i] == Accepted(w, d, pmd[w][d])
                   && forall i' | i < i' < |prefix| :: !Writes(prefix[i'], w, d);
          assert vs[i] == Accepted(w, d, md[w][d]);
          assert forall i' | i < i' < n :: vs[i'] == prefix[i'];
        }
      }
    }
  }

  /** A row the loop skips, anywhere in the file, leaves the menu table unchanged. */
  lemma {:induction false} SkippedRowContributesNothing(before: seq<RowVerdict>, v: RowVerdict, after: seq<RowVerdict>)
    requires !v.Accepted?
    ensures FoldVerdicts(before + [v] + after).menuData == FoldVerdicts(before + after).menuData
    decreases |after|
  {
    if after == [] {
      assert before + [v] + after == before + [v];
      assert (before + [v])[..|before|] == before;
      assert before + after == before;
    } else {
      var n := |after| - 1;
      SkippedRowContributesNothing(before, v, after[..n]);
      assert (before + [v] + after)[..|before| + 1 + n] == before + [v] + after[..n];
      assert (before + after)[..|before| + n] == before + after[..n];
      assert (before + [v] + after)[|before| + 1 + n] == after[n];
      assert (before + after)[|before| + n] == after[n];
    }
  }

  /**
   * `parse_csv_menu` as a whole: an empty file and a bad header are refused; a
   * good header gives `total_weeks` at least 1 (the largest week seen, else 1),
   * every stored week within 1..total_weeks and every day within 1..7.
   */
  lemma CsvMenuOutcome(rows: seq<Row>)
    ensures rows == [] ==> CsvMenuOf(rows) == Err(EmptyCsv)
    ensures rows != [] ==> (CsvMenuOf(rows).Ok? <==> AnchorsInOrder(NormalizeHeader(rows[0])))
    ensures CsvMenuOf(rows).Ok? ==>
      && CsvMenuOf(rows).value.totalWeeks >= 1
      && (forall w | w in CsvMenuOf(rows).value.menuData :: 1 <= w <= CsvMenuOf(rows).value.totalWeeks)
      && (forall w, d | w in CsvMenuOf(rows).value.menuData && d in CsvMenuOf(rows).value.menuData[w] :: 1 <= d <= 7)
  {
    if rows != [] {
      ParseHeaderVerdict(rows[0]);
      if ParseHeader(rows[0]).Ok? {
        var l := ParseHeader(rows[0]).value;
        VerdictsValid(l, rows[1..]);
        FoldBounds(Verdicts(l, rows[1..]));
      }
    }
  }

  /** The attribute loop of `parse_csv_menu` and of `build_course_data`. */
  method ExtractAttributes(row: Row, base: nat, names: seq<string>) returns (attrs: map<string, string>)
    ensures attrs == AttrsOf(row, base, names)
  {
    attrs := map[];
    var j := 0;
    while j < |names|
      invariant 0 <= j <= |names|
      invariant attrs == AttrsOf(row, base, names[..j])
    {
      var idx := base + 1 + j;
      assert names[..j + 1][..j] == names[..j];
      if |row| > idx && Strip(row[idx]) != "" {
        attrs := attrs[names[j] := Strip(row[idx])];
      }
      j := j + 1;
    }
    assert names[..j] == names;
  }

  /** `build_course_data`. */
  method BuildCourseData(row: Row, value: string, base: nat, names: seq<string>) returns (data: Option<MealDict>)
    ensures data == CourseOf(value, row, base, names)
  {
    if value == "" {
      return None;
    }
    var d := map[ValueKey := value];
    var j := 0;
    while j < |names|
      invariant 0 <= j <= |names|
      invariant d == map[ValueKey := value] + AttrsOf(row, base, names[..j])
    {
      var idx := base + 1 + j;
      assert names[..j + 1][..j] == names[..j];
      if |row| > idx && Strip(row[idx]) != "" {
        d := d[names[j] := Strip(row[idx])];
      }
      j := j + 1;
    }
    assert names[..j] == names;
    data := Some(d);
  }

  /**
   * One pass of the loop body of `parse_csv_menu`: the skip checks in the
   * source's order (`max_week` is raised before the day is checked), then the
   * record is built and stored.
   */
  method ProcessRow(l: Layout, menuData: MenuData, maxWeek: int, row: Row) returns (menuData': MenuData, maxWeek': int)
    requires l.Valid()
    ensures ParseState(menuData', maxWeek') == Apply(ParseState(menuData, maxWeek), ClassifyRow(l, row))
  {
    menuData', maxWeek' := menuData, maxWeek;
    if IsBlankRow(row) {
      return;
    }
    if |row| < l.RequiredWidth() {
      return;
    }
    var weekParsed := ParseInt(Strip(row[l.week]));
    if weekParsed.None? || weekParsed.value < 1 {
      return;
    }
    var week := weekParsed.value;
    if week > maxWeek' {
      maxWeek' := week;
    }
    var dayParsed := ParseInt(Strip(row[l.day]));
    if dayParsed.None? || dayParsed.value < 1 || dayParsed.value > 7 {
      return;
    }
    var day := dayParsed.value;
    var dayAttrs := ExtractAttributes(row, l.day, l.DayAttrNames());
    var mainValue := if |row| > l.main then Strip(row[l.main]) else "";
    var secondValue := if |row| > l.second then Strip(row[l.second]) else "";
    var sideValue := if |row| > l.side then Strip(row[l.side]) else "";
    var fruitValue := if |row| > l.fruit then Strip(row[l.fruit]) else "";
    var mainData := BuildCourseData(row, mainValue, l.main, l.MainAttrNames());
    var secondData := BuildCourseData(row, secondValue, l.second, l.SecondAttrNames());
    var sideData := BuildCourseData(row, sideValue, l.side, l.SideAttrNames());
    var fruitData := BuildCourseData(row, fruitValue, l.fruit, l.FruitAttrNames());
    var entry := DayEntry(dayAttrs, mainData, secondData, sideData, fruitData);
    assert ClassifyRow(l, row) == Accepted(week, day, entry);
    var weekData := if week in menuData' then menuData'[week] else map[];
    menuData' := menuData'[week := weekData[day := entry]];
  }

  /** `parse_csv_menu`: the menu table and `total_weeks`, or the error it raises. */
  method ParseCsvMenu(rows: seq<Row>) returns (r: Result<ParsedMenu, CsvError>)
    ensures r == CsvMenuOf(rows)
  {
    if |rows| == 0 {
      return Err(EmptyCsv);
    }
    var parsedHeader := ParseHeader(rows[0]);
    if parsedHeader.Err? {
      return Err(parsedHeader.error);
    }
    var l := parsedHeader.value;
    var menuData: MenuData := map[];
    var maxWeek := 0;
    var data := rows[1..];
    var i := 0;
    while i < |data|
      invariant 0 <= i <= |data|
      invariant FoldVerdicts(Verdicts(l, data[..i])) == ParseState(menuData, maxWeek)
    {
      FoldPrefixStep(l, data, i);
      menuData, maxWeek := ProcessRow(l, menuData, maxWeek, data[i]);
      i := i + 1;
    }
    assert data[..i] == data;
    r := Ok(ParsedMenu(menuData, if maxWeek > 0 then maxWeek else 1));
  }
}
