/**
 * The value types of models.py: a meal and its dictionary form, a resolved day,
 * a menu loaded from the configuration document and a closure period.
 */
module Models {
  import opened Wrappers
  import opened Calendar

  /** A meal as stored in a menu: `{"value": ..., <attribute>: ...}`; all entries are strings. */
  type MealDict = map<string, string>

  const ValueKey := "value"

  /** The stored record of one day: its day attributes and the four meal slots. */
  datatype DayEntry = DayEntry(
    dayAttrs: map<string, string>,
    mainCourse: Option<MealDict>,
    secondCourse: Option<MealDict>,
    side: Option<MealDict>,
    fruit: Option<MealDict>)
  {
    /** `day_data.get(meal_type)`. */
    function Meal(slot: MealSlot): Option<MealDict> {
      match slot
      case MainCourse => mainCourse
      case SecondCourse => secondCourse
      case Side => side
      case Fruit => fruit
    }
  }

  /** Menu contents: week number to day number (1 = Monday) to the day's record. */
  type MenuData = map<int, map<int, DayEntry>>

  /** The four meal slots, which the source selects by attribute name. */
  datatype MealSlot = MainCourse | SecondCourse | Side | Fruit

  /** The attribute (and CSV column) name of a slot. */
  function SlotName(slot: MealSlot): string {
    match slot
    case MainCourse => "main_course"
    case SecondCourse => "second_course"
    case Side => "side"
    case Fruit => "fruit"
  }

  /** `MealData`: both fields may be `None`. */
  datatype MealData = MealData(value: Option<string>, attributes: Option<map<string, string>>)

  /**
   * `MealData.from_dict`: no meal for `None` or an empty dict; otherwise "value"
   * goes to `value` and every other key to `attributes`, which is `None` when
   * there is no other key.
   */
  function MealFromDict(data: Option<MealDict>): (r: Option<MealData>)
    ensures r.None? <==> data.None? || data.value == map[]
    ensures r.Some? ==> r.value.value == (if ValueKey in data.value then Some(data.value[ValueKey]) else None)
    ensures r.Some? ==> (r.value.attributes.None? <==> data.value.Keys <= {ValueKey})
    ensures r.Some? && r.value.attributes.Some? ==>
      && r.value.attributes.value.Keys == data.value.Keys - {ValueKey}
      && forall k | k in r.value.attributes.value :: r.value.attributes.value[k] == data.value[k]
  {
    match data
    case None => None
    case Some(d) =>
      if d == map[] then None
      else
        var attributes := map k | k in d && k != ValueKey :: d[k];
        assert attributes.Keys == d.Keys - {ValueKey};
        assert attributes == map[] <==> d.Keys <= {ValueKey} by {
          if attributes != map[] {
            var k :| k in attributes;
          } else {
            assert attributes.Keys == {};
          }
          if d.Keys <= {ValueKey} {
            assert attributes.Keys == {};
            assert forall k :: k !in attributes;
          }
        }
        Some(MealData(
          if ValueKey in d then Some(d[ValueKey]) else None,
          if attributes != map[] then Some(attributes) else None))
  }

  /**
   * `MealData.to_dict`: `None` when the value is missing or empty; otherwise
   * `{"value": value}` updated with the attributes, which win on a clash.
   */
  function MealToDict(m: MealData): (r: Option<MealDict>)
    ensures r.None? <==> m.value.None? || m.value.value == ""
    ensures r.Some? ==> r.value.Keys == {ValueKey} + (if m.attributes.Some? then m.attributes.value.Keys else {})
    ensures r.Some? && m.attributes.Some? ==> forall k | k in m.attributes.value :: r.value[k] == m.attributes.value[k]
    ensures r.Some? && (m.attributes.None? || ValueKey !in m.attributes.value) ==> r.value[ValueKey] == m.value.value
  {
    if m.value.None? || m.value.value == "" then None
    else
      var result := map[ValueKey := m.value.value];
      if m.attributes.Some? && m.attributes.value != map[] then Some(result + m.attributes.value)
      else Some(result)
  }

  /** A stored meal with a non-empty value survives `to_dict(from_dict(d))` unchanged. */
  lemma MealDictRoundTrip(d: MealDict)
    requires ValueKey in d && d[ValueKey] != ""
    ensures MealToDict(MealFromDict(Some(d)).value) == Some(d)
  {
    var m := MealFromDict(Some(d)).value;
    var r := MealToDict(m).value;
    if m.attributes.Some? {
      assert m.attributes.value.Keys == d.Keys - {ValueKey};
      assert r.Keys == d.Keys;
    } else {
      assert d.Keys <= {ValueKey};
      assert r.Keys == d.Keys;
    }
    assert r[ValueKey] == d[ValueKey];
    assert forall k | k in r :: r[k] == d[k];
    assert r == d;
  }

  /**
   * A meal with a non-empty value and, if any, a non-empty attribute map without
   * a "value" key survives `from_dict(to_dict(m))` unchanged.
   */
  lemma MealDataRoundTrip(m: MealData)
    requires m.value.Some? && m.value.value != ""
    requires m.attributes.Some? ==> m.attributes.value != map[] && ValueKey !in m.attributes.value
    ensures MealToDict(m).Some? && MealFromDict(MealToDict(m)) == Some(m)
  {
    var d := MealToDict(m).value;
    var back := MealFromDict(Some(d)).value;
    if m.attributes.Some? {
      assert back.attributes.value == m.attributes.value;
    }
  }

  /** `DayMenuData`: the resolved plan of one date. */
  datatype DayMenuData = DayMenuData(
    date: Date,
    week: int,
    dayNumber: int,
    dayName: string,
    menuName: Option<string>,
    isClosed: bool,
    dayAttrs: map<string, string>,
    mainCourse: Option<MealData>,
    secondCourse: Option<MealData>,
    side: Option<MealData>,
    fruit: Option<MealData>)
  {
    /** `get_meal_data(meal_type)`: the field named by the slot. */
    function GetMealData(slot: MealSlot): Option<MealData> {
      match slot
      case MainCourse => mainCourse
      case SecondCourse => secondCourse
      case Side => side
      case Fruit => fruit
    }

    /** `DayMenuData.to_dict`; the date stays an ordinal (its ISO text is not modelled). */
    function ToDict(): (r: DayMenuDict)
      ensures r.date == date && r.week == week && r.dayNumber == dayNumber && r.dayName == dayName
      ensures r.menuName == menuName && r.isClosed == isClosed && r.dayAttrs == dayAttrs
      ensures forall slot: MealSlot :: r.Meal(slot) == MealDictOf(GetMealData(slot))
    {
      DayMenuDict(date, week, dayNumber, dayName, menuName, isClosed, dayAttrs,
        MealDictOf(mainCourse), MealDictOf(secondCourse), MealDictOf(side), MealDictOf(fruit))
    }
  }

  /** `x.to_dict() if x else None` for an optional meal (a `MealData` object is always truthy). */
  function MealDictOf(m: Option<MealData>): (r: Option<MealDict>)
    ensures r.Some? <==> m.Some? && m.value.value.Some? && m.value.value.value != ""
    ensures r.Some? ==> r.value.Keys == {ValueKey} + (if m.value.attributes.Some? then m.value.attributes.value.Keys else {})
  {
    match m
    case None => None
    case Some(meal) => MealToDict(meal)
  }

  /** The dictionary `DayMenuData.to_dict` returns. */
  datatype DayMenuDict = DayMenuDict(
    date: Date,
    week: int,
    dayNumber: int,
    dayName: string,
    menuName: Option<string>,
    isClosed: bool,
    dayAttrs: map<string, string>,
    mainCourse: Option<MealDict>,
    secondCourse: Option<MealDict>,
    side: Option<MealDict>,
    fruit: Option<MealDict>)
  {
    function Meal(slot: MealSlot): Option<MealDict> {
      match slot
      case MainCourse => mainCourse
      case SecondCourse => secondCourse
      case Side => side
      case Fruit => fruit
    }
  }

  /** `CoordinatorData`: today's record, the next open day's record if any, and the cycle length. */
  datatype CoordinatorData = CoordinatorData(today: DayMenuData, next: Option<DayMenuData>, totalWeeks: int)

  /** `MenuInfo`. */
  datatype MenuInfo = MenuInfo(
    menuId: string,
    menuName: Option<string>,
    effectiveDate: Date,
    totalWeeks: int,
    menuData: MenuData)

  /** One entry of the document's `menus` map; every key may be absent. */
  datatype StoredMenu = StoredMenu(
    name: Option<string>,
    effectiveDate: Option<DateText>,
    totalWeeks: Option<int>,
    data: Option<MenuData>)

  /** The exceptions `MenuInfo.from_config` lets through. */
  datatype ConfigError = MissingEffectiveDate | InvalidEffectiveDate

  /**
   * `MenuInfo.from_config`: the effective date is required and must parse
   * (KeyError / ValueError otherwise); the name may be `None`; `total_weeks`
   * defaults to 4 and `menu_data` to `{}`.
   */
  function MenuFromConfig(menuId: string, info: StoredMenu): (r: Result<MenuInfo, ConfigError>)
    ensures r.Err? <==> info.effectiveDate.None? || info.effectiveDate.value.NotIso?
    ensures info.effectiveDate.None? ==> r == Err(MissingEffectiveDate)
    ensures r.Ok? ==> r.value.menuId == menuId && r.value.menuName == info.name
    ensures r.Ok? ==> r.value.effectiveDate == info.effectiveDate.value.date
    ensures r.Ok? && info.totalWeeks.None? ==> r.value.totalWeeks == 4
    ensures r.Ok? && info.totalWeeks.Some? ==> r.value.totalWeeks == info.totalWeeks.value
    ensures r.Ok? && info.data.None? ==> r.value.menuData == map[]
    ensures r.Ok? && info.data.Some? ==> r.value.menuData == info.data.value
  {
    match info.effectiveDate
    case None => Err(MissingEffectiveDate)
    case Some(NotIso) => Err(InvalidEffectiveDate)
    case Some(Iso(d)) =>
      Ok(MenuInfo(
        menuId, info.name, d,
        match info.totalWeeks case None => 4 case Some(t) => t,
        match info.data case None => map[] case Some(md) => md))
  }

  /** `ClosurePeriod`: an inclusive range of dates; nothing forces `start <= end`. */
  datatype ClosurePeriod = ClosurePeriod(start: Date, end: Date) {
    /** `ClosurePeriod.contains`. */
    predicate Contains(d: Date) {
      start <= d <= end
    }
  }

  /** A stored closure period `{"start": ..., "end": ...}`; either key may be absent. */
  datatype StoredPeriod = StoredPeriod(start: Option<DateText>, end: Option<DateText>)

  /**
   * `ClosurePeriod.from_dict`: `None` when a key is missing or a date does not
   * parse; the order of the two dates is not checked.
   */
  function ClosureFromDict(data: StoredPeriod): (r: Option<ClosurePeriod>)
    ensures r.Some? <==> data.start.Some? && data.start.value.Iso? && data.end.Some? && data.end.value.Iso?
    ensures r.Some? ==> r.value.start == data.start.value.date && r.value.end == data.end.value.date
  {
    match (data.start, data.end)
    case (Some(Iso(s)), Some(Iso(e))) => Some(ClosurePeriod(s, e))
    case _ => None
  }

  /** A period closes both of its end dates and neither neighbouring day. */
  lemma {:induction false} PeriodBoundsInclusive(p: ClosurePeriod)
    requires p.start <= p.end
    ensures p.Contains(p.start) && p.Contains(p.end)
    ensures !p.Contains(p.start - 1) && !p.Contains(p.end + 1)
  {
  }

  /** A period stored with its dates inverted closes no date at all. */
  lemma {:induction false} InvertedPeriodIsEmpty(p: ClosurePeriod, d: Date)
    requires p.start > p.end
    ensures !p.Contains(d)
  {
  }

  /** The resolved day's slots and its dictionary form agree slot by slot. */
  lemma {:induction false} ToDictMealsAgree(day: DayMenuData, slot: MealSlot)
    ensures day.ToDict().Meal(slot).Some? ==> day.GetMealData(slot).Some?
    ensures day.GetMealData(slot).None? ==> day.ToDict().Meal(slot).None?
    ensures day.GetMealData(slot).Some? && day.GetMealData(slot).value.value.Some? && day.GetMealData(slot).value.value.value != ""
      ==> day.ToDict().Meal(slot).Some? && ValueKey in day.ToDict().Meal(slot).value
  {
  }
}
