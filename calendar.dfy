/**
 * Dates as Python's `date.toordinal()` numbers (0001-01-01 is 1, a Monday), and
 * ISO date strings as the outcome of `date.fromisoformat`.
 */
module Calendar {

  /** A proleptic Gregorian ordinal. */
  type Date = int

  /** A stored ISO date string: the date it parses to, or a string `date.fromisoformat` rejects. */
  datatype DateText = Iso(date: Date) | NotIso

  /** `date.weekday()`, defined by Python as `(toordinal() + 6) % 7`; 0 is Monday. */
  function Weekday(d: Date): (w: int)
    ensures 0 <= w < 7
    ensures w == 0 <==> (d - 1) % 7 == 0
  {
    (d + 6) % 7
  }

  /** `d - timedelta(days=d.weekday())`: the Monday of the calendar week holding `d`. */
  function MondayOf(d: Date): (m: Date)
    ensures Weekday(m) == 0
    ensures m <= d < m + 7
  {
    d - Weekday(d)
  }

  /** Seven days later is the same weekday, and the Monday moves by seven days too. */
  lemma {:induction false} MondayShifts(d: Date, k: int)
    ensures Weekday(d + 7 * k) == Weekday(d)
    ensures MondayOf(d + 7 * k) == MondayOf(d) + 7 * k
  {
    assert d + 7 * k + 6 == (d + 6) + 7 * k;
  }

  /** Every day from a Monday up to the following Sunday has that Monday. */
  lemma {:induction false} SameMondayWithinWeek(m: Date, i: int)
    requires Weekday(m) == 0 && 0 <= i < 7
    ensures MondayOf(m + i) == m
  {
    assert (m + 6) % 7 == 0;
    assert (m + i + 6) % 7 == i;
  }
}
