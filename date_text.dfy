/**
 * The text forms of a date the core writes: `str(date)`, the ISO 8601
 * extended calendar date `YYYY-MM-DD`, and `strftime('%Y-%m')`, the
 * reduced-precision month `YYYY-MM` (section 4.1.2.3 of ISO 8601:2004).
 * Because month keys have a fixed width and zero padding, Python's string
 * order on them is the order of the months.
 */
module DateText {
  import opened Calendar
  import opened PyStr

  /** `'%04d-%02d' % (y, m)`. */
  function MonthKey(y: int, m: int): string
    requires MinYear <= y <= MaxYear && 1 <= m <= 12
  {
    Pad(y, 4) + "-" + Pad(m, 2)
  }

  /** `d.strftime('%Y-%m')`. */
  function MonthYear(d: Date): string
    requires ValidDate(d)
  {
    MonthKey(d.year, d.month)
  }

  /** `str(d)`, that is `d.isoformat()`. */
  function IsoDate(d: Date): string
    requires ValidDate(d)
  {
    Pad(d.year, 4) + "-" + Pad(d.month, 2) + "-" + Pad(d.day, 2)
  }

  /** Python `<` on month keys is the order of (year, month). */
  lemma MonthKeyBelow(y1: int, m1: int, y2: int, m2: int)
    requires MinYear <= y1 <= MaxYear && 1 <= m1 <= 12
    requires MinYear <= y2 <= MaxYear && 1 <= m2 <= 12
    ensures Below(MonthKey(y1, m1), MonthKey(y2, m2)) <==> y1 < y2 || (y1 == y2 && m1 < m2)
  {
    var u, v := "-" + Pad(m1, 2), "-" + Pad(m2, 2);
    assert MonthKey(y1, m1) == Pad(y1, 4) + u && MonthKey(y2, m2) == Pad(y2, 4) + v;
    BelowConcat(Pad(y1, 4), u, Pad(y2, 4), v);
    PadBelow(y1, y2, 4);
    PadInjective(y1, y2, 4);
    assert u[1..] == Pad(m1, 2) && v[1..] == Pad(m2, 2);
    PadBelow(m1, m2, 2);
  }

  /** Python `<` and `<=` on the month keys of two dates follow their months. */
  lemma MonthYearOrder(d: Date, e: Date)
    requires ValidDate(d) && ValidDate(e)
    ensures Below(MonthYear(d), MonthYear(e)) <==> MonthIndex(d) < MonthIndex(e)
    ensures AtMost(MonthYear(d), MonthYear(e)) <==> MonthIndex(d) <= MonthIndex(e)
  {
    MonthKeyBelow(d.year, d.month, e.year, e.month);
    MonthKeyBelow(e.year, e.month, d.year, d.month);
    BelowTrichotomy(MonthYear(d), MonthYear(e));
  }
}
