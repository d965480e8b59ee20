/**
 * The date anchor of a request: the retroactive date (the first Monday to
 * Friday of the current month, `get_retroactive_date`), the first day of the
 * month (`get_first_day_month`), the month twelve months ahead that bounds
 * the published horizon (`get_max_month`) and the two text forms of a date
 * that the source URL carries (`format_date`).
 */
module Anchor {
  import opened Wrappers
  import opened Calendar
  import opened PyStr
  import opened DateText

  /** Months between the retroactive date and the last month kept. */
  const MaxMonthHorizon := 12

  /** `today.replace(day=1)`: the day of today's month that lies `today.day - 1` days back. */
  function FirstDayOfMonth(today: Date): (r: Date)
    requires ValidDate(today)
    ensures ValidDate(r) && MonthIndex(r) == MonthIndex(today)
    ensures Ordinal(r) == Ordinal(today) - (today.day - 1)
  {
    Date(today.year, today.month, 1)
  }

  /**
   * The retroactive date of `today`: the first business day of its month.
   * It lies in the same month, among the first three days, and no earlier
   * day of that month is a business day.
   */
  function RetroactiveDate(today: Date): (r: Date)
    requires ValidDate(today)
    ensures ValidDate(r) && r.year == today.year && r.month == today.month
    ensures 1 <= r.day <= 3 && IsBusinessDay(r)
    ensures forall k :: 1 <= k < r.day ==> !IsBusinessDay(Date(r.year, r.month, k))
  {
    BusinessDayWithinThree(today.year, today.month);
    var first := FirstDayOfMonth(today);
    var second := Date(today.year, today.month, 2);
    if IsBusinessDay(first) then first
    else if IsBusinessDay(second) then second
    else Date(today.year, today.month, 3)
  }

  /**
   * `get_retroactive_date`: start on the 1st and add one day while the
   * weekday is Saturday or Sunday. The loop runs at most twice.
   */
  method GetRetroactiveDate(today: Date) returns (r: Date)
    requires ValidDate(today)
    ensures r == RetroactiveDate(today)
    ensures r.year == today.year && r.month == today.month && 1 <= r.day <= 3 && IsBusinessDay(r)
  {
    r := FirstDayOfMonth(today);
    while Weekday(r) % 7 !in [0, 1, 2, 3, 4]
      invariant ValidDate(r) && r.year == today.year && r.month == today.month && 1 <= r.day <= 3
      invariant forall k :: 1 <= k < r.day ==> !IsBusinessDay(Date(r.year, r.month, k))
      decreases 3 - r.day
    {
      BusinessDayWithinThree(r.year, r.month);
      OrdinalBounds(NextDay(r));
      r := AddDays(r, 1).value;
    }
  }

  /** The retroactive date depends only on the year and month: applying it again changes nothing. */
  lemma RetroactiveIdempotent(today: Date)
    requires ValidDate(today)
    ensures RetroactiveDate(RetroactiveDate(today)) == RetroactiveDate(today)
  {
  }

  /** Starting from the first day of the month gives the same retroactive date. */
  lemma RetroactiveFromFirstDay(today: Date)
    requires ValidDate(today)
    ensures RetroactiveDate(FirstDayOfMonth(today)) == RetroactiveDate(today)
    ensures FirstDayOfMonth(today).day <= RetroactiveDate(today).day
  {
  }

  /**
   * `get_max_month`: the month twelve months after x as `YYYY-MM`; a target
   * year past 9999 is an error.
   */
  function GetMaxMonth(x: Date): (r: Result<string>)
    requires ValidDate(x)
    ensures r.Ok? <==> x.year < MaxYear
    ensures r.Err? ==> r.failure == DateOutOfRange
    ensures r.Ok? ==> r.value == MonthKey(x.year + 1, x.month)
    ensures r.Ok? ==> |r.value| == 7 && Below(MonthYear(x), r.value)
  {
    match AddMonths(x, MaxMonthHorizon)
    case None => Err(DateOutOfRange)
    case Some(t) =>
      MonthKeyBelow(x.year, x.month, t.year, t.month);
      Ok(MonthYear(t))
  }

  /**
   * `format_date`: from `str(d)` = `YYYY-MM-DD`, the pieces between dashes in
   * reverse order joined by `/`, and the same text with the dashes removed.
   */
  function FormatDate(d: Date): (string, string)
    requires ValidDate(d)
  {
    var x := IsoDate(d);
    (JoinWith(Reversed(Split(x, '-')), "/"), RemoveChars(x, {'-'}))
  }

  /** Splitting `Y-M-D` at its dashes gives its three pieces. */
  lemma SplitThree(y: string, m: string, dd: string)
    requires '-' !in y && '-' !in m && '-' !in dd
    ensures Split(y + "-" + m + "-" + dd, '-') == [y, m, dd]
  {
    var tail := m + ['-'] + dd;
    assert y + "-" + m + "-" + dd == y + ['-'] + tail;
    SplitAt(y, '-', tail);
    SplitAt(m, '-', dd);
    SplitNone(dd, '-');
  }

  /** Reversing three pieces and joining them with `/`. */
  lemma ReverseJoinThree(y: string, m: string, dd: string)
    ensures JoinWith(Reversed([y, m, dd]), "/") == dd + "/" + m + "/" + y
  {
    var rev := [dd, m, y];
    calc {
      Reversed([y, m, dd]);
      { assert [y, m, dd][1..] == [m, dd]; }
      Reversed([m, dd]) + [y];
      { assert [m, dd][1..] == [dd]; }
      Reversed([dd]) + [m] + [y];
      { assert [dd][1..] == []; }
      rev;
    }
    calc {
      JoinWith(rev, "/");
      dd + "/" + JoinWith(rev[1..], "/");
      { assert rev[1..] == [m, y]; }
      dd + "/" + JoinWith([m, y], "/");
      { assert [m, y][1..] == [y]; }
      dd + "/" + (m + "/" + y);
    }
  }

  /** Removing the dashes of `Y-M-D` gives `YMD`. */
  lemma RemoveDashes(y: string, m: string, dd: string)
    requires '-' !in y && '-' !in m && '-' !in dd
    ensures RemoveChars(y + "-" + m + "-" + dd, {'-'}) == y + m + dd
  {
    var dash := {'-'};
    var a := y + "-";
    var b := a + m;
    var c := b + "-";
    assert RemoveChars("-", dash) == [];
    RemoveCharsNone(y, dash);
    RemoveCharsNone(m, dash);
    RemoveCharsNone(dd, dash);
    RemoveCharsConcat(y, "-", dash);
    assert RemoveChars(a, dash) == y;
    RemoveCharsConcat(a, m, dash);
    assert RemoveChars(b, dash) == y + m;
    RemoveCharsConcat(b, "-", dash);
    assert RemoveChars(c, dash) == y + m;
    RemoveCharsConcat(c, dd, dash);
  }

  lemma NoDashInPad(n: nat, w: nat)
    requires n < Pow10(w)
    ensures '-' !in Pad(n, w)
  {
    var s := Pad(n, w);
    assert forall i :: 0 <= i < |s| ==> IsDigit(s[i]);
  }

  /**
   * The first form is `DD/MM/YYYY`; the second is the ISO 8601 basic format
   * `YYYYMMDD` (section 4.1.2.2 of ISO 8601:2004).
   */
  lemma FormatDateForms(d: Date)
    requires ValidDate(d)
    ensures FormatDate(d).0 == Pad(d.day, 2) + "/" + Pad(d.month, 2) + "/" + Pad(d.year, 4)
    ensures FormatDate(d).1 == Pad(d.year, 4) + Pad(d.month, 2) + Pad(d.day, 2)
    ensures |FormatDate(d).0| == 10 && |FormatDate(d).1| == 8
  {
    NoDashInPad(d.year, 4);
    NoDashInPad(d.month, 2);
    NoDashInPad(d.day, 2);
    SplitThree(Pad(d.year, 4), Pad(d.month, 2), Pad(d.day, 2));
    ReverseJoinThree(Pad(d.year, 4), Pad(d.month, 2), Pad(d.day, 2));
    RemoveDashes(Pad(d.year, 4), Pad(d.month, 2), Pad(d.day, 2));
  }

  /** Both forms carry the same year, month and day, and either gives the date back. */
  lemma FormatDateFields(d: Date)
    requires ValidDate(d)
    ensures var (date1, date2) := FormatDate(d);
            |date2| == 8 && (forall i :: 0 <= i < 8 ==> IsDigit(date2[i]))
            && DigitsValue(date2[..4]) == d.year
            && DigitsValue(date2[4..6]) == d.month
            && DigitsValue(date2[6..]) == d.day
            && date1 == date2[6..] + "/" + date2[4..6] + "/" + date2[..4]
  {
    FormatDateForms(d);
    var y, m, dd := Pad(d.year, 4), Pad(d.month, 2), Pad(d.day, 2);
    var date2 := FormatDate(d).1;
    assert date2[..4] == y && date2[4..6] == m && date2[6..] == dd;
    PadValue(d.year, 4);
    PadValue(d.month, 2);
    PadValue(d.day, 2);
  }
}
