/**
 * `get_currencies` from the extracted cell texts onward, and
 * `filter_currencies`. A table pairs the i-th day count with the i-th rate
 * text, normalises the rate, and derives from the single retroactive date
 * the reference month, the date reached after the day count and that date's
 * month. The filter keeps five columns and the rows whose month is at most
 * the horizon month, in their order.
 */
module Currencies {
  import opened Wrappers
  import opened Calendar
  import opened PyStr
  import opened DateText
  import opened Rates

  /** The `slcTaxa` values of the two tables. */
  datatype Tax = PTX | EUR

  /** `TAXA_DICT`: the name of the rate column of each table. */
  function RateColumn(tax: Tax): string {
    match tax
    case PTX => "usd_brl"
    case EUR => "eur_brl"
  }

  /**
   * One row of the table `get_currencies` returns: `days`, the rate column,
   * `date_retroactive` (the ISO text of the anchor), `month_year_reference`,
   * `date_step` and `month_year`.
   */
  datatype CurrencyRow = CurrencyRow(
    days: int,
    rate: string,
    dateRetroactive: string,
    monthYearReference: string,
    dateStep: Date,
    monthYear: string)

  datatype CurrencyFrame = CurrencyFrame(rateColumn: string, rows: seq<CurrencyRow>)

  /** Every `retroactive + relativedelta(days=n)` stays within 0001-01-01..9999-12-31. */
  predicate StepsInRange(retro: Date, days: seq<int>)
    requires ValidDate(retro)
  {
    forall i :: 0 <= i < |days| ==> AddDays(retro, days[i]).Some?
  }

  /** The row built from one day count and one rate text. */
  function RowOf(retro: Date, day: int, price: string): CurrencyRow
    requires ValidDate(retro) && AddDays(retro, day).Some?
  {
    var step := AddDays(retro, day).value;
    CurrencyRow(day, NormalizeRate(price), IsoDate(retro), MonthYear(retro), step, MonthYear(step))
  }

  /**
   * The table of one currency. The DataFrame constructor rejects columns of
   * different lengths; a day count that leaves the date range makes the
   * row-wise apply raise OverflowError.
   */
  function CurrencyFrameOf(tax: Tax, days: seq<int>, prices: seq<string>, retro: Date): (r: Result<CurrencyFrame>)
    requires ValidDate(retro)
    ensures r.Ok? <==> |days| == |prices| && StepsInRange(retro, days)
    ensures r.Err? ==> (r.failure == MalformedTable <==> |days| != |prices|)
    ensures r.Ok? ==> |r.value.rows| == |days| && r.value.rateColumn == RateColumn(tax)
  {
    if |days| != |prices| then Err(MalformedTable)
    else if !StepsInRange(retro, days) then Err(DateOutOfRange)
    else Ok(CurrencyFrame(RateColumn(tax), seq(|days|, i requires 0 <= i < |days| => RowOf(retro, days[i], prices[i]))))
  }

  /**
   * `get_currencies(soup, tax, retroactive_date)` once the cells are read:
   * the frame is built column by column, as the source assigns them.
   */
  method GetCurrencies(dayCells: seq<int>, priceCells: seq<string>, tax: Tax, retro: Date)
    returns (res: Result<CurrencyFrame>)
    requires ValidDate(retro)
    ensures res == CurrencyFrameOf(tax, dayCells, priceCells, retro)
  {
    if |dayCells| != |priceCells| {
      return Err(MalformedTable);
    }
    var n := |dayCells|;
    var rates := seq(n, i requires 0 <= i < n => NormalizeRate(priceCells[i]));
    var reference := MonthYear(retro);
    var steps: seq<Date> := [];
    var i := 0;
    while i < n
      invariant 0 <= i <= n && |steps| == i
      invariant forall j :: 0 <= j < i ==> AddDays(retro, dayCells[j]) == Some(steps[j])
    {
      var step := AddDays(retro, dayCells[i]);
      if step.None? {
        return Err(DateOutOfRange);
      }
      steps := steps + [step.value];
      i := i + 1;
    }
    var monthYears := seq(n, j requires 0 <= j < n => MonthYear(steps[j]));
    var isoRetro := IsoDate(retro);
    var rows := seq(n, j requires 0 <= j < n =>
      CurrencyRow(dayCells[j], rates[j], isoRetro, reference, steps[j], monthYears[j]));
    res := Ok(CurrencyFrame(RateColumn(tax), rows));
    assert rows == CurrencyFrameOf(tax, dayCells, priceCells, retro).value.rows;
  }

  /**
   * Row i pairs day i with rate i; its step date lies `days` days after the
   * anchor; every row carries the same anchor text and reference month.
   */
  lemma CurrencyRowsAnchored(tax: Tax, days: seq<int>, prices: seq<string>, retro: Date, i: int)
    requires ValidDate(retro) && CurrencyFrameOf(tax, days, prices, retro).Ok?
    requires 0 <= i < |days|
    ensures var row := CurrencyFrameOf(tax, days, prices, retro).value.rows[i];
            row.days == days[i] && row.rate == NormalizeRate(prices[i])
            && ValidDate(row.dateStep) && Ordinal(row.dateStep) == Ordinal(retro) + days[i]
            && row.monthYear == MonthYear(row.dateStep)
            && row.dateRetroactive == IsoDate(retro) && row.monthYearReference == MonthYear(retro)
  {
    assert AddDays(retro, days[i]).Some?;
  }

  /** A non-negative day count never gives a month before the reference month. */
  lemma MonthYearNotBeforeReference(tax: Tax, days: seq<int>, prices: seq<string>, retro: Date, i: int)
    requires ValidDate(retro) && CurrencyFrameOf(tax, days, prices, retro).Ok?
    requires 0 <= i < |days| && days[i] >= 0
    ensures var row := CurrencyFrameOf(tax, days, prices, retro).value.rows[i];
            AtMost(row.monthYearReference, row.monthYear)
  {
    assert AddDays(retro, days[i]).Some?;
    var step := AddDays(retro, days[i]).value;
    AddDaysMonthMonotone(retro, days[i]);
    MonthYearOrder(retro, step);
  }

  // ------------------------------------------------------- filter_currencies

  /** A USD row after `currencies['eur_brl'] = currency_eur['eur_brl']`. */
  datatype MergedRow = MergedRow(usd: CurrencyRow, eurBrl: string)

  /** The columns `filter_currencies` keeps: days, usd_brl, eur_brl, date_retroactive, month_year. */
  datatype OutputRow = OutputRow(days: int, usdBrl: string, eurBrl: string, dateRetroactive: string, monthYear: string)

  /** `df[cols]` on one row. */
  function SelectColumns(m: MergedRow): OutputRow {
    OutputRow(m.usd.days, m.usd.rate, m.eurBrl, m.usd.dateRetroactive, m.usd.monthYear)
  }

  /** `df[df.month_year <= max_month]`: the rows whose month is at most maxMonth, in order. */
  function KeepUpTo(rows: seq<OutputRow>, maxMonth: string): (r: seq<OutputRow>)
    ensures |r| <= |rows|
    ensures forall i :: 0 <= i < |r| ==> AtMost(r[i].monthYear, maxMonth)
    ensures forall x :: x in r ==> x in rows
    ensures forall x :: x in rows && AtMost(x.monthYear, maxMonth) ==> x in r
  {
    if rows == [] then []
    else
      var rest := KeepUpTo(rows[1..], maxMonth);
      if AtMost(rows[0].monthYear, maxMonth) then [rows[0]] + rest else rest
  }

  /** `filter_currencies(df, max_month)`. */
  function FilterCurrencies(rows: seq<MergedRow>, maxMonth: string): seq<OutputRow> {
    KeepUpTo(seq(|rows|, i requires 0 <= i < |rows| => SelectColumns(rows[i])), maxMonth)
  }

  /** a is b with some elements removed, the rest kept in order. */
  predicate Subsequence<T(==)>(a: seq<T>, b: seq<T>) {
    if a == [] then true
    else if b == [] then false
    else (a[0] == b[0] && Subsequence(a[1..], b[1..])) || Subsequence(a, b[1..])
  }

  /** The filter keeps the order of the rows. */
  lemma {:induction false} KeepUpToSubsequence(rows: seq<OutputRow>, maxMonth: string)
    ensures Subsequence(KeepUpTo(rows, maxMonth), rows)
  {
    if rows != [] {
      KeepUpToSubsequence(rows[1..], maxMonth);
    }
  }

  /** Every row the filter drops has a month after maxMonth. */
  lemma KeepUpToDropped(rows: seq<OutputRow>, maxMonth: string, x: OutputRow)
    requires x in rows && x !in KeepUpTo(rows, maxMonth)
    ensures Below(maxMonth, x.monthYear)
  {
    AtMostNegation(x.monthYear, maxMonth);
  }

  /** Each kept row keeps its multiplicity, each dropped row disappears. */
  lemma {:induction false} KeepUpToCounts(rows: seq<OutputRow>, maxMonth: string, x: OutputRow)
    ensures multiset(KeepUpTo(rows, maxMonth))[x]
            == if AtMost(x.monthYear, maxMonth) then multiset(rows)[x] else 0
  {
    if rows != [] {
      var rest := KeepUpTo(rows[1..], maxMonth);
      KeepUpToCounts(rows[1..], maxMonth, x);
      assert rows == [rows[0]] + rows[1..];
      assert multiset(rows) == multiset{rows[0]} + multiset(rows[1..]);
      if AtMost(rows[0].monthYear, maxMonth) {
        assert multiset(KeepUpTo(rows, maxMonth)) == multiset{rows[0]} + multiset(rest);
      } else {
        assert KeepUpTo(rows, maxMonth) == rest;
      }
    }
  }

  /** Filtering an already filtered table changes nothing. */
  lemma {:induction false} KeepUpToIdempotent(rows: seq<OutputRow>, maxMonth: string)
    ensures KeepUpTo(KeepUpTo(rows, maxMonth), maxMonth) == KeepUpTo(rows, maxMonth)
  {
    if rows != [] {
      KeepUpToIdempotent(rows[1..], maxMonth);
    }
  }
}
