/**
 * `process_data`: one retroactive date anchors everything. From it come the
 * horizon month and both currency tables; the EUR rates are attached to the
 * USD rows by position and the merged table is cut at the horizon. Today's
 * date and the two extracted tables are parameters.
 */
module Pipeline {
  import opened Wrappers
  import opened Calendar
  import opened PyStr
  import opened DateText
  import opened Rates
  import opened Anchor
  import opened Currencies

  /** `currencies['eur_brl'] = currency_eur['eur_brl']` on tables of one length. */
  function AttachEur(usd: seq<CurrencyRow>, eur: seq<CurrencyRow>): (m: seq<MergedRow>)
    requires |usd| == |eur|
    ensures |m| == |usd|
    ensures forall i :: 0 <= i < |m| ==> m[i].usd == usd[i] && m[i].eurBrl == eur[i].rate
  {
    seq(|usd|, i requires 0 <= i < |usd| => MergedRow(usd[i], eur[i].rate))
  }

  /** What `process_data()` returns for a given day and the two extracted tables. */
  function ProcessDataOf(today: Date, usdDays: seq<int>, usdPrices: seq<string>,
                         eurDays: seq<int>, eurPrices: seq<string>): Result<seq<OutputRow>>
    requires ValidDate(today) && |usdDays| == |eurDays|
  {
    var retro := RetroactiveDate(today);
    match GetMaxMonth(retro)
    case Err(f) => Err(f)
    case Ok(maxMonth) =>
      match CurrencyFrameOf(PTX, usdDays, usdPrices, retro)
      case Err(f) => Err(f)
      case Ok(usd) =>
        match CurrencyFrameOf(EUR, eurDays, eurPrices, retro)
        case Err(f) => Err(f)
        case Ok(eur) => Ok(FilterCurrencies(AttachEur(usd.rows, eur.rows), maxMonth))
  }

  /** `process_data()`: the straight-line composition of the steps. */
  method ProcessData(today: Date, usdDays: seq<int>, usdPrices: seq<string>,
                     eurDays: seq<int>, eurPrices: seq<string>)
    returns (res: Result<seq<OutputRow>>)
    requires ValidDate(today) && |usdDays| == |eurDays|
    ensures res == ProcessDataOf(today, usdDays, usdPrices, eurDays, eurPrices)
  {
    var retroactiveDate := GetRetroactiveDate(today);
    var maxMonth := GetMaxMonth(retroactiveDate);
    if maxMonth.Err? {
      return Err(maxMonth.failure);
    }
    var currencies := GetCurrencies(usdDays, usdPrices, PTX, retroactiveDate);
    if currencies.Err? {
      return Err(currencies.failure);
    }
    var currencyEur := GetCurrencies(eurDays, eurPrices, EUR, retroactiveDate);
    if currencyEur.Err? {
      return Err(currencyEur.failure);
    }
    var merged := AttachEur(currencies.value.rows, currencyEur.value.rows);
    res := Ok(FilterCurrencies(merged, maxMonth.value));
  }

  /**
   * What `process_data()` needs to return a table: the horizon year stays at
   * most 9999, each table has one rate per day count, and every day count
   * keeps its step date in range.
   */
  predicate Succeeds(today: Date, usdDays: seq<int>, usdPrices: seq<string>,
                     eurDays: seq<int>, eurPrices: seq<string>)
    requires ValidDate(today)
  {
    var retro := RetroactiveDate(today);
    today.year < MaxYear && |usdPrices| == |usdDays| && |eurPrices| == |eurDays|
    && StepsInRange(retro, usdDays) && StepsInRange(retro, eurDays)
  }

  /**
   * The call fails exactly when the horizon year passes 9999, a table's two
   * columns differ in length, or a day count leaves the date range.
   */
  lemma ProcessDataFails(today: Date, usdDays: seq<int>, usdPrices: seq<string>,
                         eurDays: seq<int>, eurPrices: seq<string>)
    requires ValidDate(today) && |usdDays| == |eurDays|
    ensures ProcessDataOf(today, usdDays, usdPrices, eurDays, eurPrices).Ok?
            <==> Succeeds(today, usdDays, usdPrices, eurDays, eurPrices)
  {
    var retro := RetroactiveDate(today);
    var _ := GetMaxMonth(retro);
    var _ := CurrencyFrameOf(PTX, usdDays, usdPrices, retro);
    var _ := CurrencyFrameOf(EUR, eurDays, eurPrices, retro);
  }

  /**
   * The merged rows as `filter_currencies` sees them: the USD day count,
   * both rates, the anchor text and the USD row's month.
   */
  function MergedRows(retro: Date, usdDays: seq<int>, usdPrices: seq<string>, eurPrices: seq<string>): seq<OutputRow>
    requires ValidDate(retro) && StepsInRange(retro, usdDays)
    requires |usdPrices| == |usdDays| && |eurPrices| == |usdDays|
  {
    seq(|usdDays|, i requires 0 <= i < |usdDays| =>
      OutputRow(usdDays[i], NormalizeRate(usdPrices[i]), NormalizeRate(eurPrices[i]),
                IsoDate(retro), MonthYear(AddDays(retro, usdDays[i]).value)))
  }

  /** The horizon month of today's retroactive date is today's month one year on. */
  lemma MaxMonthOfToday(today: Date)
    requires ValidDate(today) && today.year < MaxYear
    ensures GetMaxMonth(RetroactiveDate(today)) == Ok(MonthKey(today.year + 1, today.month))
  {
    var retro := RetroactiveDate(today);
    assert retro.year == today.year && retro.month == today.month;
  }

  lemma ProcessDataSteps(today: Date, usdDays: seq<int>, usdPrices: seq<string>,
                         eurDays: seq<int>, eurPrices: seq<string>)
    requires ValidDate(today) && |usdDays| == |eurDays|
    requires Succeeds(today, usdDays, usdPrices, eurDays, eurPrices)
    ensures var retro := RetroactiveDate(today);
            ProcessDataOf(today, usdDays, usdPrices, eurDays, eurPrices).Ok?
            && GetMaxMonth(retro).Ok?
            && CurrencyFrameOf(PTX, usdDays, usdPrices, retro).Ok?
            && CurrencyFrameOf(EUR, eurDays, eurPrices, retro).Ok?
            && ProcessDataOf(today, usdDays, usdPrices, eurDays, eurPrices).value
               == FilterCurrencies(AttachEur(CurrencyFrameOf(PTX, usdDays, usdPrices, retro).value.rows,
                                             CurrencyFrameOf(EUR, eurDays, eurPrices, retro).value.rows),
                                   GetMaxMonth(retro).value)
  {
    ProcessDataFails(today, usdDays, usdPrices, eurDays, eurPrices);
    var retro := RetroactiveDate(today);
    var maxMonth := GetMaxMonth(retro);
    var usd := CurrencyFrameOf(PTX, usdDays, usdPrices, retro);
    var eur := CurrencyFrameOf(EUR, eurDays, eurPrices, retro);
    assert maxMonth.Ok? && usd.Ok? && eur.Ok?;
  }

  lemma SelectedAreMerged(retro: Date, usdDays: seq<int>, usdPrices: seq<string>,
                          eurDays: seq<int>, eurPrices: seq<string>)
    requires ValidDate(retro) && |usdDays| == |eurDays|
    requires CurrencyFrameOf(PTX, usdDays, usdPrices, retro).Ok?
    requires CurrencyFrameOf(EUR, eurDays, eurPrices, retro).Ok?
    ensures StepsInRange(retro, usdDays) && |usdPrices| == |usdDays| && |eurPrices| == |usdDays|
    ensures var merged := AttachEur(CurrencyFrameOf(PTX, usdDays, usdPrices, retro).value.rows,
                                    CurrencyFrameOf(EUR, eurDays, eurPrices, retro).value.rows);
            seq(|merged|, i requires 0 <= i < |merged| => SelectColumns(merged[i]))
            == MergedRows(retro, usdDays, usdPrices, eurPrices)
  {
    var merged := AttachEur(CurrencyFrameOf(PTX, usdDays, usdPrices, retro).value.rows,
                            CurrencyFrameOf(EUR, eurDays, eurPrices, retro).value.rows);
    var selected := seq(|merged|, i requires 0 <= i < |merged| => SelectColumns(merged[i]));
    var expected := MergedRows(retro, usdDays, usdPrices, eurPrices);
    forall i | 0 <= i < |usdDays|
      ensures selected[i] == expected[i]
    {
      CurrencyRowsAnchored(PTX, usdDays, usdPrices, retro, i);
      CurrencyRowsAnchored(EUR, eurDays, eurPrices, retro, i);
    }
  }

  /**
   * The result is the horizon filter of the merged rows: row i takes its day
   * count, USD rate, anchor text and month from USD row i and its EUR rate
   * from EUR row i.
   */
  lemma ProcessDataMerged(today: Date, usdDays: seq<int>, usdPrices: seq<string>,
                          eurDays: seq<int>, eurPrices: seq<string>)
    requires ValidDate(today) && |usdDays| == |eurDays|
    requires Succeeds(today, usdDays, usdPrices, eurDays, eurPrices)
    ensures ProcessDataOf(today, usdDays, usdPrices, eurDays, eurPrices).Ok?
    ensures var retro := RetroactiveDate(today);
            StepsInRange(retro, usdDays) && |usdPrices| == |usdDays| && |eurPrices| == |usdDays|
            && ProcessDataOf(today, usdDays, usdPrices, eurDays, eurPrices).value
               == KeepUpTo(MergedRows(retro, usdDays, usdPrices, eurPrices), MonthKey(today.year + 1, today.month))
  {
    var retro := RetroactiveDate(today);
    ProcessDataSteps(today, usdDays, usdPrices, eurDays, eurPrices);
    MaxMonthOfToday(today);
    SelectedAreMerged(retro, usdDays, usdPrices, eurDays, eurPrices);
  }

  /**
   * Every returned row carries the ISO text of the retroactive date and a
   * month no later than twelve months after today's; there are no more rows
   * than USD day counts.
   */
  lemma ProcessDataBounded(today: Date, usdDays: seq<int>, usdPrices: seq<string>,
                           eurDays: seq<int>, eurPrices: seq<string>)
    requires ValidDate(today) && |usdDays| == |eurDays|
    requires Succeeds(today, usdDays, usdPrices, eurDays, eurPrices)
    ensures ProcessDataOf(today, usdDays, usdPrices, eurDays, eurPrices).Ok?
    ensures var r := ProcessDataOf(today, usdDays, usdPrices, eurDays, eurPrices).value;
            |r| <= |usdDays|
            && forall i :: 0 <= i < |r| ==>
                 r[i].dateRetroactive == IsoDate(RetroactiveDate(today))
                 && AtMost(r[i].monthYear, MonthKey(today.year + 1, today.month))
  {
    ProcessDataMerged(today, usdDays, usdPrices, eurDays, eurPrices);
    var r := ProcessDataOf(today, usdDays, usdPrices, eurDays, eurPrices).value;
    forall i | 0 <= i < |r|
      ensures r[i].dateRetroactive == IsoDate(RetroactiveDate(today))
    {
      assert r[i] in r;
    }
  }

  /** With non-negative day counts no returned row lies before today's month. */
  lemma ProcessDataNotBeforeToday(today: Date, usdDays: seq<int>, usdPrices: seq<string>,
                                  eurDays: seq<int>, eurPrices: seq<string>)
    requires ValidDate(today) && |usdDays| == |eurDays|
    requires Succeeds(today, usdDays, usdPrices, eurDays, eurPrices)
    requires forall i :: 0 <= i < |usdDays| ==> usdDays[i] >= 0
    ensures ProcessDataOf(today, usdDays, usdPrices, eurDays, eurPrices).Ok?
    ensures var r := ProcessDataOf(today, usdDays, usdPrices, eurDays, eurPrices).value;
            forall i :: 0 <= i < |r| ==> AtMost(MonthKey(today.year, today.month), r[i].monthYear)
  {
    ProcessDataMerged(today, usdDays, usdPrices, eurDays, eurPrices);
    var retro := RetroactiveDate(today);
    var r := ProcessDataOf(today, usdDays, usdPrices, eurDays, eurPrices).value;
    forall i | 0 <= i < |r|
      ensures AtMost(MonthKey(today.year, today.month), r[i].monthYear)
    {
      assert r[i] in r;
      var j :| 0 <= j < |usdDays| && r[i].monthYear == MonthYear(AddDays(retro, usdDays[j]).value);
      MonthYearNotBeforeReference(PTX, usdDays, usdPrices, retro, j);
      CurrencyRowsAnchored(PTX, usdDays, usdPrices, retro, j);
    }
  }
}
