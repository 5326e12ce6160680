/**
  process_simple_summary_csv, from the table the CSV reader produced to the
  sorted, enriched table handed to the PDF renderer.

  The method ProcessSimpleSummaryCsv follows the source step by step: it
  updates one working table column by column and leaves early on a missing
  column or a raised exception. Transform is the same pipeline as one
  function, and the lemmas below are stated about Transform. ProcessRow is
  an independent, row-at-a-time account of the same computation; it is
  proved to agree with the column-at-a-time pipeline.
 */
module CsvProcessor {
  import opened Cells
  import opened Commission
  import opened Frames

  const Surch := "Surch"
  const Settlement := "Settlement"
  const WdTrxs := "WD Trxs"
  const SurchargeAmtCol := "Surcharge amt"
  const AverageWdCol := "Average WD amount"
  const DailyVaultCol := "Daily Vault AVG"
  const CommissionCol := "Commission"
  const GroupCol := "Group"
  const SurchargeWds := "Surcharge WDs"
  const SettlementDate := "Settlement Date"
  const Terminal := "Terminal"

  /** The fixed averaging period of Daily Vault AVG, in days. */
  const Days := 30

  /** The columns the loop at the start cleans of currency marks, in this order. */
  const CurrencyColumns: seq<string> := [Surch, Settlement]

  /** Columns whose absence ends the transform with the empty table. */
  const RequiredColumns: set<string> := {Surch, Settlement, WdTrxs}

  /** Columns the transform writes. */
  const ReassignedColumns: set<string> :=
    {Surch, Settlement, WdTrxs, SurchargeAmtCol, AverageWdCol, DailyVaultCol, CommissionCol}

  /** Columns removed before sorting. */
  const DroppedColumns: set<string> := {SettlementDate, Terminal, GroupCol}

  /**
    The column names are distinct: the pairs of equal length differ in one
    character. In particular no column the transform writes is one it
    drops, "Group" or "Surcharge WDs".
   */
  lemma ColumnNamesDistinct()
    ensures Settlement != CommissionCol && SurchargeWds != SurchargeAmtCol
    ensures SettlementDate != DailyVaultCol && GroupCol != Surch
    ensures ReassignedColumns !! DroppedColumns
    ensures SurchargeWds !in ReassignedColumns && GroupCol !in ReassignedColumns
  {
    assert Settlement[0] != CommissionCol[0];
    assert SurchargeWds[10] != SurchargeAmtCol[10];
    assert SettlementDate[0] != DailyVaultCol[0];
    assert GroupCol[0] != Surch[0];
  }

  /** The exception that ends the transform; @logger.catch turns each into a return of None. */
  datatype Failure =
    | ParseFailure(column: string)       // astype(float) meets a value float() rejects
    | NonNumericProduct                  // a float times a text cell of "Surcharge WDs"
    | DropKeyError(missing: set<string>) // df.drop names columns the table does not have

  /** What process_simple_summary_csv returns: a table, the empty DataFrame, or None. */
  datatype Outcome = Done(table: Table) | Empty | Error(failure: Failure)

  // ---------------------------------------------------------------------------
  // Cleaning (the loop over "Surch" and "Settlement", then "WD Trxs")
  // ---------------------------------------------------------------------------

  /**
    replace(r"[\$,)]", "", regex=True).astype(float) on one cell: text is
    stripped of currency marks and parsed, a number or NaN passes through.
   */
  function CleanCurrency(c: Cell): (r: Option<Cell>)
    ensures r.Some? ==> !r.value.Str?
    ensures !c.Str? ==> r == Some(c)
    ensures c.Str? ==> (r.Some? <==> ParseDecimal(StripCurrency(c.s)).Some?)
  {
    match c
    case Str(s) =>
      (match ParseDecimal(StripCurrency(s))
       case Some(v) => Some(Num(v))
       case None => None)
    case _ => Some(c)
  }

  /** astype(float) on one cell, without stripping anything. */
  function AsFloat(c: Cell): (r: Option<Cell>)
    ensures r.Some? ==> !r.value.Str?
    ensures !c.Str? ==> r == Some(c)
    ensures c.Str? ==> (r.Some? <==> ParseDecimal(c.s).Some?)
  {
    match c
    case Str(s) =>
      (match ParseDecimal(s)
       case Some(v) => Some(Num(v))
       case None => None)
    case _ => Some(c)
  }

  /** The conversion of one column: with stripping for the currency columns, without for "WD Trxs". */
  function Convert(c: Cell, strip: bool): Option<Cell> {
    if strip then CleanCurrency(c) else AsFloat(c)
  }

  function ConvertOr(c: Cell, strip: bool): Cell {
    match Convert(c, strip)
    case Some(v) => v
    case None => c
  }

  /** Every cell of column col converts. */
  predicate ColumnConverts(t: Table, col: string, strip: bool) {
    forall i :: 0 <= i < |t.rows| ==> Convert(Get(t.rows[i], col), strip).Some?
  }

  /** df[col] = df[col]....astype(float): None when a cell fails to convert, which raises. */
  function CleanColumn(t: Table, col: string, strip: bool): (r: Option<Table>)
    ensures r.Some? <==> ColumnConverts(t, col, strip)
    ensures r.Some? ==> r.value.cols == t.cols + {col} && |r.value.rows| == |t.rows|
    ensures r.Some? && WellFormed(t) ==> WellFormed(r.value)
    ensures r.Some? ==> forall i :: 0 <= i < |t.rows| ==>
              Some(Get(r.value.rows[i], col)) == Convert(Get(t.rows[i], col), strip) &&
              r.value.rows[i] == t.rows[i][col := Get(r.value.rows[i], col)]
  {
    if ColumnConverts(t, col, strip) then Some(SetColumn(t, col, r => ConvertOr(Get(r, col), strip)))
    else None
  }

  /** Where the transform stands after part of the cleaning loop. */
  datatype Stage = Continue(df: Table) | Stop(outcome: Outcome)

  /** One iteration of the loop over the currency columns. */
  function CleanCurrencyStep(df: Table, col: string): (r: Stage)
    ensures col !in df.cols ==> r == Stop(Empty)
    ensures col in df.cols && !ColumnConverts(df, col, true) ==> r == Stop(Error(ParseFailure(col)))
    ensures col in df.cols && ColumnConverts(df, col, true) ==>
              r.Continue? && r.df.cols == df.cols && |r.df.rows| == |df.rows|
  {
    if col in df.cols then
      match CleanColumn(df, col, true)
      case Some(cleaned) => Continue(cleaned)
      case None => Stop(Error(ParseFailure(col)))
    else Stop(Empty)
  }

  /** The iterations of the loop over the columns cols that remain. */
  function CleanCurrencyColumns(df: Table, cols: seq<string>): (r: Stage)
    ensures r.Continue? ==> r.df.cols == df.cols && |r.df.rows| == |df.rows|
    ensures r.Continue? ==> forall k :: 0 <= k < |cols| ==> cols[k] in df.cols
    ensures r.Continue? && WellFormed(df) ==> WellFormed(r.df)
    ensures r.Stop? ==> r.outcome == Empty || exists k :: 0 <= k < |cols| && r.outcome == Error(ParseFailure(cols[k]))
    decreases |cols|
  {
    if cols == [] then Continue(df)
    else
      match CleanCurrencyStep(df, cols[0])
      case Stop(o) => Stop(o)
      case Continue(cleaned) => CleanCurrencyColumns(cleaned, cols[1..])
  }

  // ---------------------------------------------------------------------------
  // Derived metrics
  // ---------------------------------------------------------------------------

  /**
    The rule of "Surcharge amt" and of "Average WD amount": the amount per
    withdrawal rounded to cents, 0 when the withdrawal count is not
    positive (NaN included, since NaN > 0 is false), and NaN when the
    amount is NaN.
   */
  function PerWithdrawal(amount: Cell, wd: Cell): (r: Cell)
    ensures !(wd.Num? && wd.x > 0.0) ==> r == Num(0.0)
    ensures wd.Num? && wd.x > 0.0 && amount.Num? ==>
              r.Num? && IsHundredths(r.x) && Abs(r.x - amount.x / wd.x) <= 0.005
    ensures wd.Num? && wd.x > 0.0 && !amount.Num? ==> r == Missing
  {
    if wd.Num? && wd.x > 0.0 then
      if amount.Num? then Num(Round2(amount.x / wd.x)) else Missing
    else Num(0.0)
  }

  /** The rule of "Daily Vault AVG": the settlement spread over Days days, rounded to cents. */
  function DailyVaultAvg(settlement: Cell): (r: Cell)
    ensures r.Num? <==> settlement.Num?
    ensures r.Num? ==> IsHundredths(r.x) && Abs(r.x - settlement.x / Days as real) <= 0.005
    ensures !r.Num? ==> r == Missing
  {
    if settlement.Num? then Num(Round2(settlement.x / Days as real)) else Missing
  }

  function SurchargeAmtStep(df: Table): (r: Table)
    ensures r.cols == df.cols + {SurchargeAmtCol} && |r.rows| == |df.rows|
    ensures forall i :: 0 <= i < |df.rows| ==>
              r.rows[i] == df.rows[i][SurchargeAmtCol := PerWithdrawal(Get(df.rows[i], Surch), Get(df.rows[i], WdTrxs))]
  {
    SetColumn(df, SurchargeAmtCol, r => PerWithdrawal(Get(r, Surch), Get(r, WdTrxs)))
  }

  function AverageWdStep(df: Table): (r: Table)
    ensures r.cols == df.cols + {AverageWdCol} && |r.rows| == |df.rows|
    ensures forall i :: 0 <= i < |df.rows| ==>
              r.rows[i] == df.rows[i][AverageWdCol := PerWithdrawal(Get(df.rows[i], Settlement), Get(df.rows[i], WdTrxs))]
  {
    SetColumn(df, AverageWdCol, r => PerWithdrawal(Get(r, Settlement), Get(r, WdTrxs)))
  }

  function DailyVaultStep(df: Table): (r: Table)
    ensures r.cols == df.cols + {DailyVaultCol} && |r.rows| == |df.rows|
    ensures forall i :: 0 <= i < |df.rows| ==>
              r.rows[i] == df.rows[i][DailyVaultCol := DailyVaultAvg(Get(df.rows[i], Settlement))]
  {
    SetColumn(df, DailyVaultCol, r => DailyVaultAvg(Get(r, Settlement)))
  }

  // ---------------------------------------------------------------------------
  // Commission
  // ---------------------------------------------------------------------------

  /** The rate column: extracted from "Group" when the table has it, 0.0 in every row otherwise. */
  function CommissionRateStep(df: Table): (r: Table)
    ensures r.cols == df.cols + {CommissionCol} && |r.rows| == |df.rows|
    ensures WellFormed(df) ==> WellFormed(r)
    ensures forall i :: 0 <= i < |r.rows| ==>
              r.rows[i] == df.rows[i][CommissionCol := Get(r.rows[i], CommissionCol)]
    ensures GroupCol !in df.cols ==> forall i :: 0 <= i < |r.rows| ==> Get(r.rows[i], CommissionCol) == Num(0.0)
    ensures GroupCol in df.cols ==> forall i :: 0 <= i < |r.rows| ==>
              Get(r.rows[i], CommissionCol) == Num(CommissionRate(Get(df.rows[i], GroupCol)))
  {
    if GroupCol in df.cols then SetColumn(df, CommissionCol, r => Num(CommissionRate(Get(r, GroupCol))))
    else SetColumn(df, CommissionCol, r => Num(0.0))
  }

  /**
    One element of a float column times one element of another column:
    NaN on either side gives NaN, and a text cell raises TypeError (None).
   */
  function MulCells(a: Cell, b: Cell): (r: Option<Cell>)
    ensures r.None? <==> a.Str? || b.Str?
    ensures r.Some? ==> (r.value.Num? <==> a.Num? && b.Num?)
    ensures r.Some? && r.value.Num? ==> r.value.x == a.x * b.x
    ensures r.Some? && !r.value.Num? ==> r.value == Missing
  {
    if a.Str? || b.Str? then None
    else if a.Num? && b.Num? then Some(Num(a.x * b.x))
    else Some(Missing)
  }

  function MulOr(a: Cell, b: Cell): Cell {
    match MulCells(a, b)
    case Some(c) => c
    case None => a
  }

  /** Every product of the commission rate and "Surcharge WDs" is defined. */
  predicate ProductsDefined(df: Table) {
    forall i :: 0 <= i < |df.rows| ==> MulCells(Get(df.rows[i], CommissionCol), Get(df.rows[i], SurchargeWds)).Some?
  }

  /**
    df["Commission"] = df["Commission"] * df["Surcharge WDs"] when that
    column exists, None when the product raises; without the column the
    rate stays as it is.
   */
  function CommissionTotalStep(df: Table): (r: Option<Table>)
    ensures SurchargeWds !in df.cols ==> r == Some(df)
    ensures SurchargeWds in df.cols ==> (r.Some? <==> ProductsDefined(df))
    ensures r.Some? && SurchargeWds in df.cols ==> r.value.cols == df.cols + {CommissionCol}
    ensures r.Some? ==> |r.value.rows| == |df.rows|
    ensures r.Some? && WellFormed(df) ==> WellFormed(r.value)
    ensures r.Some? && SurchargeWds in df.cols ==> forall i :: 0 <= i < |df.rows| ==>
              Some(Get(r.value.rows[i], CommissionCol)) == MulCells(Get(df.rows[i], CommissionCol), Get(df.rows[i], SurchargeWds)) &&
              r.value.rows[i] == df.rows[i][CommissionCol := Get(r.value.rows[i], CommissionCol)]
  {
    if SurchargeWds in df.cols then
      if ProductsDefined(df) then
        Some(SetColumn(df, CommissionCol, r => MulOr(Get(r, CommissionCol), Get(r, SurchargeWds))))
      else None
    else Some(df)
  }

  // ---------------------------------------------------------------------------
  // The whole transform
  // ---------------------------------------------------------------------------

  /** The steps after "WD Trxs" is cleaned: metrics, commission, drop and sort. */
  function Enrich(cleaned: Table): (o: Outcome)
    ensures !o.Empty?
    ensures o.Error? ==> o.failure == NonNumericProduct || (o.failure.DropKeyError? && o.failure.missing != {})
    ensures o.Done? ==> |o.table.rows| == |cleaned.rows|
  {
    var withRate := CommissionRateStep(DailyVaultStep(AverageWdStep(SurchargeAmtStep(cleaned))));
    match CommissionTotalStep(withRate)
    case None => Error(NonNumericProduct)
    case Some(withTotal) =>
      match DropColumns(withTotal, DroppedColumns)
      case None => Error(DropKeyError(DroppedColumns - withTotal.cols))
      case Some(reshaped) => Done(Table(reshaped.cols, SortValuesDesc(reshaped.rows, Surch)))
  }

  /** process_simple_summary_csv on a table already read. */
  function Transform(raw: Table): (o: Outcome)
    ensures o.Done? ==> |o.table.rows| == |raw.rows|
  {
    match CleanCurrencyColumns(raw, CurrencyColumns)
    case Stop(o) => o
    case Continue(df) =>
      if WdTrxs !in df.cols then Empty
      else
        match CleanColumn(df, WdTrxs, false)
        case None => Error(ParseFailure(WdTrxs))
        case Some(cleaned) => Enrich(cleaned)
  }

  /**
    The source's control flow: one working table, updated in place column by
    column, with an early return at each missing column and each raised
    exception.
   */
  method ProcessSimpleSummaryCsv(raw: Table) returns (o: Outcome)
    requires WellFormed(raw)
    ensures o == Transform(raw)
    ensures o == Empty <==> EndsEmpty(raw)
    ensures o.Done? <==> EndsDone(raw)
    ensures o.Done? ==> IsProcessedTable(raw, o.table)
  {
    TransformOutcomes(raw);
    if Transform(raw).Done? {
      TransformDone(raw);
    }
    var df := raw;
    for k := 0 to |CurrencyColumns|
      invariant WellFormed(df)
      invariant forall j :: 0 <= j < k ==> CurrencyColumns[j] in df.cols
      invariant CleanCurrencyColumns(df, CurrencyColumns[k..]) == CleanCurrencyColumns(raw, CurrencyColumns)
    {
      var col := CurrencyColumns[k];
      if col in df.cols {
        var cleaned := CleanColumn(df, col, true);
        if cleaned.None? {
          return Error(ParseFailure(col));
        }
        df := cleaned.value;
      } else {
        return Empty;
      }
    }
    if WdTrxs in df.cols {
      var cleaned := CleanColumn(df, WdTrxs, false);
      if cleaned.None? {
        return Error(ParseFailure(WdTrxs));
      }
      df := cleaned.value;
    } else {
      return Empty;
    }
    // The guards of the three metric steps always hold here, so their
    // branches that return the empty table are never taken.
    assert Surch in df.cols && Settlement in df.cols && WdTrxs in df.cols;
    df := SurchargeAmtStep(df);
    df := AverageWdStep(df);
    df := DailyVaultStep(df);
    df := CommissionRateStep(df);
    if SurchargeWds in df.cols {
      if !ProductsDefined(df) {
        return Error(NonNumericProduct);
      }
    }
    df := CommissionTotalStep(df).value;
    var reshaped := DropColumns(df, DroppedColumns);
    if reshaped.None? {
      return Error(DropKeyError(DroppedColumns - df.cols));
    }
    df := reshaped.value;
    df := Table(df.cols, SortValuesDesc(df.rows, Surch));
    return Done(df);
  }

  // ---------------------------------------------------------------------------
  // The row-at-a-time reference
  // ---------------------------------------------------------------------------

  /** The final "Commission" of a row: rate times "Surcharge WDs" where that column exists. */
  function CommissionTotal(rate: real, hasSurchargeWds: bool, wds: Cell): (r: Cell)
    ensures !hasSurchargeWds ==> r == Num(rate)
    ensures hasSurchargeWds ==> (r.Num? <==> wds.Num?)
  {
    if !hasSurchargeWds then Num(rate)
    else if wds.Num? then Num(rate * wds.x)
    else Missing
  }

  /** With "Surcharge WDs" and a cell that is not text, the total is the column product's element. */
  lemma CommissionTotalIsProduct(rate: real, wds: Cell)
    requires !wds.Str?
    ensures MulCells(Num(rate), wds) == Some(CommissionTotal(rate, true, wds))
  {
    var m := MulCells(Num(rate), wds);
    if wds.Num? {
      assert m.Some? && m.value.Num? && m.value.x == rate * wds.x;
      assert m.value == Num(rate * wds.x) == CommissionTotal(rate, true, wds);
    } else {
      assert m.Some? && m.value == Missing == CommissionTotal(rate, true, wds);
    }
  }

  /** The three metric columns of a row agree with the row's own cleaned inputs. */
  predicate MetricsHold(r: Row) {
    && Get(r, SurchargeAmtCol) == PerWithdrawal(Get(r, Surch), Get(r, WdTrxs))
    && Get(r, AverageWdCol) == PerWithdrawal(Get(r, Settlement), Get(r, WdTrxs))
    && Get(r, DailyVaultCol) == DailyVaultAvg(Get(r, Settlement))
  }

  /**
    One input row through the whole transform, for a table that has every
    column the transform reads and drops. None when a cell of the row makes
    the transform raise.
   */
  function ProcessRow(r: Row, hasSurchargeWds: bool): (o: Option<Row>)
    ensures o.Some? <==>
              && CleanCurrency(Get(r, Surch)).Some?
              && CleanCurrency(Get(r, Settlement)).Some?
              && AsFloat(Get(r, WdTrxs)).Some?
              && !(hasSurchargeWds && Get(r, SurchargeWds).Str?)
    ensures o.Some? ==> o.value.Keys == (r.Keys + ReassignedColumns) - DroppedColumns
    ensures o.Some? ==> forall c :: c in r && c !in ReassignedColumns && c !in DroppedColumns ==> o.value[c] == r[c]
    ensures o.Some? ==>
              && CleanCurrency(Get(r, Surch)) == Some(o.value[Surch])
              && CleanCurrency(Get(r, Settlement)) == Some(o.value[Settlement])
              && AsFloat(Get(r, WdTrxs)) == Some(o.value[WdTrxs])
    ensures o.Some? ==> MetricsHold(o.value)
    ensures o.Some? ==> o.value[CommissionCol] == CommissionTotal(CommissionRate(Get(r, GroupCol)), hasSurchargeWds, Get(r, SurchargeWds))
  {
    var surch := CleanCurrency(Get(r, Surch));
    var settlement := CleanCurrency(Get(r, Settlement));
    var wd := AsFloat(Get(r, WdTrxs));
    if surch.None? || settlement.None? || wd.None? then None
    else if hasSurchargeWds && Get(r, SurchargeWds).Str? then None
    else
      var s, st, w := surch.value, settlement.value, wd.value;
      var rate := CommissionRate(Get(r, GroupCol));
      Some(r[Surch := s][Settlement := st][WdTrxs := w]
            [SurchargeAmtCol := PerWithdrawal(s, w)]
            [AverageWdCol := PerWithdrawal(st, w)]
            [DailyVaultCol := DailyVaultAvg(st)]
            [CommissionCol := CommissionTotal(rate, hasSurchargeWds, Get(r, SurchargeWds))]
           - DroppedColumns)
  }

  predicate RowsProcess(raw: Table) {
    forall i :: 0 <= i < |raw.rows| ==> ProcessRow(raw.rows[i], SurchargeWds in raw.cols).Some?
  }

  function ProcessedRows(raw: Table): (rows: seq<Row>)
    requires RowsProcess(raw)
    ensures |rows| == |raw.rows|
  {
    seq(|raw.rows|, i requires 0 <= i < |raw.rows| => ProcessRow(raw.rows[i], SurchargeWds in raw.cols).value)
  }

  // ---------------------------------------------------------------------------
  // Outcomes
  // ---------------------------------------------------------------------------

  /**
    The column checks end the transform with the empty table: "Surch" is
    missing, or "Surch" cleans and "Settlement" is missing, or both clean
    and "WD Trxs" is missing.
   */
  predicate EndsEmpty(raw: Table) {
    || Surch !in raw.cols
    || (ColumnConverts(raw, Surch, true) && Settlement !in raw.cols)
    || (ColumnConverts(raw, Surch, true) && Settlement in raw.cols && ColumnConverts(raw, Settlement, true) && WdTrxs !in raw.cols)
  }

  /** The transform returns a table: every column it reads and drops is there, and no row raises. */
  predicate EndsDone(raw: Table) {
    RequiredColumns <= raw.cols && DroppedColumns <= raw.cols && RowsProcess(raw)
  }

  /** What the transform promises of the table it returns. */
  predicate IsProcessedTable(raw: Table, out: Table)
    requires RowsProcess(raw)
  {
    && WellFormed(out)
    && out.cols == (raw.cols + ReassignedColumns) - DroppedColumns
    && |out.rows| == |raw.rows|
    && SortedDesc(out.rows, Surch)
    && multiset(out.rows) == multiset(ProcessedRows(raw))
  }

  /** Cleaning one column leaves every other column of every row as it was. */
  lemma CleanColumnKeepsOthers(t: Table, col: string, strip: bool, other: string)
    requires CleanColumn(t, col, strip).Some? && other != col
    ensures forall i :: 0 <= i < |t.rows| ==> Get(CleanColumn(t, col, strip).value.rows[i], other) == Get(t.rows[i], other)
    ensures forall s :: ColumnConverts(CleanColumn(t, col, strip).value, other, s) == ColumnConverts(t, other, s)
  {
  }

  /** A row after the three cleaning steps. */
  function CleanedRow(r: Row): Row {
    r[Surch := ConvertOr(Get(r, Surch), true)]
     [Settlement := ConvertOr(Get(r, Settlement), true)]
     [WdTrxs := ConvertOr(Get(r, WdTrxs), false)]
  }

  /** Every cell of the three cleaned columns converts. */
  predicate AllConvert(raw: Table) {
    ColumnConverts(raw, Surch, true) && ColumnConverts(raw, Settlement, true) && ColumnConverts(raw, WdTrxs, false)
  }

  function CleanedTable(raw: Table): (t: Table)
    ensures |t.rows| == |raw.rows|
  {
    Table(raw.cols, seq(|raw.rows|, i requires 0 <= i < |raw.rows| => CleanedRow(raw.rows[i])))
  }

  /** The loop over the currency columns, unrolled: "Surch" first, then "Settlement". */
  lemma CleanLoop(raw: Table)
    ensures Surch !in raw.cols ==> CleanCurrencyColumns(raw, CurrencyColumns) == Stop(Empty)
    ensures Surch in raw.cols && !ColumnConverts(raw, Surch, true) ==>
              CleanCurrencyColumns(raw, CurrencyColumns) == Stop(Error(ParseFailure(Surch)))
    ensures Surch in raw.cols && ColumnConverts(raw, Surch, true) ==>
              CleanCurrencyColumns(raw, CurrencyColumns) == CleanCurrencyStep(CleanColumn(raw, Surch, true).value, Settlement)
  {
    assert CurrencyColumns[0] == Surch && CurrencyColumns[1..] == [Settlement];
    assert [Settlement][0] == Settlement && [Settlement][1..] == [];
    if Surch in raw.cols && ColumnConverts(raw, Surch, true) {
      var t1 := CleanColumn(raw, Surch, true).value;
      assert CleanCurrencyColumns(t1, [Settlement]) == CleanCurrencyStep(t1, Settlement) by {
        match CleanCurrencyStep(t1, Settlement)
        case Stop(o) =>
        case Continue(t2) =>
          assert CleanCurrencyColumns(t2, []) == Continue(t2);
      }
    }
  }

  /** The three cleaning steps, when each succeeds, give CleanedTable. */
  lemma CleanedTableIs(raw: Table, t1: Table, t2: Table, t3: Table)
    requires CleanColumn(raw, Surch, true) == Some(t1) && CleanColumn(t1, Settlement, true) == Some(t2)
    requires CleanColumn(t2, WdTrxs, false) == Some(t3) && RequiredColumns <= raw.cols
    ensures t3 == CleanedTable(raw)
  {
    CleanColumnKeepsOthers(raw, Surch, true, Settlement);
    CleanColumnKeepsOthers(raw, Surch, true, WdTrxs);
    CleanColumnKeepsOthers(t1, Settlement, true, WdTrxs);
    forall i | 0 <= i < |raw.rows|
      ensures t3.rows[i] == CleanedRow(raw.rows[i])
    {
    }
  }

  /** With the three columns present, cleaning either raises or yields CleanedTable. */
  lemma CleaningStage(raw: Table)
    requires WellFormed(raw) && RequiredColumns <= raw.cols
    ensures !AllConvert(raw) ==> Transform(raw).Error?
    ensures AllConvert(raw) ==> Transform(raw) == Enrich(CleanedTable(raw))
  {
    CleanLoop(raw);
    if !ColumnConverts(raw, Surch, true) {
      return;
    }
    var t1 := CleanColumn(raw, Surch, true).value;
    CleanColumnKeepsOthers(raw, Surch, true, Settlement);
    CleanColumnKeepsOthers(raw, Surch, true, WdTrxs);
    if !ColumnConverts(raw, Settlement, true) {
      return;
    }
    var t2 := CleanColumn(t1, Settlement, true).value;
    CleanColumnKeepsOthers(t1, Settlement, true, WdTrxs);
    if !ColumnConverts(raw, WdTrxs, false) {
      return;
    }
    var t3 := CleanColumn(t2, WdTrxs, false).value;
    CleanedTableIs(raw, t1, t2, t3);
  }

  /** A cleaned row after the three metric steps and the rate step, for a table with "Group". */
  function RatedRow(c: Row): Row {
    c[SurchargeAmtCol := PerWithdrawal(Get(c, Surch), Get(c, WdTrxs))]
     [AverageWdCol := PerWithdrawal(Get(c, Settlement), Get(c, WdTrxs))]
     [DailyVaultCol := DailyVaultAvg(Get(c, Settlement))]
     [CommissionCol := Num(CommissionRate(Get(c, GroupCol)))]
  }

  /** Cleaning and rating leave "Group" and "Surcharge WDs" alone and put the rate in "Commission". */
  lemma RatedRowFacts(r: Row)
    ensures Get(RatedRow(CleanedRow(r)), SurchargeWds) == Get(r, SurchargeWds)
    ensures Get(RatedRow(CleanedRow(r)), CommissionCol) == Num(CommissionRate(Get(r, GroupCol)))
  {
    ColumnNamesDistinct();
  }

  lemma RatedRows(t: Table)
    requires GroupCol in t.cols
    ensures forall i :: 0 <= i < |t.rows| ==>
              CommissionRateStep(DailyVaultStep(AverageWdStep(SurchargeAmtStep(t)))).rows[i] == RatedRow(t.rows[i])
  {
  }

  /** ProcessRow is the cleaned, rated row with its total commission and without the dropped columns. */
  lemma ProcessRowStages(r: Row, hasSurchargeWds: bool)
    requires ProcessRow(r, hasSurchargeWds).Some?
    ensures ProcessRow(r, hasSurchargeWds).value ==
              RatedRow(CleanedRow(r))[CommissionCol := CommissionTotal(CommissionRate(Get(r, GroupCol)), hasSurchargeWds, Get(r, SurchargeWds))]
              - DroppedColumns
  {
  }

  /** The total commission step, one row at a time. */
  lemma CommissionTotalRow(t: Table, i: nat, rate: real, wds: Cell)
    requires i < |t.rows| && CommissionTotalStep(t).Some?
    requires Get(t.rows[i], CommissionCol) == Num(rate) && Get(t.rows[i], SurchargeWds) == wds
    ensures CommissionTotalStep(t).value.rows[i] == t.rows[i][CommissionCol := CommissionTotal(rate, SurchargeWds in t.cols, wds)]
  {
    if SurchargeWds !in t.cols {
      assert CommissionCol in t.rows[i];
      assert t.rows[i][CommissionCol := Num(rate)] == t.rows[i];
    } else {
      var v := CommissionTotalStep(t).value;
      assert Some(Get(v.rows[i], CommissionCol)) == MulCells(Num(rate), wds);
      assert Get(v.rows[i], CommissionCol) == CommissionTotal(rate, true, wds);
    }
  }

  /** The table after the metric and rate steps. */
  function RatedTable(raw: Table): Table {
    CommissionRateStep(DailyVaultStep(AverageWdStep(SurchargeAmtStep(CleanedTable(raw)))))
  }

  /** Without "Group" the drop raises, whatever happened to the commission. */
  lemma EnrichWithoutGroup(raw: Table)
    requires GroupCol !in raw.cols
    ensures Enrich(CleanedTable(raw)).Error?
  {
    var t4 := RatedTable(raw);
    assert GroupCol !in t4.cols;
    if CommissionTotalStep(t4).Some? {
      assert GroupCol !in CommissionTotalStep(t4).value.cols;
      assert DropColumns(CommissionTotalStep(t4).value, DroppedColumns).None?;
    }
  }

  /** The rated row i, with "Group", in terms of the raw row i. */
  lemma RatedTableRow(raw: Table, i: nat)
    requires WellFormed(raw) && RequiredColumns <= raw.cols && AllConvert(raw) && GroupCol in raw.cols
    requires i < |raw.rows|
    ensures |RatedTable(raw).rows| == |raw.rows|
    ensures RatedTable(raw).rows[i] == RatedRow(CleanedRow(raw.rows[i]))
    ensures Get(RatedTable(raw).rows[i], SurchargeWds) == Get(raw.rows[i], SurchargeWds)
    ensures Get(RatedTable(raw).rows[i], CommissionCol) == Num(CommissionRate(Get(raw.rows[i], GroupCol)))
    ensures ProcessRow(raw.rows[i], SurchargeWds in raw.cols).Some? <==>
              !(SurchargeWds in raw.cols && Get(raw.rows[i], SurchargeWds).Str?)
  {
    RatedRows(CleanedTable(raw));
    RatedRowFacts(raw.rows[i]);
    assert Convert(Get(raw.rows[i], Surch), true).Some?;
    assert Convert(Get(raw.rows[i], Settlement), true).Some?;
    assert Convert(Get(raw.rows[i], WdTrxs), false).Some?;
  }

  /** The product fails only with "Surcharge WDs", and then at some row. */
  lemma ProductFailureRow(raw: Table) returns (i: nat)
    requires WellFormed(raw) && RequiredColumns <= raw.cols && AllConvert(raw) && GroupCol in raw.cols
    requires CommissionTotalStep(RatedTable(raw)).None?
    ensures SurchargeWds in raw.cols && i < |raw.rows| && |RatedTable(raw).rows| == |raw.rows|
    ensures MulCells(Get(RatedTable(raw).rows[i], CommissionCol), Get(RatedTable(raw).rows[i], SurchargeWds)).None?
  {
    var t4 := RatedTable(raw);
    ColumnNamesDistinct();
    assert t4.cols == raw.cols + {SurchargeAmtCol, AverageWdCol, DailyVaultCol, CommissionCol};
    assert SurchargeWds in t4.cols && !ProductsDefined(t4);
    i :| 0 <= i < |t4.rows| && MulCells(Get(t4.rows[i], CommissionCol), Get(t4.rows[i], SurchargeWds)).None?;
  }

  /** A text cell of "Surcharge WDs" makes both the table and that row raise. */
  lemma EnrichProductFails(raw: Table)
    requires WellFormed(raw) && RequiredColumns <= raw.cols && AllConvert(raw) && GroupCol in raw.cols
    requires CommissionTotalStep(RatedTable(raw)).None?
    ensures Enrich(CleanedTable(raw)).Error? && !RowsProcess(raw)
  {
    var i := ProductFailureRow(raw);
    RatedTableRow(raw, i);
    assert ProcessRow(raw.rows[i], true).None?;
  }

  /** A dropped column that is missing makes the drop raise. */
  lemma EnrichDropFails(raw: Table)
    requires WellFormed(raw) && RequiredColumns <= raw.cols && AllConvert(raw) && GroupCol in raw.cols
    requires CommissionTotalStep(RatedTable(raw)).Some?
    requires !(DroppedColumns <= raw.cols)
    ensures Enrich(CleanedTable(raw)).Error?
  {
    ColumnNamesDistinct();
    assert RatedTable(raw).cols == raw.cols + {SurchargeAmtCol, AverageWdCol, DailyVaultCol, CommissionCol};
    var t5 := CommissionTotalStep(RatedTable(raw)).value;
    assert !(DroppedColumns <= t5.cols);
  }

  /** When the product is defined every row processes. */
  lemma EnrichRowsProcess(raw: Table)
    requires WellFormed(raw) && RequiredColumns <= raw.cols && AllConvert(raw) && GroupCol in raw.cols
    requires CommissionTotalStep(RatedTable(raw)).Some?
    ensures RowsProcess(raw)
  {
    var t4 := RatedTable(raw);
    RatedTableKeepsInputs(raw);
    forall i | 0 <= i < |raw.rows|
      ensures ProcessRow(raw.rows[i], SurchargeWds in raw.cols).Some?
    {
      RatedTableRow(raw, i);
      if SurchargeWds in raw.cols {
        assert MulCells(Get(t4.rows[i], CommissionCol), Get(t4.rows[i], SurchargeWds)).Some?;
      }
    }
  }

  /** The metric and rate steps do not add "Surcharge WDs": the rated table has it exactly when the raw one does. */
  lemma RatedTableKeepsInputs(raw: Table)
    ensures SurchargeWds in RatedTable(raw).cols <==> SurchargeWds in raw.cols
  {
    var t1 := CleanedTable(raw);
    var t2 := SurchargeAmtStep(t1);
    var t3 := AverageWdStep(t2);
    var t4 := DailyVaultStep(t3);
    assert SurchargeWds[10] != SurchargeAmtCol[10];
    assert SurchargeWds in t2.cols <==> SurchargeWds in raw.cols;
    assert |SurchargeWds| != |AverageWdCol|;
    assert SurchargeWds in t3.cols <==> SurchargeWds in t2.cols;
    assert |SurchargeWds| != |DailyVaultCol|;
    assert SurchargeWds in t4.cols <==> SurchargeWds in t3.cols;
    assert |SurchargeWds| != |CommissionCol|;
  }

  /** Row i after the total commission step and the drop is ProcessRow of raw row i. */
  lemma TotalDroppedRow(raw: Table, i: nat)
    requires WellFormed(raw) && RequiredColumns <= raw.cols && AllConvert(raw) && GroupCol in raw.cols
    requires CommissionTotalStep(RatedTable(raw)).Some? && RowsProcess(raw) && i < |raw.rows|
    ensures |CommissionTotalStep(RatedTable(raw)).value.rows| == |raw.rows|
    ensures CommissionTotalStep(RatedTable(raw)).value.rows[i] - DroppedColumns ==
              ProcessRow(raw.rows[i], SurchargeWds in raw.cols).value
  {
    var r := raw.rows[i];
    var t4 := RatedTable(raw);
    var total := CommissionTotal(CommissionRate(Get(r, GroupCol)), SurchargeWds in raw.cols, Get(r, SurchargeWds));
    RatedTableRow(raw, i);
    RatedTableKeepsInputs(raw);
    CommissionTotalRow(t4, i, CommissionRate(Get(r, GroupCol)), Get(r, SurchargeWds));
    assert CommissionTotalStep(t4).value.rows[i] == RatedRow(CleanedRow(r))[CommissionCol := total];
    ProcessRowStages(r, SurchargeWds in raw.cols);
  }

  /** The rows after the drop are the rows ProcessRow gives. */
  lemma EnrichRows(raw: Table)
    requires WellFormed(raw) && RequiredColumns <= raw.cols && AllConvert(raw) && DroppedColumns <= raw.cols
    requires CommissionTotalStep(RatedTable(raw)).Some? && RowsProcess(raw)
    ensures DropColumns(CommissionTotalStep(RatedTable(raw)).value, DroppedColumns).Some?
    ensures DropColumns(CommissionTotalStep(RatedTable(raw)).value, DroppedColumns).value ==
              Table((raw.cols + ReassignedColumns) - DroppedColumns, ProcessedRows(raw))
  {
    var t4 := RatedTable(raw);
    assert t4.cols == raw.cols + {SurchargeAmtCol, AverageWdCol, DailyVaultCol, CommissionCol};
    var t5 := CommissionTotalStep(t4).value;
    assert t5.cols == t4.cols;
    var t6 := DropColumns(t5, DroppedColumns).value;
    forall i | 0 <= i < |raw.rows|
      ensures t6.rows[i] == ProcessedRows(raw)[i]
    {
      TotalDroppedRow(raw, i);
    }
    assert t6.rows == ProcessedRows(raw);
  }

  /** With every row processed and every dropped column present, the transform returns the sorted processed rows. */
  lemma EnrichDone(raw: Table)
    requires WellFormed(raw) && RequiredColumns <= raw.cols && AllConvert(raw) && DroppedColumns <= raw.cols
    requires CommissionTotalStep(RatedTable(raw)).Some? && RowsProcess(raw)
    ensures Enrich(CleanedTable(raw)) ==
              Done(Table((raw.cols + ReassignedColumns) - DroppedColumns, SortValuesDesc(ProcessedRows(raw), Surch)))
  {
    EnrichRows(raw);
    var t5 := CommissionTotalStep(RatedTable(raw)).value;
    var t6 := DropColumns(t5, DroppedColumns).value;
    assert Enrich(CleanedTable(raw)) == Done(Table(t6.cols, SortValuesDesc(t6.rows, Surch)));
  }

  /** After cleaning, the rest of the transform returns a table exactly when no row raises and the dropped columns are there. */
  lemma EnrichStage(raw: Table)
    requires WellFormed(raw) && RequiredColumns <= raw.cols && AllConvert(raw)
    ensures Enrich(CleanedTable(raw)).Done? <==> DroppedColumns <= raw.cols && RowsProcess(raw)
    ensures Enrich(CleanedTable(raw)).Done? ==>
              Enrich(CleanedTable(raw)).table ==
              Table((raw.cols + ReassignedColumns) - DroppedColumns, SortValuesDesc(ProcessedRows(raw), Surch))
  {
    if GroupCol !in raw.cols {
      EnrichWithoutGroup(raw);
      return;
    }
    if CommissionTotalStep(RatedTable(raw)).None? {
      EnrichProductFails(raw);
      return;
    }
    EnrichRowsProcess(raw);
    if !(DroppedColumns <= raw.cols) {
      EnrichDropFails(raw);
      return;
    }
    EnrichDone(raw);
  }

  /**
    Without one of the three cleaned columns the transform never returns a
    table: it returns the empty table when the checks reach the missing
    column, and raises a parse failure when an earlier column fails first.
   */
  lemma MissingRequired(raw: Table)
    requires WellFormed(raw) && !(RequiredColumns <= raw.cols)
    ensures Transform(raw) == Empty <==> EndsEmpty(raw)
    ensures Transform(raw) == Empty || (Transform(raw).Error? && Transform(raw).failure.ParseFailure?)
  {
    CleanLoop(raw);
    if Surch !in raw.cols || !ColumnConverts(raw, Surch, true) {
      return;
    }
    var t1 := CleanColumn(raw, Surch, true).value;
    CleanColumnKeepsOthers(raw, Surch, true, Settlement);
    if Settlement !in raw.cols || !ColumnConverts(raw, Settlement, true) {
      return;
    }
    var t2 := CleanColumn(t1, Settlement, true).value;
    assert WdTrxs !in t2.cols;
  }

  /** A cell of a cleaned column that does not convert makes its row raise. */
  lemma NotAllConvertRow(raw: Table)
    requires !AllConvert(raw)
    ensures !RowsProcess(raw)
  {
    var i: int;
    if !ColumnConverts(raw, Surch, true) {
      i :| 0 <= i < |raw.rows| && !Convert(Get(raw.rows[i], Surch), true).Some?;
    } else if !ColumnConverts(raw, Settlement, true) {
      i :| 0 <= i < |raw.rows| && !Convert(Get(raw.rows[i], Settlement), true).Some?;
    } else {
      i :| 0 <= i < |raw.rows| && !Convert(Get(raw.rows[i], WdTrxs), false).Some?;
    }
    assert ProcessRow(raw.rows[i], SurchargeWds in raw.cols).None?;
  }

  /**
    The transform returns the empty table exactly on the column checks of
    EndsEmpty, and a table exactly when the columns it reads and drops are
    all there and no row raises; in every other case it returns None.
   */
  lemma TransformOutcomes(raw: Table)
    requires WellFormed(raw)
    ensures Transform(raw) == Empty <==> EndsEmpty(raw)
    ensures Transform(raw).Done? <==> EndsDone(raw)
  {
    if !(RequiredColumns <= raw.cols) {
      MissingRequired(raw);
      return;
    }
    CleaningStage(raw);
    if !AllConvert(raw) {
      NotAllConvertRow(raw);
      return;
    }
    EnrichStage(raw);
  }

  /**
    The table the transform returns: every column of the input except the
    dropped ones, plus the derived ones; one row per input row, each the row
    ProcessRow gives; and the rows sorted on "Surch", largest first.
   */
  lemma TransformDone(raw: Table)
    requires WellFormed(raw) && Transform(raw).Done?
    ensures EndsDone(raw) && IsProcessedTable(raw, Transform(raw).table)
  {
    TransformOutcomes(raw);
    CleaningStage(raw);
    EnrichStage(raw);
    var rows := ProcessedRows(raw);
    var cols := (raw.cols + ReassignedColumns) - DroppedColumns;
    assert forall i :: 0 <= i < |rows| ==> rows[i].Keys == cols;
    SortKeepsColumns(rows, Surch, cols);
  }

  /**
    Without "Group" the transform raises once the three cleaned columns are
    there: the drop names a column the table does not have. The rate 0.0 the
    commission step falls back to never reaches the caller.
   */
  lemma GroupMissingIsError(raw: Table)
    requires WellFormed(raw) && RequiredColumns <= raw.cols && GroupCol !in raw.cols
    ensures Transform(raw).Error?
  {
    CleaningStage(raw);
    if AllConvert(raw) {
      EnrichWithoutGroup(raw);
    }
  }

  /**
    An amount written in accounting style, "(5.00)", does not parse: the
    currency marks remove the closing parenthesis but not the opening one,
    so the transform raises on "Surch".
   */
  lemma ParenthesisedSurchFails(raw: Table, i: nat, k: nat)
    requires WellFormed(raw) && Surch in raw.cols && i < |raw.rows|
    requires Get(raw.rows[i], Surch).Str? && k < |Get(raw.rows[i], Surch).s| && Get(raw.rows[i], Surch).s[k] == '('
    ensures Transform(raw) == Error(ParseFailure(Surch))
  {
    var s := Get(raw.rows[i], Surch).s;
    StripCurrencyKeepsChar(s, k);
    var t := StripCurrency(s);
    var m :| 0 <= m < |t| && t[m] == '(';
    ParseDecimalRejectsParen(t, m);
    assert !ColumnConverts(raw, Surch, true);
    CleanLoop(raw);
  }

  /**
    Every row of the returned table is one input row run through ProcessRow,
    so each carries the metrics of its own cleaned cells.
   */
  lemma OutputRows(raw: Table)
    requires WellFormed(raw) && Transform(raw).Done?
    ensures RowsProcess(raw)
    ensures forall k :: 0 <= k < |Transform(raw).table.rows| ==>
              && MetricsHold(Transform(raw).table.rows[k])
              && exists j :: 0 <= j < |raw.rows| && Transform(raw).table.rows[k] == ProcessedRows(raw)[j]
  {
    TransformDone(raw);
    var out := Transform(raw).table;
    var rows := ProcessedRows(raw);
    forall k | 0 <= k < |out.rows|
      ensures MetricsHold(out.rows[k])
      ensures exists j :: 0 <= j < |raw.rows| && out.rows[k] == rows[j]
    {
      assert out.rows[k] in multiset(rows);
      var j :| 0 <= j < |rows| && rows[j] == out.rows[k];
    }
  }
}
