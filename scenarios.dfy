/**
  Worked examples of the transform on concrete inputs: the commission rate
  of a few "Group" texts, one complete report row, a row without
  withdrawals, and a report without the "Surch" column.
 */
module Scenarios {
  import opened Cells
  import opened Commission
  import opened Frames
  import opened CsvProcessor

  /** The scan passes over a stretch where no match can start. */
  lemma {:induction false} FindNumeralSkip(s: string, from: nat, to: nat)
    requires from <= to <= |s|
    requires forall k :: from <= k < to ==> !NumeralStartsAt(s, k)
    ensures FindNumeral(s, from) == FindNumeral(s, to)
    decreases |s| - from
  {
    if from < to {
      FindNumeralSkip(s, from + 1, to);
    }
  }

  /** A text that lacks sub's first character does not contain sub. */
  lemma {:induction false} LacksFirstChar(s: string, sub: string)
    requires |sub| > 0 && sub[0] !in s
    ensures !Contains(s, sub)
  {
    if |s| > 0 {
      assert s[0] != sub[0];
      assert sub[0] !in s[1..] by {
        assert forall k :: 0 <= k < |s| - 1 ==> s[1..][k] == s[k + 1];
      }
      LacksFirstChar(s[1..], sub);
    }
  }

  lemma ParseTwoAndAHalf()
    ensures ParseDecimal("2.5") == Some(2.5)
  {
    assert LeadingDigits("2.5") == 1;
    assert "2.5"[..1] == "2" && "2.5"[2..] == "5";
    assert DigitsValue("2") == 2 && DigitsValue("5") == 5;
  }

  lemma FindAfterWord()
    ensures FindNumeral("Commission 2.5", 0) == Some((11, 14))
  {
    var s := "Commission 2.5";
    FindNumeralSkip(s, 0, 11);
    assert DigitRunEnd(s, 12) == 12;
    assert DigitRunEnd(s, 14) == 14;
  }

  lemma RateAfterWord()
    ensures CommissionRate(Str("Commission 2.5")) == 2.5
  {
    var s := "Commission 2.5";
    assert "Commission" <= s;
    FindAfterWord();
    ParseTwoAndAHalf();
    assert s[11..14] == "2.5";
  }

  lemma RateBeforeWord()
    ensures CommissionRate(Str("5% Commission")) == 5.0
  {
    var s := "5% Commission";
    assert OccursAt(s, "Commission", 3);
    ContainsIff(s, "Commission");
    assert DigitRunEnd(s, 1) == 1;
    assert FindNumeral(s, 0) == Some((0, 1));
    assert s[0..1] == "5";
    assert LeadingDigits("5") == 1;
    assert DigitsValue("5") == 5;
  }

  lemma ParseMinusOneAndAHalf()
    ensures ParseDecimal("-1.5") == Some(-1.5)
  {
    assert "-1.5"[1..] == "1.5";
    assert LeadingDigits("1.5") == 1;
    assert "1.5"[..1] == "1" && "1.5"[2..] == "5";
    assert DigitsValue("1") == 1 && DigitsValue("5") == 5;
  }

  lemma FindNegative()
    ensures FindNumeral("Commission -1.5", 0) == Some((11, 15))
  {
    var s := "Commission -1.5";
    FindNumeralSkip(s, 0, 11);
    assert DigitRunEnd(s, 13) == 13;
    assert DigitRunEnd(s, 15) == 15;
  }

  /** The minus sign belongs to the numeral, so a negative rate is kept. */
  lemma RateNegative()
    ensures CommissionRate(Str("Commission -1.5")) == -1.5
  {
    var s := "Commission -1.5";
    assert "Commission" <= s;
    FindNegative();
    ParseMinusOneAndAHalf();
    assert s[11..15] == "-1.5";
  }

  /** The word without a numeral gives 0.0, and so does a cell that is not text. */
  lemma RateWithoutNumeral()
    ensures CommissionRate(Str("Commission")) == 0.0
    ensures CommissionRate(Num(2.5)) == 0.0
  {
    var s := "Commission";
    assert "Commission" <= s;
    FindNumeralSkip(s, 0, |s|);
  }

  /** The test for the word is case-sensitive: "commission" does not count. */
  lemma RateLowerCase()
    ensures CommissionRate(Str("commission 2.5")) == 0.0
  {
    var t := "commission 2.5";
    assert 'C' !in t;
    LacksFirstChar(t, "Commission");
  }

  // ---------------------------------------------------------------------------
  // One report row
  // ---------------------------------------------------------------------------

  /** "$" followed by a numeral without marks is stripped to the numeral. */
  lemma StripDollar(w: string)
    requires forall k :: 0 <= k < |w| ==> !IsCurrencyMark(w[k])
    ensures StripCurrency("$" + w) == w
  {
    StripCurrencyConcat("$", w);
    StripCurrencyChar('$');
    StripCurrencyKeeps(w);
  }

  lemma ParseTen()
    ensures ParseDecimal("10.00") == Some(10.0)
  {
    assert LeadingDigits("10.00") == 2;
    assert "10.00"[..2] == "10" && "10.00"[3..] == "00";
    assert "10"[..1] == "1" && "00"[..1] == "0";
    assert DigitsValue("10") == 10 && DigitsValue("00") == 0;
  }

  lemma ParseHundred()
    ensures ParseDecimal("100.00") == Some(100.0)
  {
    assert LeadingDigits("100.00") == 3;
    assert "100.00"[..3] == "100" && "100.00"[4..] == "00";
    assert "100"[..2] == "10" && "10"[..1] == "1" && "00"[..1] == "0";
    assert DigitsValue("1") == 1 && DigitsValue("10") == 10;
    assert DigitsValue("100") == 100 && DigitsValue("00") == 0;
  }

  lemma ParseWithdrawals()
    ensures ParseDecimal("5") == Some(5.0)
    ensures ParseDecimal("0") == Some(0.0)
  {
    assert LeadingDigits("5") == 1 && LeadingDigits("0") == 1;
    assert DigitsValue("5") == 5 && DigitsValue("0") == 0;
  }

  lemma CleanedSurch()
    ensures CleanCurrency(Str("$10.00")) == Some(Num(10.0))
  {
    StripDollar("10.00");
    assert "$" + "10.00" == "$10.00";
    ParseTen();
  }

  lemma CleanedSettlement()
    ensures CleanCurrency(Str("$100.00")) == Some(Num(100.0))
  {
    StripDollar("100.00");
    assert "$" + "100.00" == "$100.00";
    ParseHundred();
  }

  lemma CleanedWithdrawals()
    ensures AsFloat(Str("5")) == Some(Num(5.0))
    ensures AsFloat(Str("0")) == Some(Num(0.0))
  {
    ParseWithdrawals();
  }

  /** 100.00 spread over 30 days is 3.33 a day. */
  lemma DailyHundred()
    ensures DailyVaultAvg(Num(100.0)) == Num(3.33)
  {
    assert (100.0 / 30.0 * 100.0).Floor == 333;
  }

  /**
    The cells of the example row that the transform reads: "$10.00"
    surcharge, "$100.00" settlement, `wd` withdrawals as text, the group
    "Commission 2.5" and 4 surcharged withdrawals.
   */
  predicate IsReportRow(r: Row, wd: string) {
    && Get(r, Surch) == Str("$10.00") && Get(r, Settlement) == Str("$100.00")
    && Get(r, WdTrxs) == Str(wd) && Get(r, GroupCol) == Str("Commission 2.5")
    && Get(r, SurchargeWds) == Num(4.0)
  }

  /** The derived cells of a processed row, in terms of its three cleaned cells. */
  lemma ProcessedCells(r: Row, hasSurchargeWds: bool, s: Cell, st: Cell, w: Cell)
    requires CleanCurrency(Get(r, Surch)) == Some(s) && CleanCurrency(Get(r, Settlement)) == Some(st)
    requires AsFloat(Get(r, WdTrxs)) == Some(w) && !(hasSurchargeWds && Get(r, SurchargeWds).Str?)
    ensures ProcessRow(r, hasSurchargeWds).Some?
    ensures var o := ProcessRow(r, hasSurchargeWds).value;
              && Get(o, SurchargeAmtCol) == PerWithdrawal(s, w)
              && Get(o, AverageWdCol) == PerWithdrawal(st, w)
              && Get(o, DailyVaultCol) == DailyVaultAvg(st)
              && Get(o, CommissionCol) == CommissionTotal(CommissionRate(Get(r, GroupCol)), hasSurchargeWds, Get(r, SurchargeWds))
              && SettlementDate !in o && Terminal !in o && GroupCol !in o
  {
    ColumnNamesDistinct();
    var o := ProcessRow(r, hasSurchargeWds).value;
    assert Get(o, Surch) == s && Get(o, Settlement) == st && Get(o, WdTrxs) == w;
  }

  /**
    The example row with 5 withdrawals: 2.0 surcharge and 20.0 settlement
    per withdrawal, 3.33 a day, and a commission of 2.5 times 4, without
    the dropped columns.
   */
  lemma ReportRowExample(r: Row)
    requires IsReportRow(r, "5")
    ensures ProcessRow(r, true).Some?
    ensures var o := ProcessRow(r, true).value;
              && Get(o, SurchargeAmtCol) == Num(2.0)
              && Get(o, AverageWdCol) == Num(20.0)
              && Get(o, DailyVaultCol) == Num(3.33)
              && Get(o, CommissionCol) == Num(10.0)
              && SettlementDate !in o && Terminal !in o && GroupCol !in o
  {
    CleanedSurch();
    CleanedSettlement();
    CleanedWithdrawals();
    ProcessedCells(r, true, Num(10.0), Num(100.0), Num(5.0));
    RateAfterWord();
    DailyHundred();
    assert Round2(10.0 / 5.0) == 2.0 by { Round2Exact(2.0); }
    assert Round2(100.0 / 5.0) == 20.0 by { Round2Exact(20.0); }
  }

  /** The same row with no withdrawals: both per-withdrawal amounts are 0, the daily average is unaffected. */
  lemma NoWithdrawalsExample(r: Row)
    requires IsReportRow(r, "0")
    ensures ProcessRow(r, true).Some?
    ensures var o := ProcessRow(r, true).value;
              && Get(o, SurchargeAmtCol) == Num(0.0)
              && Get(o, AverageWdCol) == Num(0.0)
              && Get(o, DailyVaultCol) == Num(3.33)
  {
    CleanedSurch();
    CleanedSettlement();
    CleanedWithdrawals();
    ProcessedCells(r, true, Num(10.0), Num(100.0), Num(0.0));
    DailyHundred();
  }

  /** A one-row table that is a permutation of a one-row sequence is that sequence. */
  lemma SingleRow(rows: seq<Row>, r: Row)
    requires |rows| == 1 && multiset(rows) == multiset([r])
    ensures rows == [r]
  {
    assert rows[0] in multiset(rows);
  }

  /** A report whose one row is the example row, with every column the transform reads and drops. */
  predicate IsReport(raw: Table) {
    && WellFormed(raw) && |raw.rows| == 1 && IsReportRow(raw.rows[0], "5")
    && RequiredColumns <= raw.cols && DroppedColumns <= raw.cols && SurchargeWds in raw.cols
  }

  lemma OneRowProcesses(raw: Table)
    requires |raw.rows| == 1 && ProcessRow(raw.rows[0], SurchargeWds in raw.cols).Some?
    ensures RowsProcess(raw)
  {
    forall i | 0 <= i < |raw.rows|
      ensures ProcessRow(raw.rows[i], SurchargeWds in raw.cols).Some?
    {
      assert i == 0;
    }
  }

  /** Every column is there and the one row processes, so the transform returns that row processed. */
  lemma ReportRows(raw: Table)
    requires WellFormed(raw) && |raw.rows| == 1 && RequiredColumns <= raw.cols && DroppedColumns <= raw.cols
    requires ProcessRow(raw.rows[0], SurchargeWds in raw.cols).Some?
    ensures Transform(raw).Done?
    ensures Transform(raw).table.cols == (raw.cols + ReassignedColumns) - DroppedColumns
    ensures Transform(raw).table.rows == [ProcessRow(raw.rows[0], SurchargeWds in raw.cols).value]
  {
    OneRowProcesses(raw);
    TransformOutcomes(raw);
    TransformDone(raw);
    var v := ProcessRow(raw.rows[0], SurchargeWds in raw.cols).value;
    assert ProcessedRows(raw) == [v];
    SingleRow(Transform(raw).table.rows, v);
  }

  /** That report gives a one-row table with the derived cells. */
  lemma ReportExample(raw: Table)
    requires IsReport(raw)
    ensures Transform(raw).Done?
    ensures Transform(raw).table.cols == (raw.cols + ReassignedColumns) - DroppedColumns
    ensures |Transform(raw).table.rows| == 1
    ensures Get(Transform(raw).table.rows[0], SurchargeAmtCol) == Num(2.0)
    ensures Get(Transform(raw).table.rows[0], AverageWdCol) == Num(20.0)
    ensures Get(Transform(raw).table.rows[0], DailyVaultCol) == Num(3.33)
    ensures Get(Transform(raw).table.rows[0], CommissionCol) == Num(10.0)
  {
    ReportRowExample(raw.rows[0]);
    ReportRows(raw);
  }

  /** Without the "Surch" column the transform returns the empty table, whatever else the report holds. */
  lemma ReportWithoutSurch(raw: Table)
    requires Surch !in raw.cols
    ensures Transform(raw) == Empty
  {
    CleanLoop(raw);
  }
}
