/** The cash-flow table and the payback metric agree: the table flags as
    "breakeven" exactly the year whose interval (k - 1, k] holds the payback
    period, and flags nothing exactly when the investment is never recovered. */
module Breakeven {
  import opened Numbers
  import opened Financial
  import opened FinancialProofs
  import CashFlowTable
  import Analyzer

  /** What the agreement needs of a result: six flows, the first being the
      outlay of a positive NRE. */
  predicate Invested(res: Results)
  {
    |res.flows| == 6 && res.flows[0] == -res.nre && res.nre > 0.0
  }

  /** Through year k, the table's running cumulative is the NRE outlay plus
      what years 1..k have recovered. */
  lemma {:induction false} CumulativeIsRecovered(res: Results, useTV: bool, note: string, k: nat)
    requires Invested(res) && k <= 5
    ensures CashFlowTable.PrefixTotal(Analyzer.CashFlowRows(res, useTV, note), k + 1) == -res.nre + Recovered(res.flows, k)
  {
    var rows := Analyzer.CashFlowRows(res, useTV, note);
    Analyzer.TerminalValueRowOnlyWhenUsed(res, useTV, note);
    assert !CashFlowTable.IsTvRow(rows[k]);
    if k > 0 {
      CumulativeIsRecovered(res, useTV, note, k - 1);
    }
  }

  /** A row qualifies for the flag exactly when it is a year 1..5 whose
      recovered total reaches the NRE. */
  lemma QualifiesIff(res: Results, useTV: bool, note: string, k: nat)
    requires Invested(res)
    requires k < |Analyzer.CashFlowRows(res, useTV, note)|
    ensures CashFlowTable.Qualifies(Analyzer.CashFlowRows(res, useTV, note), k)
            <==> 1 <= k <= 5 && Recovered(res.flows, k) >= Investment(res.flows)
  {
    Analyzer.TerminalValueRowOnlyWhenUsed(res, useTV, note);
    if k <= 5 {
      CumulativeIsRecovered(res, useTV, note, k);
    }
  }

  /** The first qualifying row is the first recovery year. */
  lemma FirstQualifyingIff(res: Results, useTV: bool, note: string, k: nat)
    requires Invested(res)
    requires k < |Analyzer.CashFlowRows(res, useTV, note)|
    ensures CashFlowTable.FirstQualifying(Analyzer.CashFlowRows(res, useTV, note), k)
            <==> FirstRecovery(res.flows, Investment(res.flows), k)
  {
    var rows := Analyzer.CashFlowRows(res, useTV, note);
    forall j | 0 <= j <= k
      ensures CashFlowTable.Qualifies(rows, j) <==> 1 <= j <= 5 && Recovered(res.flows, j) >= Investment(res.flows)
    {
      QualifiesIff(res, useTV, note, j);
    }
  }

  /** Year k is the first recovery year exactly when the payback period lies
      in (k - 1, k]. */
  lemma PaybackInYearIff(flows: seq<real>, k: int)
    requires |flows| >= 1 && flows[0] < 0.0
    ensures FirstRecovery(flows, Investment(flows), k)
            <==> Payback(flows).Years? && (k - 1) as real < Payback(flows).years <= k as real
  {
    var initial := Investment(flows);
    if FirstRecovery(flows, initial, k) {
      assert !ShortOf(flows, initial, 1, |flows|);
      assert Payback(flows).Years?;
      var k' :| FirstRecovery(flows, initial, k') && flows[k'] > 0.0
                && Payback(flows).years == Interpolated(flows, initial, k');
      FirstRecoveryUnique(flows, initial, k);
      RecoveryYearBounds(flows, initial, k');
    }
    if Payback(flows).Years? && (k - 1) as real < Payback(flows).years <= k as real {
      var k' :| FirstRecovery(flows, initial, k') && flows[k'] > 0.0
                && Payback(flows).years == Interpolated(flows, initial, k');
      RecoveryYearBounds(flows, initial, k');
    }
  }

  /** The row the table flags as breakeven is the year whose interval holds
      the payback period, and no row is flagged exactly when there is no
      payback within the horizon. */
  lemma BreakevenMatchesPayback(res: Results, useTV: bool, note: string)
    requires Invested(res)
    ensures var marked := CashFlowTable.MarkRows(Analyzer.CashFlowRows(res, useTV, note));
            && (forall i :: 0 <= i < |marked| ==>
                  (marked[i].isBreakeven <==> Payback(res.flows).Years? && (i - 1) as real < Payback(res.flows).years <= i as real))
            && ((forall i :: 0 <= i < |marked| ==> !marked[i].isBreakeven) <==> Payback(res.flows).NoPayback?)
  {
    var rows := Analyzer.CashFlowRows(res, useTV, note);
    var marked := CashFlowTable.MarkRows(rows);
    forall i | 0 <= i < |marked|
      ensures marked[i].isBreakeven <==> Payback(res.flows).Years? && (i - 1) as real < Payback(res.flows).years <= i as real
    {
      assert CashFlowTable.Describes(marked[i], rows, i);
      FirstQualifyingIff(res, useTV, note, i);
      PaybackInYearIff(res.flows, i);
    }
    if Payback(res.flows).Years? {
      PaybackWithinBreakevenYear(res.flows);
      var k :| FirstRecovery(res.flows, Investment(res.flows), k)
               && (k - 1) as real < Payback(res.flows).years <= k as real;
      assert k < |marked|;
      assert marked[k].isBreakeven;
    } else {
      forall i | 0 <= i < |marked|
        ensures !marked[i].isBreakeven
      {
      }
    }
  }
}
