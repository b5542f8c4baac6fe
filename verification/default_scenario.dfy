/** The scenario the analyzer opens with: its inputs give an NRE of 22,945, a
    terminal value of 86,625, a payback of 2 + 9,895 / 11,925 years, an IRR
    above 20% and a non-negative NPV at 10%, so all three criteria pass and
    the status is green. */
module DefaultScenario {
  import opened Numbers
  import opened Financial
  import opened FinancialProofs

  /** The six flows of the default inputs: the NRE outlay, then the annual
      margin of 22,500 scaled by the ramp 23%, 35%, 53%, 55%, 55%. */
  const DefaultFlows: seq<real> := [-22945.0, 5175.0, 7875.0, 11925.0, 12375.0, 12375.0]

  lemma DefaultProjectFlows()
    ensures Nre(DefaultInputs) == 22945.0
    ensures ProjectFlows(DefaultInputs) == DefaultFlows
  {
    var flows := ProjectFlows(DefaultInputs);
    assert AnnualMargin(DefaultInputs) == 22500.0;
    assert flows[1] == 22500.0 * (23.0 / 100.0) == 5175.0;
    assert flows[2] == 22500.0 * (35.0 / 100.0) == 7875.0;
    assert flows[3] == 22500.0 * (53.0 / 100.0) == 11925.0;
    assert flows[4] == 22500.0 * (55.0 / 100.0) == 12375.0;
    assert flows[5] == 12375.0;
  }

  /** The investment is recovered during year 3: 13,050 is back after two
      years and 9,895 more is needed from year 3's 11,925. */
  lemma DefaultPayback()
    ensures Payback(DefaultFlows) == Years(2.0 + 9895.0 / 11925.0)
  {
    var f := DefaultFlows;
    assert Investment(f) == 22945.0;
    assert PaybackWalk(f, 22945.0, 3, 13050.0) == Years(2.0 + 9895.0 / 11925.0);
    assert PaybackWalk(f, 22945.0, 2, 5175.0) == PaybackWalk(f, 22945.0, 3, 13050.0);
    assert PaybackWalk(f, 22945.0, 1, 0.0) == PaybackWalk(f, 22945.0, 2, 5175.0);
  }

  /** Powers of 1.1: the default discount factor. */
  lemma PowersOfElevenTenths()
    ensures Pow(1.1, 5) == 1.61051
  {
    assert Pow(1.1, 1) == 1.1;
    assert Pow(1.1, 2) == 1.21;
    assert Pow(1.1, 3) == 1.331;
    assert Pow(1.1, 4) == 1.4641;
  }

  /** At the default 10% with the terminal value the NPV is positive: the
      discounted terminal value alone, 86,625 / 1.61051, exceeds the NRE. */
  lemma DefaultNpv()
    ensures Npv(0.1, DefaultFlows, Some(86625.0)) > 0.0
  {
    var f := DefaultFlows;
    NpvSixYears(0.1, f, Some(86625.0));
    PowersOfElevenTenths();
    assert 86625.0 / Pow(1.1, 5) > 22945.0;
    assert forall i :: 1 <= i <= 5 ==> f[i] / Pow(1.1, i) >= 0.0;
  }

  lemma PowersOfFiveQuarters()
    ensures Pow(1.25, 1) == 1.25 && Pow(1.25, 2) == 1.5625 && Pow(1.25, 3) == 1.953125
    ensures Pow(1.25, 4) == 2.44140625 && Pow(1.25, 5) == 3.0517578125
  {
  }

  lemma PowersOfEleven()
    ensures Pow(11.0, 1) == 11.0 && Pow(11.0, 2) == 121.0 && Pow(11.0, 3) == 1331.0
    ensures Pow(11.0, 4) == 14641.0 && Pow(11.0, 5) == 161051.0
  {
  }

  /** At 25% the flows are still worth 1,464.44 more than the outlay. */
  lemma DefaultNpvAtQuarter()
    ensures IrrNpv(DefaultFlows, 0.25) > IrrTolerance
  {
    NpvSixYears(0.25, DefaultFlows, None);
    PowersOfFiveQuarters();
  }

  /** At the top of the first bracket, 1000%, the flows are worth less than the outlay. */
  lemma DefaultNpvAtTop()
    ensures IrrNpv(DefaultFlows, IrrHigh) <= 0.0
  {
    NpvSixYears(IrrHigh, DefaultFlows, None);
    PowersOfEleven();
  }

  /** The IRR search finds a rate above 22%. */
  lemma DefaultIrr()
    ensures Irr(DefaultFlows).Rate? && Irr(DefaultFlows).rate > 0.22
  {
    DefaultNpvAtQuarter();
    DefaultNpvAtTop();
    IrrAbove(DefaultFlows, 0.25);
  }

  /** The default scenario passes all three criteria and is green. */
  lemma DefaultScenarioIsGreen()
    ensures var res := Evaluate(DefaultInputs);
            && res.nre == 22945.0
            && res.tv == 86625.0
            && res.pbp == Years(2.0 + 9895.0 / 11925.0)
            && res.irr.Rate? && res.irr.rate > 0.22
            && res.npv > 0.0
            && res.passNPV && res.passIRR && res.passPBP
            && res.passes == 3 && res.status == Green
  {
    DefaultProjectFlows();
    DefaultPayback();
    DefaultNpv();
    DefaultIrr();
    var res := Evaluate(DefaultInputs);
    assert res.flows == DefaultFlows;
    assert res.tv == 86625.0;
    assert res.npv == Npv(0.1, DefaultFlows, Some(86625.0));
  }
}
