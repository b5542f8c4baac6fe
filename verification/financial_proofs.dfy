/** Properties of the financial engine: the NPV formula and its behaviour in
    the rate, the range and monotonicity of the payback period, independence
    of IRR and payback from the terminal value, and the default scenario. */
module FinancialProofs {
  import opened Numbers
  import opened Financial

  // ---------------------------------------------------------------------------
  // NPV

  lemma {:induction false} PowOfOne(n: nat)
    ensures Pow(1.0, n) == 1.0
  {
    if n > 0 {
      PowOfOne(n - 1);
    }
  }

  lemma {:induction false} DiscountedSumAtParity(flows: seq<real>, n: nat)
    requires n <= |flows|
    ensures DiscountedSum(flows, 1.0, n) == Total(flows, n)
  {
    if n > 0 {
      DiscountedSumAtParity(flows, n - 1);
      PowOfOne(n - 1);
      assert flows[n - 1] / Pow(1.0, n - 1) == flows[n - 1];
    }
  }

  /** At a zero discount rate the NPV is the plain sum of the flows, plus the
      undiscounted terminal value when one is given. */
  lemma NpvAtZeroRate(flows: seq<real>, terminalValue: Option<real>)
    requires |flows| >= 1
    ensures Npv(0.0, flows, terminalValue)
            == Total(flows, |flows|) + (if terminalValue.Some? then terminalValue.value else 0.0)
  {
    DiscountedSumAtParity(flows, |flows|);
    PowOfOne(|flows| - 1);
  }

  /** The six-year NPV written out: year 0 undiscounted, year i divided by
      (1 + rate)^i, and the terminal value divided by (1 + rate)^5. */
  lemma NpvSixYears(rate: real, flows: seq<real>, terminalValue: Option<real>)
    requires 1.0 + rate != 0.0
    requires |flows| == 6
    ensures var d := 1.0 + rate;
            Npv(rate, flows, terminalValue)
            == flows[0] + flows[1] / Pow(d, 1) + flows[2] / Pow(d, 2) + flows[3] / Pow(d, 3)
               + flows[4] / Pow(d, 4) + flows[5] / Pow(d, 5)
               + (if terminalValue.Some? then terminalValue.value / Pow(d, 5) else 0.0)
  {
    var d := 1.0 + rate;
    assert DiscountedSum(flows, d, 1) == flows[0];
    assert DiscountedSum(flows, d, 2) == flows[0] + flows[1] / Pow(d, 1);
    assert DiscountedSum(flows, d, 3) == DiscountedSum(flows, d, 2) + flows[2] / Pow(d, 2);
    assert DiscountedSum(flows, d, 4) == DiscountedSum(flows, d, 3) + flows[3] / Pow(d, 3);
    assert DiscountedSum(flows, d, 5) == DiscountedSum(flows, d, 4) + flows[4] / Pow(d, 4);
    assert DiscountedSum(flows, d, 6) == DiscountedSum(flows, d, 5) + flows[5] / Pow(d, 5);
  }

  /** With no negative flow after year 0, discounting harder never raises the
      partial NPV. */
  lemma {:induction false} DiscountedSumAntitone(flows: seq<real>, d1: real, d2: real, n: nat)
    requires n <= |flows|
    requires 0.0 < d1 <= d2
    requires forall i :: 1 <= i < |flows| ==> flows[i] >= 0.0
    ensures DiscountedSum(flows, d2, n) <= DiscountedSum(flows, d1, n)
  {
    if n > 0 {
      DiscountedSumAntitone(flows, d1, d2, n - 1);
      if n - 1 == 0 {
        assert Pow(d1, 0) == 1.0 == Pow(d2, 0);
      } else {
        PowMonotoneBase(d1, d2, n - 1);
        DivAntitone(flows[n - 1], Pow(d1, n - 1), Pow(d2, n - 1));
      }
    }
  }

  /** The cash-flow NPV is non-increasing in the rate when every flow after
      year 0 is non-negative: the investment pattern the analyzer is for. */
  lemma NpvAntitone(flows: seq<real>, r1: real, r2: real)
    requires |flows| >= 1
    requires -1.0 < r1 <= r2
    requires forall i :: 1 <= i < |flows| ==> flows[i] >= 0.0
    ensures IrrNpv(flows, r2) <= IrrNpv(flows, r1)
  {
    DiscountedSumAntitone(flows, 1.0 + r1, 1.0 + r2, |flows|);
  }

  /** A rate where the NPV is within the tolerance of zero lies above any rate
      c where the NPV exceeds the tolerance (flows after year 0 non-negative). */
  lemma ConvergedAbove(flows: seq<real>, r: real, c: real)
    requires |flows| >= 1
    requires forall i :: 1 <= i < |flows| ==> flows[i] >= 0.0
    requires -1.0 < r && -1.0 < c
    requires Abs(IrrNpv(flows, r)) < IrrTolerance < IrrNpv(flows, c)
    ensures r > c
  {
    if r <= c {
      NpvAntitone(flows, r, c);
    }
  }

  /** A sign-change bracket ends above any rate c where the NPV is positive
      (flows after year 0 non-negative). */
  lemma BracketAbove(flows: seq<real>, a: real, b: real, c: real)
    requires forall i :: 1 <= i < |flows| ==> flows[i] >= 0.0
    requires |flows| >= 1 && -1.0 < a
    requires Brackets(NpvCurve(flows), a, b)
    requires -1.0 < c && IrrNpv(flows, c) > 0.0
    ensures b > c
  {
    if b <= c {
      NpvAntitone(flows, a, c);
      NpvAntitone(flows, b, c);
    }
  }

  /** n halvings shrink a width w at least (n + 1)-fold. */
  lemma HalvingsShrink(w: real, n: nat)
    requires w >= 0.0
    ensures w / Pow(2.0, n) <= w / (n + 1) as real
  {
    PowTwoAtLeast(n);
    DivAntitone(w, (n + 1) as real, Pow(2.0, n));
  }

  /** The last bracket of a search over [-99%, 1000%] is at most 6 points wide. */
  lemma FinalBracketNarrow(w: real)
    requires w == (IrrHigh - IrrLow) / Pow(2.0, IrrIterations)
    ensures w <= 0.06
  {
    HalvingsShrink(IrrHigh - IrrLow, IrrIterations);
  }

  /** If the NPV exceeds the tolerance at rate c (and f(10) <= 0), the IRR
      search returns a rate above c - 0.03: either it converged, and then
      above c, or its last bracket, at most 10.99 / 201 wide, ends above c. */
  lemma IrrAbove(flows: seq<real>, c: real)
    requires |flows| >= 1
    requires forall i :: 1 <= i < |flows| ==> flows[i] >= 0.0
    requires IrrLow < c < IrrHigh
    requires IrrNpv(flows, c) > IrrTolerance
    requires IrrNpv(flows, IrrHigh) <= 0.0
    ensures Irr(flows).Rate? && Irr(flows).rate > c - 0.03
  {
    IrrBracketing(flows);
    NpvAntitone(flows, IrrLow, c);
    assert Straddles(IrrNpv(flows, IrrLow), IrrNpv(flows, IrrHigh));
    var r := Irr(flows).rate;
    var f := NpvCurve(flows);
    assert IrrTop(flows) == IrrHigh;
    assert f(r) == IrrNpv(flows, r);
    if Abs(IrrNpv(flows, r)) < IrrTolerance {
      ConvergedAbove(flows, r, c);
    } else {
      var a, b :| Brackets(f, a, b) && IrrLow <= a && b <= IrrHigh
                  && b - a == (IrrHigh - IrrLow) / Pow(2.0, IrrIterations) && r == (a + b) / 2.0;
      BracketAbove(flows, a, b, c);
      FinalBracketNarrow(b - a);
    }
  }

  // ---------------------------------------------------------------------------
  // Payback

  /** A payback in years lies within its breakeven year: (k - 1, k] for the
      first year k whose recovered total reaches the investment, and so
      within (0, horizon]. */
  lemma PaybackWithinBreakevenYear(flows: seq<real>)
    requires |flows| >= 1
    requires Payback(flows).Years?
    ensures exists k :: FirstRecovery(flows, Investment(flows), k)
                        && (k - 1) as real < Payback(flows).years <= k as real
    ensures 0.0 < Payback(flows).years <= (|flows| - 1) as real
  {
    var initial := Investment(flows);
    var y := Payback(flows).years;
    var k :| FirstRecovery(flows, initial, k) && flows[k] > 0.0 && y == Interpolated(flows, initial, k);
    RecoveryYearBounds(flows, initial, k);
    assert y == Interpolated(flows, initial, k);
    assert (k - 1) as real < y <= k as real;
    assert k as real <= (|flows| - 1) as real;
  }

  /** The interpolated payback of a first recovery year k lies in (k - 1, k]. */
  lemma RecoveryYearBounds(flows: seq<real>, initial: real, k: int)
    requires initial > 0.0
    requires FirstRecovery(flows, initial, k) && flows[k] > 0.0
    ensures (k - 1) as real < Interpolated(flows, initial, k) <= k as real
  {
    var needed := initial - Recovered(flows, k - 1);
    if k - 1 >= 1 {
      assert Recovered(flows, k - 1) < initial;
    }
    assert Recovered(flows, k) == Recovered(flows, k - 1) + flows[k];
    assert 0.0 < needed <= flows[k];
    FractionInUnitInterval(needed, flows[k]);
  }

  lemma FractionInUnitInterval(needed: real, flow: real)
    requires 0.0 < needed <= flow
    ensures 0.0 < needed / flow <= 1.0
  {
  }

  /** Recovered totals grow when no later flow shrinks. */
  lemma {:induction false} RecoveredMonotone(flows: seq<real>, raised: seq<real>, i: nat)
    requires |raised| == |flows|
    requires i < |flows|
    requires forall j :: 1 <= j < |flows| ==> flows[j] <= raised[j]
    ensures Recovered(flows, i) <= Recovered(raised, i)
  {
    if i > 0 {
      RecoveredMonotone(flows, raised, i - 1);
    }
  }

  /** Raising any of the flows of years 1..5 (year 0 unchanged) never makes the
      payback later: a payback in years can only move earlier, and a missing
      payback can appear. */
  lemma PaybackMonotone(flows: seq<real>, raised: seq<real>)
    requires |flows| >= 1 && |raised| == |flows|
    requires raised[0] == flows[0]
    requires forall j :: 1 <= j < |flows| ==> flows[j] <= raised[j]
    ensures Payback(flows).Undefined? <==> Payback(raised).Undefined?
    ensures Payback(flows).Years? ==> Payback(raised).Years? && Payback(raised).years <= Payback(flows).years
    ensures Payback(raised).NoPayback? ==> Payback(flows).NoPayback?
  {
    if Payback(flows).Years? {
      PaybackMonotoneYears(flows, raised);
    }
  }

  lemma PaybackMonotoneYears(flows: seq<real>, raised: seq<real>)
    requires |flows| >= 1 && |raised| == |flows|
    requires raised[0] == flows[0]
    requires forall j :: 1 <= j < |flows| ==> flows[j] <= raised[j]
    requires Payback(flows).Years?
    ensures Payback(raised).Years? && Payback(raised).years <= Payback(flows).years
  {
    var initial := Investment(flows);
    assert initial == Investment(raised);
    var y := Payback(flows).years;
    var k :| FirstRecovery(flows, initial, k) && flows[k] > 0.0 && y == Interpolated(flows, initial, k);
    RecoveredMonotone(flows, raised, k);
    assert !ShortOf(raised, initial, 1, |raised|) by {
      assert Recovered(raised, k) >= initial;
    }
    var y2 := Payback(raised).years;
    var k2 :| FirstRecovery(raised, initial, k2) && raised[k2] > 0.0 && y2 == Interpolated(raised, initial, k2);
    EarlierRecovery(flows, raised, initial, k, k2);
    assert y2 == Interpolated(raised, initial, k2) && y == Interpolated(flows, initial, k);
  }

  /** The interpolated payback of the raised flows is no later than that of the
      original flows, given each one's first recovery year. */
  lemma EarlierRecovery(flows: seq<real>, raised: seq<real>, initial: real, k: int, k2: int)
    requires |raised| == |flows|
    requires forall j :: 1 <= j < |flows| ==> flows[j] <= raised[j]
    requires initial > 0.0
    requires FirstRecovery(flows, initial, k) && flows[k] > 0.0
    requires FirstRecovery(raised, initial, k2) && raised[k2] > 0.0
    ensures Interpolated(raised, initial, k2) <= Interpolated(flows, initial, k)
  {
    RecoveredMonotone(flows, raised, k);
    if k2 < k {
      RecoveryYearBounds(flows, initial, k);
      RecoveryYearBounds(raised, initial, k2);
    } else if k2 == k {
      SameRecoveryYear(flows, raised, initial, k);
    }
  }

  lemma SameRecoveryYear(flows: seq<real>, raised: seq<real>, initial: real, k: int)
    requires |raised| == |flows|
    requires forall j :: 1 <= j < |flows| ==> flows[j] <= raised[j]
    requires FirstRecovery(flows, initial, k) && flows[k] > 0.0
    requires FirstRecovery(raised, initial, k) && raised[k] > 0.0
    requires initial > 0.0
    ensures Interpolated(raised, initial, k) <= Interpolated(flows, initial, k)
  {
    RecoveredMonotone(flows, raised, k - 1);
    if k - 1 >= 1 {
      assert Recovered(raised, k - 1) < initial;
    }
    FractionAntitone(initial - Recovered(flows, k - 1), initial - Recovered(raised, k - 1), flows[k], raised[k]);
  }

  /** The first recovery year is unique, so the years a payback lies in are too. */
  lemma FirstRecoveryUnique(flows: seq<real>, initial: real, k: int)
    requires FirstRecovery(flows, initial, k)
    ensures forall k' :: FirstRecovery(flows, initial, k') ==> k' == k
  {
  }

  lemma FractionAntitone(n1: real, n2: real, d1: real, d2: real)
    requires 0.0 < n2 <= n1
    requires 0.0 < d1 <= d2
    ensures n2 / d2 <= n1 / d1
  {
    DivAntitone(n2, d1, d2);
    assert n2 / d1 <= n1 / d1;
  }

  // ---------------------------------------------------------------------------
  // Evaluation

  /** IRR and payback are computed from the six flows alone: neither the
      terminal multiple, nor whether the terminal value is used, nor the
      discount rate can change them. */
  lemma MetricsIgnoreTerminalValue(a: Inputs, multiple: real, useTV: bool, discount: real)
    requires a.discount != -100.0 && discount != -100.0
    ensures var b := a.(terminalMultiple := multiple, useTV := useTV, discount := discount);
            Evaluate(b).flows == Evaluate(a).flows
            && Evaluate(b).irr == Evaluate(a).irr
            && Evaluate(b).pbp == Evaluate(a).pbp
  {
    var b := a.(terminalMultiple := multiple, useTV := useTV, discount := discount);
    assert forall i :: 1 <= i <= Horizon ==> RampRate(b, i) == RampRate(a, i);
    assert forall i :: 0 <= i < |ProjectFlows(a)| ==> ProjectFlows(b)[i] == ProjectFlows(a)[i];
    assert ProjectFlows(b) == ProjectFlows(a);
  }

  /** The count of passes and the status are determined by the three flags. */
  lemma StatusFromFlags(inputs: Inputs)
    requires inputs.discount != -100.0
    ensures var res := Evaluate(inputs);
            && res.passes == Indicator(res.passNPV) + Indicator(res.passIRR) + Indicator(res.passPBP)
            && (res.status == Green <==> res.passes == 3)
            && (res.status == Yellow <==> res.passes == 2)
            && (res.status == Red <==> res.passes <= 1)
            && (res.irr.NoSolution? ==> !res.passIRR)
            && (!res.pbp.Years? ==> !res.passPBP)
  {
  }
}
