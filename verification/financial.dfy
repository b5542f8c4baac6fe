/** The financial engine of the analyzer: cost and margin aggregates, the
    six-year cash-flow projection, NPV, IRR by bisection, the payback period,
    and the pass/fail reduction to a traffic-light status. Everything is exact
    real arithmetic; the source's NaN and Infinity sentinels are datatypes. */
module Financial {
  import opened Numbers

  /** The user's assumptions. Percentages (ramp rates, discount, IRR
      threshold) are in percent, as typed into the form. */
  datatype Inputs = Inputs(
    oemPN: Option<string>,
    devPartner: Option<string>,
    salesDirector: Option<string>,
    oemCost: real,
    oemQty: real,
    matInspect: real,
    laborHours: real,
    laborRate: real,
    pmaFee: real,
    derFee: real,
    sp: real,
    cp: real,
    qty: real,
    rr1: real,
    rr2: real,
    rr3: real,
    rr4: real,
    rr5: real,
    terminalMultiple: real,
    useTV: bool,
    discount: real,
    thrNPV: real,
    thrIRR: real,
    thrPBP: real,
    notes: Option<string>)

  /** Result of the IRR search: the source's NaN is `NoSolution`. */
  datatype IrrOutcome = NoSolution | Rate(rate: real)

  /** Result of the payback walk: NaN is `Undefined` (nothing was invested),
      +Infinity is `NoPayback` (not recovered within the horizon). */
  datatype PaybackOutcome = Undefined | NoPayback | Years(years: real)

  datatype Status = Green | Yellow | Red

  datatype Results = Results(
    oemInv: real,
    laborCost: real,
    nre: real,
    estAnnualSales: real,
    unitMargin: real,
    estAnnualMargin: real,
    flows: seq<real>,
    y5: real,
    tv: real,
    npv: real,
    irr: IrrOutcome,
    pbp: PaybackOutcome,
    passNPV: bool,
    passIRR: bool,
    passPBP: bool,
    passes: nat,
    status: Status)

  /** Number of projected years after year 0. */
  const Horizon: nat := 5

  /** Ramp rate (in percent) of year `i`, 1 <= i <= 5. */
  function RampRate(inputs: Inputs, i: nat): real
    requires 1 <= i <= Horizon
  {
    [inputs.rr1, inputs.rr2, inputs.rr3, inputs.rr4, inputs.rr5][i - 1]
  }

  // ---------------------------------------------------------------------------
  // NPV

  /** Sum of flows[i] / d^i over the first n years, accumulated in year order
      as the source's discount loop does. */
  function DiscountedSum(flows: seq<real>, d: real, n: nat): real
    requires n <= |flows|
    requires d != 0.0
  {
    if n == 0 then 0.0 else DiscountedSum(flows, d, n - 1) + flows[n - 1] / Pow(d, n - 1)
  }

  /** `calculateNPV`: flows[0] plus every later flow discounted by its year;
      a terminal value, when present, is discounted as of the last year. Any
      rate but -100% is accepted: below it the powers of the negative base
      are non-zero, as in the source. */
  function Npv(rate: real, flows: seq<real>, terminalValue: Option<real>): (r: real)
    requires 1.0 + rate != 0.0
    requires |flows| >= 1
    ensures |flows| == 1 ==> r == flows[0] + (if terminalValue.Some? then terminalValue.value else 0.0)
    ensures terminalValue.Some? ==>
              r == Npv(rate, flows, None) + terminalValue.value / Pow(1.0 + rate, |flows| - 1)
    decreases if terminalValue.Some? then 1 else 0
  {
    assert DiscountedSum(flows, 1.0 + rate, 1) == flows[0];
    var base := DiscountedSum(flows, 1.0 + rate, |flows|);
    match terminalValue
    case None => base
    case Some(tv) => base + tv / Pow(1.0 + rate, |flows| - 1)
  }

  /** Plain (undiscounted) sum of the first n flows. */
  function Total(flows: seq<real>, n: nat): real
    requires n <= |flows|
  {
    if n == 0 then 0.0 else Total(flows, n - 1) + flows[n - 1]
  }

  // ---------------------------------------------------------------------------
  // IRR

  const IrrLow: real := -0.99
  const IrrHigh: real := 10.0
  const IrrWideHigh: real := 100.0
  const IrrTolerance: real := 0.000001
  const IrrIterations: nat := 200

  /** The function whose root the IRR search looks for: NPV of the flows alone. */
  function IrrNpv(flows: seq<real>, rate: real): real
    requires |flows| >= 1
    requires rate > -1.0
  {
    Npv(rate, flows, None)
  }

  /** IrrNpv as a curve over all rates; the search only ever evaluates it
      above -100%, where the two agree. */
  function NpvCurve(flows: seq<real>): real -> real
    requires |flows| >= 1
  {
    rate => if rate > -1.0 then IrrNpv(flows, rate) else 0.0
  }

  /** x and y do not share a strict sign: the linear reading of x * y <= 0. */
  predicate Straddles(x: real, y: real)
  {
    (x <= 0.0 && y >= 0.0) || (x >= 0.0 && y <= 0.0)
  }

  /** The source tests a sign change as a product; the two readings agree. */
  lemma StraddlesIff(x: real, y: real)
    ensures x * y <= 0.0 <==> Straddles(x, y)
  {
    if x > 0.0 && y > 0.0 {
      MulPositive(x, y);
    } else if x < 0.0 && y < 0.0 {
      MulPositive(-x, -y);
    } else if x > 0.0 && y < 0.0 {
      MulPositive(x, -y);
    } else if x < 0.0 && y > 0.0 {
      MulPositive(-x, y);
    }
  }

  lemma MulPositive(x: real, y: real)
    requires x > 0.0 && y > 0.0
    ensures x * y > 0.0
  {
  }

  /** [a, b] is a proper interval on which f changes sign (or vanishes). */
  ghost predicate Brackets(f: real -> real, a: real, b: real)
  {
    a < b && Straddles(f(a), f(b))
  }

  lemma HalveWidth(w: real, p: real)
    requires p > 0.0
    ensures (w / 2.0) / p == w / (2.0 * p)
  {
  }

  /** The bisection loop of `calculateIRR` with `steps` iterations left, over
      the bracket [lo, hi] where flo == f(lo) and f changes sign on it. The
      source's test `flo * fm <= 0` is written as Straddles (StraddlesIff). */
  function Bisect(f: real -> real, lo: real, hi: real, flo: real, steps: nat): (r: IrrOutcome)
    requires lo < hi
    requires flo == f(lo)
    requires Straddles(flo, f(hi))
    ensures r.Rate? && lo < r.rate < hi
    decreases steps
  {
    var mid := (lo + hi) / 2.0;
    if steps == 0 then Rate(mid)
    else
      var fm := f(mid);
      if Abs(fm) < IrrTolerance then Rate(mid)
      else if Straddles(flo, fm) then Bisect(f, lo, mid, flo, steps - 1)
      else Bisect(f, mid, hi, fm, steps - 1)
  }

  /** One iteration of the bisection: with steps > 0 left, Bisect either stops
      at the midpoint or continues on the half that keeps the sign change. */
  lemma BisectStep(f: real -> real, lo: real, hi: real, flo: real, steps: nat)
    requires lo < hi && steps > 0
    requires flo == f(lo)
    requires Straddles(flo, f(hi))
    ensures var mid := (lo + hi) / 2.0;
            var fm := f(mid);
            && (Abs(fm) < IrrTolerance ==> Bisect(f, lo, hi, flo, steps) == Rate(mid))
            && (Abs(fm) >= IrrTolerance && Straddles(flo, fm) ==>
                  Bisect(f, lo, hi, flo, steps) == Bisect(f, lo, mid, flo, steps - 1))
            && (Abs(fm) >= IrrTolerance && !Straddles(flo, fm) ==>
                  Straddles(fm, f(hi)) && Bisect(f, lo, hi, flo, steps) == Bisect(f, mid, hi, fm, steps - 1))
  {
  }

  /** What a result x of bisecting [lo, hi] for `steps` rounds certifies:
      either f is within the tolerance of zero at x, or x is the midpoint of a
      sign-change bracket inside [lo, hi] that is 2^steps times narrower. */
  ghost predicate Certified(f: real -> real, lo: real, hi: real, steps: nat, x: real)
  {
    || Abs(f(x)) < IrrTolerance
    || exists a, b :: Brackets(f, a, b) && lo <= a && b <= hi
                      && b - a == (hi - lo) / Pow(2.0, steps) && x == (a + b) / 2.0
  }

  /** Every bisection result is certified. */
  lemma {:induction false} BisectCertifies(f: real -> real, lo: real, hi: real, flo: real, steps: nat)
    requires lo < hi
    requires flo == f(lo)
    requires Straddles(flo, f(hi))
    ensures Certified(f, lo, hi, steps, Bisect(f, lo, hi, flo, steps).rate)
    decreases steps
  {
    var mid := (lo + hi) / 2.0;
    var r := Bisect(f, lo, hi, flo, steps).rate;
    if steps == 0 {
      assert Brackets(f, lo, hi) && hi - lo == (hi - lo) / Pow(2.0, 0);
    } else {
      var fm := f(mid);
      BisectStep(f, lo, hi, flo, steps);
      if Abs(fm) >= IrrTolerance {
        if Straddles(flo, fm) {
          BisectCertifies(f, lo, mid, flo, steps - 1);
          assert r == Bisect(f, lo, mid, flo, steps - 1).rate;
          CertifiedInHalf(f, lo, hi, lo, mid, steps, r);
        } else {
          BisectCertifies(f, mid, hi, fm, steps - 1);
          assert r == Bisect(f, mid, hi, fm, steps - 1).rate;
          CertifiedInHalf(f, lo, hi, mid, hi, steps, r);
        }
      }
    }
  }

  /** A result certified on a half of [lo, hi] after n - 1 rounds is
      certified on [lo, hi] after n. */
  lemma CertifiedInHalf(f: real -> real, lo: real, hi: real, lo2: real, hi2: real, n: nat, x: real)
    requires n >= 1
    requires lo <= lo2 && hi2 <= hi && hi2 - lo2 == (hi - lo) / 2.0
    requires Certified(f, lo2, hi2, n - 1, x)
    ensures Certified(f, lo, hi, n, x)
  {
    if Abs(f(x)) >= IrrTolerance {
      var a, b :| Brackets(f, a, b) && lo2 <= a && b <= hi2
                  && b - a == (hi2 - lo2) / Pow(2.0, n - 1) && x == (a + b) / 2.0;
      HalveWidth(hi - lo, Pow(2.0, n - 1));
      assert b - a == (hi - lo) / Pow(2.0, n);
    }
  }

  /** The upper end of the bracket the search uses: 1000%, widened to 10000%
      when f has the same sign at -99% and at 1000%. */
  function SearchTop(f: real -> real): real
  {
    if Straddles(f(IrrLow), f(IrrHigh)) then IrrHigh else IrrWideHigh
  }

  /** The body of `calculateIRR` for any curve f: widen the bracket once when
      it shows no sign change, give up when the wide one shows none either,
      otherwise bisect. */
  function Search(f: real -> real): (r: IrrOutcome)
    ensures r.Rate? ==> IrrLow < r.rate < IrrWideHigh
  {
    var flo := f(IrrLow);
    if !Straddles(flo, f(IrrHigh)) then
      if !Straddles(flo, f(IrrWideHigh)) then NoSolution
      else Bisect(f, IrrLow, IrrWideHigh, flo, IrrIterations)
    else
      Bisect(f, IrrLow, IrrHigh, flo, IrrIterations)
  }

  /** The search gives up exactly when neither bracket shows a sign change;
      otherwise its rate lies inside the bracket used and is either a
      near-root or the midpoint of a sign-change bracket 2^200 times narrower. */
  lemma SearchCertifies(f: real -> real)
    ensures Search(f).NoSolution? <==> (!Straddles(f(IrrLow), f(IrrHigh)) && !Straddles(f(IrrLow), f(IrrWideHigh)))
    ensures Search(f).Rate? ==> IrrLow < Search(f).rate < SearchTop(f)
    ensures Search(f).Rate? ==> Certified(f, IrrLow, SearchTop(f), IrrIterations, Search(f).rate)
  {
    var flo := f(IrrLow);
    if !Straddles(flo, f(IrrHigh)) {
      if Straddles(flo, f(IrrWideHigh)) {
        BisectCertifies(f, IrrLow, IrrWideHigh, flo, IrrIterations);
      }
    } else {
      BisectCertifies(f, IrrLow, IrrHigh, flo, IrrIterations);
    }
  }

  /** `calculateIRR`: the search over the NPV curve of the flows. */
  function Irr(flows: seq<real>): (r: IrrOutcome)
    requires |flows| >= 1
    ensures r.Rate? ==> IrrLow < r.rate < IrrWideHigh
  {
    Search(NpvCurve(flows))
  }

  /** The upper end of the bracket used for these flows. */
  function IrrTop(flows: seq<real>): real
    requires |flows| >= 1
  {
    SearchTop(NpvCurve(flows))
  }

  /** SearchCertifies for the NPV curve, stated with the NPV itself. */
  lemma IrrBracketing(flows: seq<real>)
    requires |flows| >= 1
    ensures Irr(flows).NoSolution? <==> (!Straddles(IrrNpv(flows, IrrLow), IrrNpv(flows, IrrHigh))
                                         && !Straddles(IrrNpv(flows, IrrLow), IrrNpv(flows, IrrWideHigh)))
    ensures IrrTop(flows) == if Straddles(IrrNpv(flows, IrrLow), IrrNpv(flows, IrrHigh)) then IrrHigh else IrrWideHigh
    ensures Irr(flows).Rate? ==> IrrLow < Irr(flows).rate < IrrTop(flows)
    ensures Irr(flows).Rate? ==> Certified(NpvCurve(flows), IrrLow, IrrTop(flows), IrrIterations, Irr(flows).rate)
  {
    var f := NpvCurve(flows);
    SearchCertifies(f);
    assert f(IrrLow) == IrrNpv(flows, IrrLow);
    assert f(IrrHigh) == IrrNpv(flows, IrrHigh);
    assert f(IrrWideHigh) == IrrNpv(flows, IrrWideHigh);
  }

  /** `calculateIRR` as the source writes it: bracket set-up, then the loop. */
  method CalculateIrr(flows: seq<real>) returns (r: IrrOutcome)
    requires |flows| >= 1
    ensures r == Irr(flows)
  {
    var f := NpvCurve(flows);
    var lo := IrrLow;
    var hi := IrrHigh;
    var flo := f(lo);
    var fhi := f(hi);
    StraddlesIff(flo, fhi);
    if flo * fhi > 0.0 {
      hi := IrrWideHigh;
      fhi := f(hi);
      StraddlesIff(flo, fhi);
      if flo * fhi > 0.0 {
        return NoSolution;
      }
    }
    r := BisectLoop(f, lo, hi, flo, fhi);
  }

  /** The `for` loop of `calculateIRR`: at most 200 halvings of a bracket that
      keeps lo < hi, flo == f(lo) and f(lo) * f(hi) <= 0, returning early at a
      midpoint where |f| is below the tolerance. */
  method BisectLoop(f: real -> real, lo0: real, hi0: real, flo0: real, fhi0: real) returns (r: IrrOutcome)
    requires lo0 < hi0
    requires flo0 == f(lo0) && fhi0 == f(hi0)
    requires Straddles(flo0, fhi0)
    ensures r == Bisect(f, lo0, hi0, flo0, IrrIterations)
  {
    var lo, hi, flo, fhi := lo0, hi0, flo0, fhi0;
    var k: nat := 0;
    while k < IrrIterations
      invariant k <= IrrIterations
      invariant lo < hi
      invariant flo == f(lo) && fhi == f(hi)
      invariant Straddles(flo, fhi)
      invariant Bisect(f, lo, hi, flo, IrrIterations - k) == Bisect(f, lo0, hi0, flo0, IrrIterations)
    {
      var mid := (lo + hi) / 2.0;
      var fm := f(mid);
      BisectStep(f, lo, hi, flo, IrrIterations - k);
      if Abs(fm) < IrrTolerance {
        return Rate(mid);
      }
      StraddlesIff(flo, fm);
      if flo * fm <= 0.0 {
        hi := mid;
        fhi := fm;
      } else {
        lo := mid;
        flo := fm;
      }
      k := k + 1;
    }
    return Rate((lo + hi) / 2.0);
  }


  // ---------------------------------------------------------------------------
  // Payback

  /** flows[1] + ... + flows[i]: what years 1..i have recovered. */
  function Recovered(flows: seq<real>, i: nat): real
    requires i < |flows|
  {
    if i == 0 then 0.0 else Recovered(flows, i - 1) + flows[i]
  }

  /** No year j with lo <= j < hi has recovered the investment yet. */
  ghost predicate ShortOf(flows: seq<real>, initial: real, lo: nat, hi: nat)
    requires hi <= |flows|
  {
    forall j :: lo <= j < hi ==> Recovered(flows, j) < initial
  }

  /** Year k is the first year whose recovered total reaches the investment. */
  ghost predicate FirstRecovery(flows: seq<real>, initial: real, k: int)
  {
    && 1 <= k < |flows|
    && Recovered(flows, k) >= initial
    && ShortOf(flows, initial, 1, k)
  }

  /** The payback of a breakeven year k: k - 1 full years plus the fraction of
      year k's flow still needed to reach the investment. */
  function Interpolated(flows: seq<real>, initial: real, k: int): real
    requires 1 <= k < |flows| && flows[k] > 0.0
  {
    (k - 1) as real + (initial - Recovered(flows, k - 1)) / flows[k]
  }

  /** The source's breakeven walk from year i on, `cumulative` being the total
      of years before i. */
  function PaybackWalk(flows: seq<real>, initial: real, i: nat, cumulative: real): (r: PaybackOutcome)
    requires 1 <= i <= |flows|
    requires initial > 0.0
    requires cumulative == Recovered(flows, i - 1)
    requires ShortOf(flows, initial, 1, i)
    ensures !r.Undefined?
    ensures r.NoPayback? <==> ShortOf(flows, initial, i, |flows|)
    ensures r.Years? ==>
              exists k :: i <= k && FirstRecovery(flows, initial, k) && flows[k] > 0.0
                          && r.years == Interpolated(flows, initial, k)
    decreases |flows| - i
  {
    if i == |flows| then NoPayback
    else
      var cashFlow := flows[i];
      var prevCumulative := cumulative;
      var cum := cumulative + cashFlow;
      assert cum == Recovered(flows, i);
      if cum >= initial then
        var needed := initial - prevCumulative;
        var fraction := if cashFlow > 0.0 then needed / cashFlow else 1.0;
        assert FirstRecovery(flows, initial, i);
        assert cashFlow > 0.0;
        Years((i - 1) as real + fraction)
      else
        PaybackWalk(flows, initial, i + 1, cum)
  }

  /** The upfront investment to recover: minus the year-0 flow. */
  function Investment(flows: seq<real>): real
    requires |flows| >= 1
  {
    -flows[0]
  }

  /** `calculatePayback`. */
  function Payback(flows: seq<real>): (r: PaybackOutcome)
    requires |flows| >= 1
    ensures r.Undefined? <==> flows[0] >= 0.0
    ensures r.NoPayback? <==> flows[0] < 0.0 && ShortOf(flows, Investment(flows), 1, |flows|)
    ensures r.Years? ==>
              exists k :: FirstRecovery(flows, Investment(flows), k) && flows[k] > 0.0
                          && r.years == Interpolated(flows, Investment(flows), k)
  {
    var initial := Investment(flows);
    if !(initial > 0.0) then Undefined
    else PaybackWalk(flows, initial, 1, 0.0)
  }

  // ---------------------------------------------------------------------------
  // Pass/fail and status

  /** The source's `(b ? 1 : 0)`. */
  function Indicator(b: bool): nat
  {
    if b then 1 else 0
  }

  /** The JavaScript number the source holds for an IRR outcome. */
  function IrrNumber(irr: IrrOutcome): Num
  {
    match irr
    case NoSolution => NaN
    case Rate(r) => Finite(r)
  }

  /** The JavaScript number the source holds for a payback outcome. */
  function PaybackNumber(pbp: PaybackOutcome): Num
  {
    match pbp
    case Undefined => NaN
    case NoPayback => PosInf
    case Years(y) => Finite(y)
  }

  /** `passIRR`: the IRR is finite and at least the threshold (given in percent). */
  function PassIrr(irr: IrrOutcome, thrIRR: real): (pass: bool)
    ensures pass ==> irr.Rate? && irr.rate >= thrIRR / 100.0
    ensures irr.Rate? && irr.rate >= thrIRR / 100.0 ==> pass
  {
    var v := IrrNumber(irr);
    v.Finite? && v.value >= thrIRR / 100.0
  }

  /** `passPBP`: the payback is finite and within the threshold. */
  function PassPayback(pbp: PaybackOutcome, thrPBP: real): (pass: bool)
    ensures pass ==> pbp.Years? && pbp.years <= thrPBP
    ensures pbp.Years? && pbp.years <= thrPBP ==> pass
  {
    var v := PaybackNumber(pbp);
    v.Finite? && v.value <= thrPBP
  }

  function Classify(passes: nat): (s: Status)
    ensures s == Green <==> passes == 3
    ensures s == Yellow <==> passes == 2
    ensures s == Red <==> passes != 2 && passes != 3
  {
    if passes == 3 then Green else if passes == 2 then Yellow else Red
  }

  // ---------------------------------------------------------------------------
  // The whole evaluation

  /** Total non-recurring engineering cost. */
  function Nre(inputs: Inputs): real
  {
    inputs.oemCost * inputs.oemQty + inputs.matInspect + inputs.laborHours * inputs.laborRate
    + inputs.pmaFee + inputs.derFee
  }

  /** Estimated annual margin in steady state. */
  function AnnualMargin(inputs: Inputs): real
  {
    (inputs.sp - inputs.cp) * inputs.qty
  }

  /** The cash-flow projection of `calculateFinancials`: year 0 spends the
      NRE, year i earns the annual margin scaled by that year's ramp rate. */
  function ProjectFlows(inputs: Inputs): (flows: seq<real>)
    ensures |flows| == 1 + Horizon
    ensures flows[0] == -(inputs.oemCost * inputs.oemQty + inputs.matInspect
                          + inputs.laborHours * inputs.laborRate + inputs.pmaFee + inputs.derFee)
    ensures forall i :: 1 <= i <= Horizon ==>
              flows[i] == (inputs.sp - inputs.cp) * inputs.qty * (RampRate(inputs, i) / 100.0)
  {
    var rampRates := seq(Horizon, i requires 0 <= i < Horizon => RampRate(inputs, i + 1) / 100.0);
    var margin := AnnualMargin(inputs);
    var flows := [-Nre(inputs)] + seq(Horizon, i requires 0 <= i < Horizon => margin * rampRates[i]);
    assert forall i :: 1 <= i <= Horizon ==> flows[i] == margin * (RampRate(inputs, i) / 100.0);
    flows
  }

  /** Value of the years beyond the horizon: the year-5 flow times the multiple. */
  function TerminalValue(y5: real, multiple: real): real
  {
    y5 * multiple
  }

  /** The pass/fail part of `calculateFinancials`. */
  datatype Verdict = Verdict(passNPV: bool, passIRR: bool, passPBP: bool, passes: nat, status: Status)

  function Assess(npv: real, irr: IrrOutcome, pbp: PaybackOutcome, thrNPV: real, thrIRR: real, thrPBP: real): (v: Verdict)
    ensures v.passNPV <==> npv >= thrNPV
    ensures v.passIRR <==> irr.Rate? && irr.rate >= thrIRR / 100.0
    ensures v.passPBP <==> pbp.Years? && pbp.years <= thrPBP
    ensures v.passes == Indicator(v.passNPV) + Indicator(v.passIRR) + Indicator(v.passPBP)
    ensures v.passes <= 3
    ensures v.passes == 3 <==> v.passNPV && v.passIRR && v.passPBP
    ensures v.passes == 0 <==> !v.passNPV && !v.passIRR && !v.passPBP
    ensures v.status == Green <==> v.passes == 3
    ensures v.status == Yellow <==> v.passes == 2
    ensures v.status == Red <==> v.passes <= 1
  {
    var passNPV := npv >= thrNPV;
    var passIRR := PassIrr(irr, thrIRR);
    var passPBP := PassPayback(pbp, thrPBP);
    var passes := Indicator(passNPV) + Indicator(passIRR) + Indicator(passPBP);
    Verdict(passNPV, passIRR, passPBP, passes, Classify(passes))
  }

  /** `calculateFinancials`. A discount rate of exactly -100% is excluded: the
      source divides by zero there and its NPV is not a finite number. */
  function Evaluate(inputs: Inputs): (res: Results)
    requires inputs.discount != -100.0
    ensures res.oemInv == inputs.oemCost * inputs.oemQty
    ensures res.laborCost == inputs.laborHours * inputs.laborRate
    ensures res.nre == res.oemInv + inputs.matInspect + res.laborCost + inputs.pmaFee + inputs.derFee
    ensures res.estAnnualSales == inputs.sp * inputs.qty
    ensures res.unitMargin == inputs.sp - inputs.cp
    ensures res.estAnnualMargin == res.unitMargin * inputs.qty
    ensures res.flows == ProjectFlows(inputs)
    ensures res.nre == -res.flows[0]
    ensures res.y5 == res.flows[5] && res.tv == TerminalValue(res.flows[5], inputs.terminalMultiple)
    ensures res.npv == Npv(inputs.discount / 100.0, res.flows, if inputs.useTV then Some(res.tv) else None)
    ensures res.irr == Irr(res.flows) && res.pbp == Payback(res.flows)
    ensures Verdict(res.passNPV, res.passIRR, res.passPBP, res.passes, res.status)
            == Assess(res.npv, res.irr, res.pbp, inputs.thrNPV, inputs.thrIRR, inputs.thrPBP)
  {
    var oemInv := inputs.oemCost * inputs.oemQty;
    var laborCost := inputs.laborHours * inputs.laborRate;
    var nre := Nre(inputs);
    var estAnnualSales := inputs.sp * inputs.qty;
    var unitMargin := inputs.sp - inputs.cp;
    var estAnnualMargin := AnnualMargin(inputs);
    var flows := ProjectFlows(inputs);
    var y5 := flows[5];
    var tv := TerminalValue(y5, inputs.terminalMultiple);
    var discRate := inputs.discount / 100.0;
    var npv := Npv(discRate, flows, if inputs.useTV then Some(tv) else None);
    var irr := Irr(flows);
    var pbp := Payback(flows);
    var v := Assess(npv, irr, pbp, inputs.thrNPV, inputs.thrIRR, inputs.thrPBP);
    Results(oemInv, laborCost, nre, estAnnualSales, unitMargin, estAnnualMargin,
            flows, y5, tv, npv, irr, pbp, v.passNPV, v.passIRR, v.passPBP, v.passes, v.status)
  }

  // ---------------------------------------------------------------------------
  // Display of non-finite values

  /** `formatCurrency`: a locale rendering for finite values, an em dash otherwise. */
  function FormatCurrency(value: Num, locale: real -> string): (s: string)
    ensures !value.Finite? ==> s == EmDash
    ensures value.Finite? ==> s == locale(value.value)
  {
    if value.Finite? then locale(value.value) else EmDash
  }

  /** `formatPercentage`: value * 100 to two decimals with a trailing `%`, or an
      em dash for a non-finite value. `fixed2` is `toFixed(2)`. */
  function FormatPercentage(value: Num, fixed2: real -> string): (s: string)
    ensures s == EmDash <==> !value.Finite?
    ensures value.Finite? ==> s == fixed2(value.value * 100.0) + "%"
  {
    if value.Finite? then
      var s := fixed2(value.value * 100.0) + "%";
      assert s[|s| - 1] == '%' != EmDash[0];
      s
    else EmDash
  }

  /** The defaults the form starts from. */
  const DefaultInputs: Inputs := Inputs(
    Some(""), Some(""), Some(""),
    3715.0, 3.0, 1400.0, 24.0, 100.0, 8000.0, 0.0,
    1875.0, 1125.0, 30.0,
    23.0, 35.0, 53.0, 55.0, 55.0,
    7.0, true, 10.0,
    0.0, 20.0, 4.3,
    Some(""))
}
