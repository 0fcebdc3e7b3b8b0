/** What the output of the controller says about the samples it has seen. */
module PidOutput {
  import opened Arith
  import opened PidControl

  /** How many of `n` samples a window looks at: the last `window`, or all of them. */
  function Seen(window: nat, n: nat): (w: nat)
    ensures w == n - StartOf(window, n)
  {
    if window == 0 || n < window then n else window
  }

  /** The output for a batch of errors. */
  function OutputFor(cfg: PidConfig, pidPu: real, errs: seq<int>, dt: int, st: PidState): int
    requires errs != [] && dt != 0
  {
    Output(cfg, pidPu, |errs|, dt, TermsOf(cfg, errs, st), StateAfter(cfg, errs, dt, st).integralError)
  }

  // ---------------------------------------------------------------------------------------------
  // Which gain counts
  // ---------------------------------------------------------------------------------------------

  lemma NothingPerSample(g: real, n: nat, dt: int)
    requires n > 0 && dt != 0
    ensures PerSample(g, 0, n) == 0.0 && PerTime(g, 0, dt, n) == 0.0
  {
  }

  lemma ProportionalSides(cfg: PidConfig, pidPu: real, n: nat, errSum: int, g: real)
    requires n > 0
    ensures 0 <= errSum ==> ProportionalPart(cfg, pidPu, n, errSum) == ProportionalPart(cfg, g, n, errSum)
    ensures errSum <= 0 ==>
              ProportionalPart(cfg, pidPu, n, errSum) == ProportionalPart(cfg.(pidPo := g), pidPu, n, errSum)
  {
    hide PerSample, TruncReal, StartOf;
    NothingPerSample(pidPu, n - StartOf(cfg.samplingWindowP, n), 1);
    NothingPerSample(g, n - StartOf(cfg.samplingWindowP, n), 1);
  }

  lemma DerivativeSides(cfg: PidConfig, n: nat, dt: int, derivativeSum: int, g: real)
    requires n > 0 && dt != 0
    ensures 0 <= derivativeSum ==>
              DerivativePart(cfg, n, dt, derivativeSum) == DerivativePart(cfg.(pidDu := g), n, dt, derivativeSum)
    ensures derivativeSum <= 0 ==>
              DerivativePart(cfg, n, dt, derivativeSum) == DerivativePart(cfg.(pidDo := g), n, dt, derivativeSum)
  {
    hide PerTime, TruncReal, StartOf;
    NothingPerSample(cfg.pidDu, n - StartOf(cfg.samplingWindowD, n), dt);
    NothingPerSample(g, n - StartOf(cfg.samplingWindowD, n), dt);
  }

  /** Each gain has its own side: with samples over the target on average the under-gain does not matter,
      with samples under it the over-gain does not, and likewise for a rising and a falling error. */
  lemma GainsHaveSides(cfg: PidConfig, pidPu: real, n: nat, dt: int, terms: PidTerms, integral: int, g: real)
    requires n > 0 && dt != 0
    ensures var output := Output(cfg, pidPu, n, dt, terms, integral);
            && (0 <= terms.errSum ==> output == Output(cfg, g, n, dt, terms, integral))
            && (terms.errSum <= 0 ==> output == Output(cfg.(pidPo := g), pidPu, n, dt, terms, integral))
            && (0 <= terms.derivativeSum ==> output == Output(cfg.(pidDu := g), pidPu, n, dt, terms, integral))
            && (terms.derivativeSum <= 0 ==> output == Output(cfg.(pidDo := g), pidPu, n, dt, terms, integral))
  {
    hide ProportionalPart, DerivativePart;
    ProportionalSides(cfg, pidPu, n, terms.errSum, g);
    DerivativeSides(cfg, n, dt, terms.derivativeSum, g);
    SameParts(cfg, cfg.(pidDu := g), pidPu, n, dt, terms);
    SameParts(cfg, cfg.(pidDo := g), pidPu, n, dt, terms);
    SameParts(cfg, cfg.(pidPo := g), pidPu, n, dt, terms);
  }

  /** Each part depends on its own gains and window only. */
  lemma SameParts(cfg: PidConfig, cfg': PidConfig, pidPu: real, n: nat, dt: int, terms: PidTerms)
    requires n > 0 && dt != 0
    ensures cfg'.pidPo == cfg.pidPo && cfg'.samplingWindowP == cfg.samplingWindowP ==>
              ProportionalPart(cfg', pidPu, n, terms.errSum) == ProportionalPart(cfg, pidPu, n, terms.errSum)
    ensures cfg'.pidDo == cfg.pidDo && cfg'.pidDu == cfg.pidDu && cfg'.samplingWindowD == cfg.samplingWindowD ==>
              DerivativePart(cfg', n, dt, terms.derivativeSum) == DerivativePart(cfg, n, dt, terms.derivativeSum)
  {
    hide PerTime, PerSample, TruncReal, StartOf;
  }

  // ---------------------------------------------------------------------------------------------
  // What each gain gives
  // ---------------------------------------------------------------------------------------------

  lemma NoGain(sum: int, n: nat, dt: int)
    requires n > 0 && dt != 0
    ensures PerSample(0.0, sum, n) == 0.0 && PerTime(0.0, sum, dt, n) == 0.0 && TruncReal(Times(0.0, sum as real)) == 0
    ensures TruncReal(0.0) == 0
  {
  }

  lemma WithoutGain(cfg: PidConfig, n: nat, dt: int, terms: PidTerms, integral: int)
    requires n > 0 && dt != 0
    ensures cfg.pidPo == 0.0 ==> ProportionalPart(cfg, 0.0, n, terms.errSum) == 0
    ensures cfg.pidI == 0.0 ==> IntegralPart(cfg, integral) == 0
    ensures cfg.pidDo == 0.0 && cfg.pidDu == 0.0 ==> DerivativePart(cfg, n, dt, terms.derivativeSum) == 0
  {
    hide Times, PerTime, PerSample, TruncReal, StartOf;
    NoGain(terms.errSum, n - StartOf(cfg.samplingWindowP, n), dt);
    NoGain(integral, 1, dt);
    NoGain(terms.derivativeSum, n - StartOf(cfg.samplingWindowD, n), dt);
  }

  /** The output is the sum of what the three kinds of gain give by themselves. */
  lemma OutputIsSum(cfg: PidConfig, pidPu: real, n: nat, dt: int, terms: PidTerms, integral: int)
    requires n > 0 && dt != 0
    ensures var onlyP := cfg.(pidI := 0.0, pidDo := 0.0, pidDu := 0.0);
            var onlyI := cfg.(pidPo := 0.0, pidDo := 0.0, pidDu := 0.0);
            var onlyD := cfg.(pidPo := 0.0, pidI := 0.0);
            Output(cfg, pidPu, n, dt, terms, integral) ==
            Output(onlyP, pidPu, n, dt, terms, integral) + Output(onlyI, 0.0, n, dt, terms, integral) +
            Output(onlyD, 0.0, n, dt, terms, integral)
  {
    hide ProportionalPart, DerivativePart;
    var onlyP := cfg.(pidI := 0.0, pidDo := 0.0, pidDu := 0.0);
    var onlyI := cfg.(pidPo := 0.0, pidDo := 0.0, pidDu := 0.0);
    var onlyD := cfg.(pidPo := 0.0, pidI := 0.0);
    WithoutGain(onlyP, n, dt, terms, integral);
    WithoutGain(onlyI, n, dt, terms, integral);
    WithoutGain(onlyD, n, dt, terms, integral);
    SameParts(cfg, onlyP, pidPu, n, dt, terms);
    SameParts(cfg, onlyD, pidPu, n, dt, terms);
  }

  lemma Averaged(g: real, sum: int, dt: int, n: nat)
    requires n > 0 && dt != 0
    ensures PerSample(g, sum, n) == Times(g, sum as real / n as real)
    ensures PerTime(g, sum, dt, n) == Times(g, sum as real / n as real) / dt as real
  {
  }

  /** With one proportional gain alone, the output is that gain times the mean of the errors that the
      proportional window sees, cut toward zero. */
  lemma ProportionalOutput(cfg: PidConfig, g: real, errs: seq<int>, dt: int, st: PidState)
    requires errs != [] && dt != 0
    requires cfg.pidPo == g && cfg.pidI == 0.0 && cfg.pidDo == 0.0 && cfg.pidDu == 0.0
    ensures var w := Seen(cfg.samplingWindowP, |errs|);
            var mean := Sum(errs[|errs| - w..]) as real / w as real;
            OutputFor(cfg, g, errs, dt, st) == TruncReal(Times(g, mean))
  {
    hide Times, PerSample, TruncReal, StateAfter, DerivativePart, IntegralPart;
    var n, terms := |errs|, TermsOf(cfg, errs, st);
    WithoutGain(cfg, n, dt, terms, StateAfter(cfg, errs, dt, st).integralError);
    var w := Seen(cfg.samplingWindowP, n);
    Averaged(g, terms.errSum, dt, w);
    assert terms.errSum == Sum(errs[n - w..]);
    assert OutputFor(cfg, g, errs, dt, st) == TruncReal(PerSample(g, terms.errSum, w));
  }

  /** With the integral gain alone, it is that gain times the integral that the batch leaves behind. */
  lemma IntegralOutput(cfg: PidConfig, errs: seq<int>, dt: int, st: PidState)
    requires errs != [] && dt != 0 && cfg.pidPo == 0.0 && cfg.pidDo == 0.0 && cfg.pidDu == 0.0
    ensures var w := Seen(cfg.samplingWindowI, |errs|);
            var integral := Integral(errs[|errs| - w..], dt, cfg.pidILowDivI, cfg.pidIHighDivI, st.integralError);
            OutputFor(cfg, 0.0, errs, dt, st) == TruncReal(Times(cfg.pidI, integral as real))
  {
    hide Times, TruncReal, TermsOf, DerivativePart, ProportionalPart, Integral;
    var integral := StateAfter(cfg, errs, dt, st).integralError;
    WithoutGain(cfg, |errs|, dt, TermsOf(cfg, errs, st), integral);
    assert integral == Integral(errs[|errs| - Seen(cfg.samplingWindowI, |errs|)..], dt, cfg.pidILowDivI,
                                cfg.pidIHighDivI, st.integralError);
    assert OutputFor(cfg, 0.0, errs, dt, st) == IntegralPart(cfg, integral);
  }

  /** The loop has visited the sample before the derivative window. */
  predicate LooksBack(cfg: PidConfig, n: nat) {
    Seen(cfg.samplingWindowD, n) < Max(Seen(cfg.samplingWindowP, n), Seen(cfg.samplingWindowI, n))
  }

  /** With one derivative gain alone, it is that gain times the mean change of the error over the samples
      that the derivative window sees, per target time. */
  lemma DerivativeOutput(cfg: PidConfig, g: real, errs: seq<int>, dt: int, st: PidState)
    requires errs != [] && dt != 0
    requires cfg.pidPo == 0.0 && cfg.pidI == 0.0 && cfg.pidDo == g && cfg.pidDu == g
    ensures var n, w := |errs|, Seen(cfg.samplingWindowD, |errs|);
            var before := if LooksBack(cfg, n) then errs[n - w - 1] else st.previousError;
            var mean := (errs[n - 1] - before) as real / w as real;
            OutputFor(cfg, 0.0, errs, dt, st) == TruncReal(Times(g, mean) / dt as real)
  {
    hide Times, PerTime, TruncReal, StateAfter, ProportionalPart, IntegralPart, Sum;
    var n, terms := |errs|, TermsOf(cfg, errs, st);
    WithoutGain(cfg, n, dt, terms, StateAfter(cfg, errs, dt, st).integralError);
    var w := Seen(cfg.samplingWindowD, n);
    Averaged(g, terms.derivativeSum, dt, w);
    assert terms.derivativeSum == errs[n - 1] - if LooksBack(cfg, n) then errs[n - w - 1] else st.previousError;
    assert OutputFor(cfg, 0.0, errs, dt, st) == TruncReal(PerTime(g, terms.derivativeSum, dt, w));
  }

  // ---------------------------------------------------------------------------------------------
  // Which way it goes
  // ---------------------------------------------------------------------------------------------

  /** An error is the distance from the target in whole units of 100 microseconds, with its sign. */
  lemma ErrorInUnits(durationNs: int, targetNs: int)
    ensures var error, distance := ErrorOf(durationNs, targetNs), durationNs - targetNs;
            && distance - 100_000 < 100_000 * error < distance + 100_000
            && (0 <= distance ==> 0 <= error) && (distance <= 0 ==> error <= 0)
  {
  }

  predicate GainsFine(cfg: PidConfig, pidPu: real) {
    0.0 <= cfg.pidPo && 0.0 <= pidPu && 0.0 <= cfg.pidI && 0.0 <= cfg.pidDo && 0.0 <= cfg.pidDu
  }

  lemma SignOfProduct(g: real, sum: int, dt: int, n: nat)
    requires 0.0 <= g && n > 0 && dt > 0
    ensures 0 <= sum ==> 0.0 <= PerSample(g, sum, n) && 0.0 <= PerTime(g, sum, dt, n) && 0.0 <= Times(g, sum as real)
    ensures sum <= 0 ==> PerSample(g, sum, n) <= 0.0 && PerTime(g, sum, dt, n) <= 0.0 && Times(g, sum as real) <= 0.0
  {
    SignOfTimes(g, sum as real);
    SignOfQuotient(g * sum as real, n as real);
    SignOfQuotient(g * sum as real, dt as real);
    SignOfQuotient(g * sum as real / dt as real, n as real);
  }

  lemma SignOfTimes(g: real, x: real)
    requires 0.0 <= g
    ensures 0.0 <= x ==> 0.0 <= g * x
    ensures x <= 0.0 ==> g * x <= 0.0
  {
  }

  lemma SignOfQuotient(x: real, d: real)
    requires 0.0 < d
    ensures 0.0 <= x ==> 0.0 <= x / d
    ensures x <= 0.0 ==> x / d <= 0.0
  {
  }

  lemma SignOfCut(x: real)
    ensures 0.0 <= x ==> 0 <= TruncReal(x)
    ensures x <= 0.0 ==> TruncReal(x) <= 0
  {
  }

  /** With gains that are not negative, the output has the sign that its three terms agree on. */
  lemma OutputSign(cfg: PidConfig, pidPu: real, n: nat, dt: int, terms: PidTerms, integral: int)
    requires n > 0 && dt > 0 && GainsFine(cfg, pidPu)
    ensures 0 <= terms.errSum && 0 <= integral && 0 <= terms.derivativeSum ==>
              0 <= Output(cfg, pidPu, n, dt, terms, integral)
    ensures terms.errSum <= 0 && integral <= 0 && terms.derivativeSum <= 0 ==>
              Output(cfg, pidPu, n, dt, terms, integral) <= 0
  {
    hide Times, PerTime, PerSample, TruncReal, StartOf;
    var np, nd := n - StartOf(cfg.samplingWindowP, n), n - StartOf(cfg.samplingWindowD, n);
    var gp := if terms.errSum > 0 then cfg.pidPo else pidPu;
    var gd := if terms.derivativeSum > 0 then cfg.pidDo else cfg.pidDu;
    SignOfProduct(gp, terms.errSum, dt, np);
    SignOfProduct(cfg.pidI, integral, dt, 1);
    SignOfProduct(gd, terms.derivativeSum, dt, nd);
    SignOfCut(PerSample(gp, terms.errSum, np));
    SignOfCut(Times(cfg.pidI, integral as real));
    SignOfCut(PerTime(gd, terms.derivativeSum, dt, nd));
  }

  lemma {:induction false} SignOfSums(errs: seq<int>, dt: int, low: int, high: int, init: int)
    requires dt > 0
    ensures (forall i :: 0 <= i < |errs| ==> 0 <= errs[i]) ==>
              0 <= Sum(errs) && (0 <= high && 0 <= init ==> 0 <= Integral(errs, dt, low, high, init))
    ensures (forall i :: 0 <= i < |errs| ==> errs[i] <= 0) ==>
              Sum(errs) <= 0 && (low <= 0 && init <= 0 ==> Integral(errs, dt, low, high, init) <= 0)
    decreases |errs|
  {
    if errs != [] {
      var n := |errs| - 1;
      SignOfSums(errs[..n], dt, low, high, init);
      assert 0 <= errs[n] ==> 0 <= errs[n] * dt;
      assert errs[n] <= 0 ==> errs[n] * dt <= 0;
    }
  }

  /** A batch of frames that all miss their target, with an integral that is not negative and an error that
      does not fall, never lowers the boost; a batch of frames that all meet it, with the reverse, never
      raises it. */
  lemma LateFramesRaise(cfg: PidConfig, pidPu: real, durations: seq<int>, targetNs: int, dt: int, st: PidState)
    requires durations != [] && dt > 0 && GainsFine(cfg, pidPu) && cfg.pidILowDivI <= 0 <= cfg.pidIHighDivI
    ensures var errs := Errors(durations, targetNs);
            var derivative := TermsOf(cfg, errs, st).derivativeSum;
            var late := forall i :: 0 <= i < |durations| ==> targetNs <= durations[i];
            var early := forall i :: 0 <= i < |durations| ==> durations[i] <= targetNs;
            && (late && 0 <= st.integralError && 0 <= derivative ==> 0 <= OutputFor(cfg, pidPu, errs, dt, st))
            && (early && st.integralError <= 0 && derivative <= 0 ==> OutputFor(cfg, pidPu, errs, dt, st) <= 0)
  {
    hide ErrorOf, Sum, Integral, Output;
    var errs := Errors(durations, targetNs);
    var n := |errs|;
    forall i | 0 <= i < n
      ensures (targetNs <= durations[i] ==> 0 <= errs[i]) && (durations[i] <= targetNs ==> errs[i] <= 0)
    {
      ErrorInUnits(durations[i], targetNs);
    }
    SignOfSums(errs[StartOf(cfg.samplingWindowP, n)..], dt, cfg.pidILowDivI, cfg.pidIHighDivI, st.integralError);
    SignOfSums(errs[StartOf(cfg.samplingWindowI, n)..], dt, cfg.pidILowDivI, cfg.pidIHighDivI, st.integralError);
    OutputSign(cfg, pidPu, n, dt, TermsOf(cfg, errs, st), StateAfter(cfg, errs, dt, st).integralError);
  }
}
