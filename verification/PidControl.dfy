/** The controller that turns reported durations into a change of the uclamp minimum
    (PowerHintSession::convertWorkDurationToBoostByPid). Errors are in units of 100 microseconds. */
module PidControl {
  import opened Arith

  datatype PidConfig = PidConfig(
    samplingWindowP: nat, samplingWindowI: nat, samplingWindowD: nat,
    pidPo: real, pidI: real, pidDo: real, pidDu: real,
    pidIHighDivI: int, pidILowDivI: int)

  function To100us(ns: int): int { TruncDiv(ns, 100000) }

  function ErrorOf(durationNs: int, targetNs: int): int { To100us(durationNs - targetNs) }

  function Errors(durations: seq<int>, targetNs: int): (r: seq<int>)
    ensures |r| == |durations|
    ensures forall i :: 0 <= i < |r| ==> r[i] == ErrorOf(durations[i], targetNs)
  {
    seq(|durations|, i requires 0 <= i < |durations| => ErrorOf(durations[i], targetNs))
  }

  /** Where a sampling window over `n` samples starts; zero means no limit. */
  function StartOf(window: nat, n: nat): (start: nat)
    ensures start <= n && (n > 0 ==> start < n)
  {
    if window == 0 || window > n then 0 else n - window
  }

  function Sum(xs: seq<int>): int {
    if xs == [] then 0 else Sum(xs[..|xs| - 1]) + xs[|xs| - 1]
  }

  function ClampIntegral(x: int, low: int, high: int): int { Max(low, Min(high, x)) }

  /** The integral after the errors have been accumulated, clamped at every step. */
  function Integral(errs: seq<int>, dt: int, low: int, high: int, init: int): int {
    if errs == [] then init
    else ClampIntegral(Integral(errs[..|errs| - 1], dt, low, high, init) + errs[|errs| - 1] * dt, low, high)
  }

  /** The error before position `i`: the sample before it if the loop saw one, else the one
      remembered from the last batch. */
  function ErrorBefore(errs: seq<int>, i: nat, start: nat, previous: int): int
    requires i <= |errs|
  {
    if start < i then errs[i - 1] else previous
  }

  datatype PidState = PidState(integralError: int, previousError: int)

  datatype PidTerms = PidTerms(errSum: int, derivativeSum: int)

  function LoopStart(cfg: PidConfig, n: nat): (start: nat)
    ensures start <= n
  {
    Min(StartOf(cfg.samplingWindowP, n), Min(StartOf(cfg.samplingWindowI, n), StartOf(cfg.samplingWindowD, n)))
  }

  /** What one batch of errors leaves in the controller. */
  function StateAfter(cfg: PidConfig, errs: seq<int>, dt: int, st: PidState): PidState {
    if errs == [] then st
    else PidState(
      Integral(errs[StartOf(cfg.samplingWindowI, |errs|)..], dt, cfg.pidILowDivI, cfg.pidIHighDivI, st.integralError),
      errs[|errs| - 1])
  }

  /** The proportional and derivative sums of one batch. The derivative is the last error minus the
      error seen just before the derivative window. */
  function TermsOf(cfg: PidConfig, errs: seq<int>, st: PidState): PidTerms {
    if errs == [] then PidTerms(0, 0)
    else
      var n := |errs|;
      PidTerms(
        Sum(errs[StartOf(cfg.samplingWindowP, n)..]),
        errs[n - 1] - ErrorBefore(errs, StartOf(cfg.samplingWindowD, n), LoopStart(cfg, n), st.previousError))
  }

  function Times(a: real, b: real): real { a * b }

  /** A gain times an average. */
  function PerSample(gain: real, sum: int, n: nat): real
    requires n > 0
  {
    gain * sum as real / n as real
  }

  function PerTime(gain: real, sum: int, dt: int, n: nat): real
    requires n > 0 && dt != 0
  {
    gain * sum as real / dt as real / n as real
  }

  /** The three parts of the output, each cut to an integer. */
  function ProportionalPart(cfg: PidConfig, pidPu: real, n: nat, errSum: int): int
    requires n > 0
  {
    TruncReal(PerSample(if errSum > 0 then cfg.pidPo else pidPu, errSum, n - StartOf(cfg.samplingWindowP, n)))
  }

  function IntegralPart(cfg: PidConfig, integralError: int): int {
    TruncReal(Times(cfg.pidI, integralError as real))
  }

  function DerivativePart(cfg: PidConfig, n: nat, dt: int, derivativeSum: int): int
    requires n > 0 && dt != 0
  {
    TruncReal(PerTime(if derivativeSum > 0 then cfg.pidDo else cfg.pidDu, derivativeSum, dt,
                      n - StartOf(cfg.samplingWindowD, n)))
  }

  function Output(cfg: PidConfig, pidPu: real, n: nat, dt: int, terms: PidTerms, integralError: int): int
    requires n > 0 && dt != 0
  {
    ProportionalPart(cfg, pidPu, n, terms.errSum) + IntegralPart(cfg, integralError) +
    DerivativePart(cfg, n, dt, terms.derivativeSum)
  }

  /** The sums as the loop builds them, up to position `i`. */
  function SumFrom(errs: seq<int>, from: nat, i: nat): int
    requires i <= |errs|
  {
    if i <= from then 0 else SumFrom(errs, from, i - 1) + errs[i - 1]
  }

  function IntegralFrom(errs: seq<int>, from: nat, i: nat, dt: int, low: int, high: int, init: int): int
    requires i <= |errs|
  {
    if i <= from then init
    else ClampIntegral(IntegralFrom(errs, from, i - 1, dt, low, high, init) + errs[i - 1] * dt, low, high)
  }

  /** What the sums come to once all samples have been visited. */
  lemma AtTheEnd(cfg: PidConfig, errs: seq<int>, dt: int, st: PidState)
    ensures var n := |errs|;
            var start := LoopStart(cfg, n);
            var last := ErrorBefore(errs, n, start, st.previousError);
            var dStart := StartOf(cfg.samplingWindowD, n);
            && StateAfter(cfg, errs, dt, st) ==
               PidState(IntegralFrom(errs, StartOf(cfg.samplingWindowI, n), n, dt, cfg.pidILowDivI, cfg.pidIHighDivI,
                                     st.integralError), last)
            && TermsOf(cfg, errs, st) ==
               PidTerms(SumFrom(errs, StartOf(cfg.samplingWindowP, n), n),
                        if n <= dStart then 0 else last - ErrorBefore(errs, dStart, start, st.previousError))
  {
    var n := |errs|;
    var pStart, iStart := StartOf(cfg.samplingWindowP, n), StartOf(cfg.samplingWindowI, n);
    FromStart(errs, pStart, n, 0, 0, 0, 0);
    FromStart(errs, iStart, n, dt, cfg.pidILowDivI, cfg.pidIHighDivI, st.integralError);
    assert errs[pStart..n] == errs[pStart..] && errs[iStart..n] == errs[iStart..];
  }

  lemma {:induction false} FromStart(errs: seq<int>, from: nat, i: nat, dt: int, low: int, high: int, init: int)
    requires from <= i <= |errs|
    ensures SumFrom(errs, from, i) == Sum(errs[from..i])
    ensures IntegralFrom(errs, from, i, dt, low, high, init) == Integral(errs[from..i], dt, low, high, init)
    decreases i
  {
    if from < i {
      FromStart(errs, from, i - 1, dt, low, high, init);
      assert errs[from..i][..i - 1 - from] == errs[from..i - 1];
    }
  }

  lemma IntegralSnoc(errs: seq<int>, x: int, dt: int, low: int, high: int, init: int)
    ensures Integral(errs + [x], dt, low, high, init) ==
            ClampIntegral(Integral(errs, dt, low, high, init) + x * dt, low, high)
  {
    assert (errs + [x])[..|errs|] == errs;
  }

  /** The loop over the samples. */
  method Accumulate(cfg: PidConfig, durations: seq<int>, targetNs: int, dt: int, st: PidState)
    returns (st': PidState, terms: PidTerms)
    ensures st' == StateAfter(cfg, Errors(durations, targetNs), dt, st)
    ensures terms == TermsOf(cfg, Errors(durations, targetNs), st)
  {
    hide To100us, StateAfter, TermsOf, Integral, Sum;
    var length := |durations|;
    var pStart := StartOf(cfg.samplingWindowP, length);
    var iStart := StartOf(cfg.samplingWindowI, length);
    var dStart := StartOf(cfg.samplingWindowD, length);
    var errSum, derivativeSum := 0, 0;
    var integralError, previousError := st.integralError, st.previousError;
    ghost var errs := Errors(durations, targetNs);
    var start := Min(pStart, Min(iStart, dStart));
    for i := start to length
      invariant errSum == SumFrom(errs, pStart, i)
      invariant integralError == IntegralFrom(errs, iStart, i, dt, cfg.pidILowDivI, cfg.pidIHighDivI, st.integralError)
      invariant previousError == ErrorBefore(errs, i, start, st.previousError)
      invariant derivativeSum == if i <= dStart then 0
                                 else previousError - ErrorBefore(errs, dStart, start, st.previousError)
    {
      var error := To100us(durations[i] - targetNs);
      assert error == errs[i];
      if i >= dStart {
        derivativeSum := derivativeSum + (error - previousError);
      }
      if i >= pStart {
        errSum := errSum + error;
      }
      if i >= iStart {
        integralError := integralError + error * dt;
        integralError := Min(cfg.pidIHighDivI, integralError);
        integralError := Max(cfg.pidILowDivI, integralError);
      }
      previousError := error;
    }
    AtTheEnd(cfg, errs, dt, st);
    return PidState(integralError, previousError), PidTerms(errSum, derivativeSum);
  }

  // ---------------------------------------------------------------------------------------------
  // Properties
  // ---------------------------------------------------------------------------------------------

  /** After any errors the integral is within its bounds, whatever it was before. */
  lemma IntegralBounded(errs: seq<int>, dt: int, low: int, high: int, init: int)
    requires errs != [] && low <= high
    ensures low <= Integral(errs, dt, low, high, init) <= high
  {
  }

  /** After any report, whatever the sampling windows, the integral is within its bounds. */
  lemma StateInBounds(cfg: PidConfig, errs: seq<int>, dt: int, st: PidState)
    requires errs != [] && cfg.pidILowDivI <= cfg.pidIHighDivI
    ensures cfg.pidILowDivI <= StateAfter(cfg, errs, dt, st).integralError <= cfg.pidIHighDivI
  {
    var start := StartOf(cfg.samplingWindowI, |errs|);
    assert errs[start..] != [];
    IntegralBounded(errs[start..], dt, cfg.pidILowDivI, cfg.pidIHighDivI, st.integralError);
  }

  /** Accumulating in two parts is accumulating at once. */
  lemma {:induction false} IntegralConcat(a: seq<int>, b: seq<int>, dt: int, low: int, high: int, init: int)
    ensures Integral(a + b, dt, low, high, init) == Integral(b, dt, low, high, Integral(a, dt, low, high, init))
    decreases |b|
  {
    if b == [] {
      assert a + b == a;
    } else {
      var n := |b| - 1;
      IntegralConcat(a, b[..n], dt, low, high, init);
      assert a + b == (a + b[..n]) + [b[n]];
      IntegralSnoc(a + b[..n], b[n], dt, low, high, init);
    }
  }

  function Flatten(batches: seq<seq<int>>): seq<int> {
    if batches == [] then [] else Flatten(batches[..|batches| - 1]) + batches[|batches| - 1]
  }

  function RunBatches(cfg: PidConfig, batches: seq<seq<int>>, dt: int, st: PidState): PidState {
    if batches == [] then st
    else StateAfter(cfg, batches[|batches| - 1], dt, RunBatches(cfg, batches[..|batches| - 1], dt, st))
  }

  /** No sample of the batch falls outside the integral window. */
  predicate Whole(cfg: PidConfig, batch: seq<int>) {
    cfg.samplingWindowI == 0 || |batch| <= cfg.samplingWindowI
  }

  /** Batching does not matter: with a fixed target, and every batch inside the integral window, the
      controller's state depends only on the sequence of samples. */
  lemma {:induction false} BatchingIsIrrelevant(cfg: PidConfig, batches: seq<seq<int>>, dt: int, st: PidState)
    requires forall i :: 0 <= i < |batches| ==> Whole(cfg, batches[i])
    ensures var all := Flatten(batches);
            RunBatches(cfg, batches, dt, st) ==
            if all == [] then st
            else PidState(Integral(all, dt, cfg.pidILowDivI, cfg.pidIHighDivI, st.integralError), all[|all| - 1])
    decreases |batches|
  {
    if batches != [] {
      var n := |batches| - 1;
      var last := batches[n];
      BatchingIsIrrelevant(cfg, batches[..n], dt, st);
      assert Whole(cfg, last);
      assert last[StartOf(cfg.samplingWindowI, |last|)..] == last;
      IntegralConcat(Flatten(batches[..n]), last, dt, cfg.pidILowDivI, cfg.pidIHighDivI, st.integralError);
      if last == [] {
        assert Flatten(batches) == Flatten(batches[..n]);
      }
    }
  }

  /** A batch longer than the integral window is where batching shows: the samples before the window
      are lost, and one sample more in front can change nothing. */
  lemma LongBatchForgets(cfg: PidConfig, batch: seq<int>, more: seq<int>, dt: int, st: PidState)
    requires 0 < cfg.samplingWindowI <= |batch|
    ensures StateAfter(cfg, more + batch, dt, st) == StateAfter(cfg, batch, dt, st)
  {
    var w := cfg.samplingWindowI;
    assert (more + batch)[|more| + |batch| - w..] == batch[|batch| - w..];
  }

  /** The derivative sums of consecutive batches, added up. */
  function DerivativeTotal(cfg: PidConfig, batches: seq<seq<int>>, dt: int, st: PidState): int {
    if batches == [] then 0
    else
      var n := |batches| - 1;
      DerivativeTotal(cfg, batches[..n], dt, st) +
      TermsOf(cfg, batches[n], RunBatches(cfg, batches[..n], dt, st)).derivativeSum
  }

  /** No window opens before the derivative window, as for every batch that fits into the latter. */
  predicate DerivativeOpensFirst(cfg: PidConfig, batch: seq<int>) {
    StartOf(cfg.samplingWindowD, |batch|) == LoopStart(cfg, |batch|)
  }

  /** The derivative sums telescope: with batches for which the derivative window opens first they add
      up to the last error minus the error before the first batch. */
  lemma {:induction false} DerivativeTelescopes(cfg: PidConfig, batches: seq<seq<int>>, dt: int, st: PidState)
    requires forall i :: 0 <= i < |batches| ==> DerivativeOpensFirst(cfg, batches[i])
    ensures DerivativeTotal(cfg, batches, dt, st) ==
            RunBatches(cfg, batches, dt, st).previousError - st.previousError
    decreases |batches|
  {
    if batches != [] {
      var n := |batches| - 1;
      DerivativeTelescopes(cfg, batches[..n], dt, st);
      assert DerivativeOpensFirst(cfg, batches[n]);
    }
  }
}
