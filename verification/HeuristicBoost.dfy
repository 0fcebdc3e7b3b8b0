/** The switch that raises the uclamp ceiling of a janky session (PowerHintSession::updateHeuristicBoost). */
module HeuristicBoost {
  import opened Arith
  import opened SessionRecords

  datatype BoostConfig = BoostConfig(
    maxRecords: nat, isJank: JankTest, onMissed: int, offMissed: int, offRatio: real, lowFps: int,
    uclampMin: int, pidPuFactor: real)

  datatype Verdict = On | Off | Keep

  /** The longest of the records `lo..hi`. */
  function MaxUs(h: seq<CycleRecord>, lo: nat, hi: nat): (m: int)
    requires lo < hi <= |h|
    ensures IsMaxDuration(h, lo, hi, m)
    decreases hi
  {
    var last := h[hi - 1].totalDurationUs;
    if lo + 1 == hi then last else Max(MaxUs(h, lo, hi - 1), last)
  }

  function Average(h: seq<CycleRecord>, k: nat): int
    requires h != [] && k > 0
  {
    var lo := WindowStart(|h|, k);
    TruncDiv(SumUs(h, lo, |h|), |h| - lo)
  }

  /** The rule, from the statistics it looks at. */
  function JudgeBy(cfg: BoostConfig, lowFrameRate: bool, missed: int, maxToAvgRatio: int): Verdict {
    if lowFrameRate then Off
    else if missed >= cfg.onMissed then On
    else if missed <= cfg.offMissed && maxToAvgRatio as real < cfg.offRatio then Off
    else Keep
  }

  /** The rule over the window of the last `maxRecords` records. The ratio is an integer quotient. */
  function Judge(cfg: BoostConfig, h: seq<CycleRecord>): Verdict
    requires h != [] && cfg.maxRecords > 0 && Average(h, cfg.maxRecords) != 0
  {
    var lo := WindowStart(|h|, cfg.maxRecords);
    JudgeBy(cfg, LowFrameRate(h, cfg.maxRecords, cfg.lowFps), CountMissed(h, lo, |h|),
            TruncDiv(MaxUs(h, lo, |h|), Average(h, cfg.maxRecords)))
  }

  lemma TheMaximum(h: seq<CycleRecord>, lo: nat, hi: nat, m: int)
    requires lo < hi <= |h| && IsMaxDuration(h, lo, hi, m)
    ensures m == MaxUs(h, lo, hi)
  {
  }

  predicate Apply(v: Verdict, active: bool) {
    v == On || (v == Keep && active)
  }

  /** The switch after a sequence of verdicts. */
  predicate ActiveAfter(vs: seq<Verdict>, active: bool) {
    if vs == [] then active else Apply(vs[|vs| - 1], ActiveAfter(vs[..|vs| - 1], active))
  }

  /** The switch is on exactly if some verdict turned it on and none since has turned it off, or if
      it was on from the start and none has turned it off. */
  lemma {:induction false} LastVerdictDecides(vs: seq<Verdict>, active: bool)
    ensures ActiveAfter(vs, active) <==>
            || (active && Off !in vs)
            || exists j :: 0 <= j < |vs| && vs[j] == On && Off !in vs[j..]
    decreases |vs|
  {
    if vs != [] {
      var n := |vs| - 1;
      var init := vs[..n];
      LastVerdictDecides(init, active);
      assert vs == init + [vs[n]];
      if vs[n] == On {
        assert vs[n..] == [On];
      } else {
        assert forall j :: 0 <= j < n ==> vs[j..] == init[j..] + [vs[n]];
      }
    }
  }

  lemma {:induction false} FirstVerdictFirst(v: Verdict, vs: seq<Verdict>, active: bool)
    ensures ActiveAfter([v] + vs, active) == ActiveAfter(vs, Apply(v, active))
    decreases |vs|
  {
    if vs == [] {
      assert [v] + vs == [v];
    } else {
      var n := |vs| - 1;
      FirstVerdictFirst(v, vs[..n], active);
      assert ([v] + vs)[..n + 1] == [v] + vs[..n];
    }
  }

  /** When the average is zero the quotient is undefined; that is exactly when the durations of the
      window add up to less than one microsecond each. */
  lemma AverageZeroIff(h: seq<CycleRecord>, k: nat)
    requires h != [] && k > 0
    ensures var lo := WindowStart(|h|, k);
            Average(h, k) == 0 <==> Abs(SumUs(h, lo, |h|)) < |h| - lo
  {
    var lo := WindowStart(|h|, k);
    QuotientZeroIff(Abs(SumUs(h, lo, |h|)), |h| - lo);
  }

  lemma QuotientZeroIff(a: nat, b: nat)
    requires b > 0
    ensures a / b == 0 <==> a < b
  {
    assert a == b * (a / b) + a % b;
  }

  /** With a positive average the longest duration is at least the average, so the quotient is at
      least one: a ratio setting of one or less never switches the boost off. */
  lemma MaxAtLeastAverage(h: seq<CycleRecord>, k: nat)
    requires h != [] && k > 0 && Average(h, k) > 0
    ensures var lo := WindowStart(|h|, k);
            Average(h, k) <= MaxUs(h, lo, |h|) && 1 <= TruncDiv(MaxUs(h, lo, |h|), Average(h, k))
  {
    var lo := WindowStart(|h|, k);
    QuotientScaled(SumUs(h, lo, |h|), |h| - lo);
    SomeAtLeast(h, lo, |h|, Average(h, k));
    QuotientAtLeastOne(MaxUs(h, lo, |h|), Average(h, k));
  }

  lemma QuotientScaled(a: int, b: nat)
    requires b > 0 && TruncDiv(a, b) > 0
    ensures b * TruncDiv(a, b) <= a
  {
  }

  lemma QuotientAtLeastOne(a: int, b: int)
    requires 0 < b <= a
    ensures 1 <= TruncDiv(a, b)
  {
    QuotientZeroIff(a, b);
  }

  lemma {:induction false} SomeAtLeast(h: seq<CycleRecord>, lo: nat, hi: nat, m: int)
    requires lo < hi <= |h| && (hi - lo) * m <= SumUs(h, lo, hi)
    ensures exists i :: lo <= i < hi && m <= h[i].totalDurationUs
    decreases hi
  {
    if lo + 1 < hi && h[hi - 1].totalDurationUs < m {
      assert (hi - lo) * m == (hi - 1 - lo) * m + m;
      SomeAtLeast(h, lo, hi - 1, m);
    }
  }
}
