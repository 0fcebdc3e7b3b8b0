/** When the heuristic boost of a session goes on and off, in terms of the reports themselves. */
module BoostRule {
  import opened Arith
  import opened SessionRecords
  import opened HeuristicBoost
  import opened HintSession
  import opened SessionSystem

  /** The oldest report that still counts. */
  function Oldest(cfg: BoostConfig, reports: seq<Report>): nat {
    if |reports| <= cfg.maxRecords then 0 else |reports| - cfg.maxRecords
  }

  function DurationAt(reports: seq<Report>, i: nat): int
    requires i < |reports|
  {
    ToInt32(TruncDiv(reports[i].work.durationNanos, 1000))
  }

  /** Microseconds from the start of the cycle before to the start of cycle `i`; none for the first. */
  function StartDelay(reports: seq<Report>, i: nat): int
    requires i < |reports|
  {
    if i == 0 then 0
    else
      var start := reports[i].work.timeStampNanos - reports[i].work.durationNanos;
      var before := reports[i - 1].work.timeStampNanos - reports[i - 1].work.durationNanos;
      ToInt32(TruncDiv(start - before, 1000))
  }

  /** The reports of the window that missed the target they were made under. */
  function MissedReports(cfg: BoostConfig, reports: seq<Report>): set<int> {
    set i | Oldest(cfg, reports) <= i < |reports| &&
            cfg.isJank(DurationAt(reports, i), TruncDiv(reports[i].targetNs, 1000))
  }

  /** The last three cycles have all started at least the slowest acceptable cycle time after the ones
      before them. */
  predicate LowRate(cfg: BoostConfig, reports: seq<Report>) {
    && 3 <= cfg.maxRecords && 3 <= |reports| && cfg.lowFps != 0
    && forall i :: |reports| - 3 <= i < |reports| ==>
         StartDelay(reports, i) as real >= 1000000.0 / cfg.lowFps as real
  }

  /** With the test that a session's records are made for, those are the reports that took longer than the
      target times the configured factor. */
  lemma MissedWhenLonger(cfg: BoostConfig, factor: real, reports: seq<Report>, i: int)
    requires cfg.isJank == JankTestFor(factor)
    ensures i in MissedReports(cfg, reports) <==>
            Oldest(cfg, reports) <= i < |reports| &&
            TruncDiv(reports[i].targetNs, 1000) as real * factor < DurationAt(reports, i) as real
  {
    hide TruncDiv, DurationAt;
  }

  ghost predicate IsLongest(cfg: BoostConfig, reports: seq<Report>, m: int) {
    && (exists i :: Oldest(cfg, reports) <= i < |reports| && DurationAt(reports, i) == m)
    && forall i :: Oldest(cfg, reports) <= i < |reports| ==> DurationAt(reports, i) <= m
  }

  function TotalUs(reports: seq<Report>, lo: nat, hi: nat): int
    requires lo <= hi <= |reports|
    decreases hi
  {
    if lo == hi then 0 else TotalUs(reports, lo, hi - 1) + DurationAt(reports, hi - 1)
  }

  /** The average duration of the window, in whole microseconds. */
  function AverageUs(cfg: BoostConfig, reports: seq<Report>): int
    requires reports != [] && cfg.maxRecords > 0
  {
    var lo := Oldest(cfg, reports);
    TruncDiv(TotalUs(reports, lo, |reports|), |reports| - lo)
  }

  // ---------------------------------------------------------------------------------------------
  // The statistics are those of the reports
  // ---------------------------------------------------------------------------------------------

  function HistoryOf(cfg: BoostConfig, reports: seq<Report>): (h: seq<CycleRecord>)
    ensures |h| == |reports|
  {
    History(cfg.maxRecords, cfg.isJank, reports)
  }

  lemma RecordMeans(cfg: BoostConfig, reports: seq<Report>, i: nat)
    requires i < |reports|
    ensures var r := HistoryOf(cfg, reports)[i];
            && r.totalDurationUs == DurationAt(reports, i)
            && r.isMissedCycle == cfg.isJank(DurationAt(reports, i), TruncDiv(reports[i].targetNs, 1000))
            && (cfg.maxRecords != 1 ==> r.startIntervalUs == StartDelay(reports, i))
  {
    hide TruncDiv;
    HistoryAt(cfg.maxRecords, cfg.isJank, reports, i);
  }

  lemma {:induction false} CountIsSize(h: seq<CycleRecord>, lo: nat, hi: nat)
    requires lo <= hi <= |h|
    ensures CountMissed(h, lo, hi) == |set i | lo <= i < hi && h[i].isMissedCycle|
    decreases hi
  {
    var missed := set i | lo <= i < hi && h[i].isMissedCycle;
    if lo < hi {
      CountIsSize(h, lo, hi - 1);
      var before := set i | lo <= i < hi - 1 && h[i].isMissedCycle;
      assert missed == if h[hi - 1].isMissedCycle then before + {hi - 1} else before;
    } else {
      assert missed == {};
    }
  }

  lemma MissedMeans(cfg: BoostConfig, reports: seq<Report>)
    ensures CountMissed(HistoryOf(cfg, reports), Oldest(cfg, reports), |reports|) == |MissedReports(cfg, reports)|
  {
    hide HistoryOf, CountMissed, TruncDiv;
    var h, lo := HistoryOf(cfg, reports), Oldest(cfg, reports);
    CountIsSize(h, lo, |h|);
    forall i | lo <= i < |h|
      ensures h[i].isMissedCycle == cfg.isJank(DurationAt(reports, i), TruncDiv(reports[i].targetNs, 1000))
    {
      RecordMeans(cfg, reports, i);
    }
    assert (set i | lo <= i < |h| && h[i].isMissedCycle) == MissedReports(cfg, reports);
  }

  lemma RateMeans(cfg: BoostConfig, reports: seq<Report>)
    ensures LowFrameRate(HistoryOf(cfg, reports), cfg.maxRecords, cfg.lowFps) <==> LowRate(cfg, reports)
  {
    hide HistoryOf, StartDelay;
    var n := |reports|;
    if 3 <= cfg.maxRecords && 3 <= n {
      RecordMeans(cfg, reports, n - 1);
      RecordMeans(cfg, reports, n - 2);
      RecordMeans(cfg, reports, n - 3);
    }
  }

  lemma LongestMeans(cfg: BoostConfig, reports: seq<Report>, m: int)
    requires reports != [] && cfg.maxRecords > 0 && IsLongest(cfg, reports, m)
    ensures MaxUs(HistoryOf(cfg, reports), Oldest(cfg, reports), |reports|) == m
  {
    hide HistoryOf, DurationAt, MaxUs;
    var h, lo := HistoryOf(cfg, reports), Oldest(cfg, reports);
    forall i | lo <= i < |h| ensures h[i].totalDurationUs == DurationAt(reports, i) {
      RecordMeans(cfg, reports, i);
    }
    TheMaximum(h, lo, |h|, m);
  }

  lemma {:induction false} TotalMeans(cfg: BoostConfig, reports: seq<Report>, lo: nat, hi: nat)
    requires lo <= hi <= |reports|
    ensures SumUs(HistoryOf(cfg, reports), lo, hi) == TotalUs(reports, lo, hi)
    decreases hi
  {
    hide HistoryOf, DurationAt;
    if lo < hi {
      TotalMeans(cfg, reports, lo, hi - 1);
      RecordMeans(cfg, reports, hi - 1);
    }
  }

  lemma AverageMeans(cfg: BoostConfig, reports: seq<Report>)
    requires reports != [] && cfg.maxRecords > 0
    ensures Average(HistoryOf(cfg, reports), cfg.maxRecords) == AverageUs(cfg, reports)
  {
    hide HistoryOf, SumUs, TotalUs, TruncDiv;
    TotalMeans(cfg, reports, Oldest(cfg, reports), |reports|);
  }

  // ---------------------------------------------------------------------------------------------
  // The rule
  // ---------------------------------------------------------------------------------------------

  /** The boost is on after the reports, if it was `active` before the last of them: the frame rate is not
      low, and enough reports have missed, or it was on and they have not both missed little and been even. */
  ghost predicate Boosts(cfg: BoostConfig, reports: seq<Report>, m: int, active: bool)
    requires reports != [] && cfg.maxRecords > 0 && AverageUs(cfg, reports) != 0
  {
    var missed := |MissedReports(cfg, reports)|;
    var calm := missed <= cfg.offMissed && TruncDiv(m, AverageUs(cfg, reports)) as real < cfg.offRatio;
    !LowRate(cfg, reports) && (cfg.onMissed <= missed || (active && !calm))
  }

  /** The rule of the code is that one. */
  lemma RuleMeans(cfg: BoostConfig, reports: seq<Report>, m: int, active: bool)
    requires reports != [] && cfg.maxRecords > 0 && IsLongest(cfg, reports, m) && AverageUs(cfg, reports) != 0
    ensures var h := History(cfg.maxRecords, cfg.isJank, reports);
            Average(h, cfg.maxRecords) != 0 && (Apply(Judge(cfg, h), active) <==> Boosts(cfg, reports, m, active))
  {
    var h := HistoryOf(cfg, reports);
    AverageMeans(cfg, reports);
    MissedMeans(cfg, reports);
    RateMeans(cfg, reports);
    LongestMeans(cfg, reports, m);
    hide HistoryOf, CountMissed, LowFrameRate, LowRate, MissedReports, MaxUs, AverageUs, Average, TruncDiv, IsLongest;
  }

  lemma SomeLongest(cfg: BoostConfig, reports: seq<Report>) returns (m: int)
    requires reports != [] && cfg.maxRecords > 0
    ensures IsLongest(cfg, reports, m)
  {
    hide HistoryOf, DurationAt, MaxUs;
    var h, lo := HistoryOf(cfg, reports), Oldest(cfg, reports);
    m := MaxUs(h, lo, |h|);
    forall i | lo <= i < |h| ensures h[i].totalDurationUs == DurationAt(reports, i) {
      RecordMeans(cfg, reports, i);
    }
  }

  // ---------------------------------------------------------------------------------------------
  // Runs
  // ---------------------------------------------------------------------------------------------

  /** In every run the boost of a session changes with its accepted reports only, and after one it is what
      the rule says of all its reports. */
  lemma BoostAfterReport(p: Profile, clock: int, ops: seq<Op>, op: Op, id: int, m: int)
    requires Legal(p, Initial(clock), ops) && Enabled(p, Final(p, Initial(clock), ops), op)
    ensures var s := Final(p, Initial(clock), ops);
            var s' := Next(p, s, op);
            if Records(p, s, op, id) then
              var cfg, reports := p.boost.value, ReportsOf(s', id);
              && reports == ReportsOf(s, id) + BatchOf(s, op, id) && reports != [] && cfg.maxRecords > 0
              && AverageUs(cfg, reports) != 0
              && (IsLongest(cfg, reports, m) ==> (BoostOf(s', id) <==> Boosts(cfg, reports, m, BoostOf(s, id))))
            else BoostOf(s', id) == BoostOf(s, id)
  {
    hide Legal, Final, Next, Boosts, AverageUs, Judge, IsLongest, History, Average;
    var s := Final(p, Initial(clock), ops);
    RunSound(p, Initial(clock), ops, false);
    BoostStep(p, s, op, id);
    if Records(p, s, op, id) {
      var cfg, reports := p.boost.value, ReportsOf(s, id) + BatchOf(s, op, id);
      AverageMeans(cfg, reports);
      if IsLongest(cfg, reports, m) {
        RuleMeans(cfg, reports, m, BoostOf(s, id));
      }
    }
  }

  /** The boost comes on exactly at the accepted reports that find at least `onMissed` missed reports in the
      window and no low frame rate, and goes off only at one that finds fewer, or a low frame rate. */
  lemma BoostComesOnIff(p: Profile, clock: int, ops: seq<Op>, op: Op, id: int)
    requires Legal(p, Initial(clock), ops) && Enabled(p, Final(p, Initial(clock), ops), op)
    ensures var s := Final(p, Initial(clock), ops);
            var s' := Next(p, s, op);
            && (!BoostOf(s, id) ==>
                  (BoostOf(s', id) <==>
                   Records(p, s, op, id) && !LowRate(p.boost.value, ReportsOf(s', id)) &&
                   p.boost.value.onMissed <= |MissedReports(p.boost.value, ReportsOf(s', id))|))
            && (BoostOf(s, id) && !BoostOf(s', id) ==>
                  Records(p, s, op, id) &&
                  (LowRate(p.boost.value, ReportsOf(s', id)) ||
                   |MissedReports(p.boost.value, ReportsOf(s', id))| <=
                   Min(p.boost.value.onMissed - 1, p.boost.value.offMissed)))
  {
    hide Legal, Final, Next, AverageUs, IsLongest, LowRate, MissedReports, TruncDiv;
    var s := Final(p, Initial(clock), ops);
    BoostAfterReport(p, clock, ops, op, id, 0);
    if Records(p, s, op, id) {
      var m := SomeLongest(p.boost.value, ReportsOf(Next(p, s, op), id));
      BoostAfterReport(p, clock, ops, op, id, m);
    }
  }
}
