/** How much extra GPU capacity an overrunning frame calls for (GpuCalculationHelpers.cpp). Times are
    whole nanoseconds, the frequency is in cycles per second, and what lies between is over the reals. */
module GpuCapacity {
  import opened Arith

  /** The reported GPU time expanded by its share of the time that is not accounted for. */
  function Expanded(total: real, cpu: real, gpu: real): real
    requires cpu + gpu != 0.0
  {
    Lerp(gpu, gpu + (total - (cpu + gpu)), 1.0 - cpu / (cpu + gpu))
  }

  function Lerp(a: real, b: real, t: real): real { a + (b - a) * t }

  /** Expands the reported GPU time when CPU and GPU time together do not account for the total, cut
      to whole nanoseconds. */
  function SanitizeTimings(total: int, cpu: int, gpu: int): int
    requires cpu + gpu < total ==> cpu + gpu != 0
  {
    if total - (cpu + gpu) > 0 then TruncReal(Expanded(total as real, cpu as real, gpu as real)) else gpu
  }

  function GpuTimeAttribution(total: int, gpu: int): real {
    if total == 0 then 0.0 else gpu as real / total as real
  }

  /** The cycles that pass in `ns` nanoseconds. */
  function Cycles(frequency: real, ns: real): real { frequency * (ns / 1000000000.0) }

  /** The computation comes to expand the GPU time, and so to divide by the accounted time. */
  predicate Expands(total: int, cpu: int, gpu: int, target: int) {
    target <= total && gpu <= total && cpu <= total && cpu + gpu < total
  }

  function CalculateCapacity(total: int, cpu: int, gpu: int, target: int, frequency: int): int
    requires Expands(total, cpu, gpu, target) ==> cpu + gpu != 0
  {
    var overrun := total - target;
    if overrun < 0 || total < gpu || total < cpu then 0
    else
      TruncReal(Cycles(frequency as real,
                       PartOf(overrun as real, GpuTimeAttribution(total, SanitizeTimings(total, cpu, gpu)))))
  }

  function PartOf(whole: real, share: real): real { whole * share }

  // ---------------------------------------------------------------------------------------------
  // Arithmetic of the reals
  // ---------------------------------------------------------------------------------------------

  lemma MulMono(a: real, b: real, c: real)
    requires a <= b && 0.0 <= c
    ensures a * c <= b * c
  {
    assert (b - a) * c >= 0.0;
  }

  lemma ShareOfSum(cpu: real, gpu: real)
    requires cpu >= 0.0 && gpu > 0.0
    ensures cpu / (cpu + gpu) + gpu / (cpu + gpu) == 1.0
    ensures 0.0 < gpu / (cpu + gpu) <= 1.0
    ensures PartOf(cpu + gpu, gpu / (cpu + gpu)) == gpu
  {
  }

  lemma Expand(total: real, accounted: real, share: real, gpu: real)
    requires PartOf(accounted, share) == gpu
    ensures gpu + (total - accounted) * share == PartOf(total, share)
  {
  }

  lemma PartBounds(whole: real, share: real)
    requires 0.0 <= whole && 0.0 < share <= 1.0
    ensures 0.0 <= PartOf(whole, share) <= whole
    ensures whole == 0.0 ==> PartOf(whole, share) == 0.0
  {
    assert whole * share + whole * (1.0 - share) == whole;
    assert whole * (1.0 - share) >= 0.0;
  }

  lemma ShareBetween(accounted: real, total: real, share: real)
    requires 0.0 < share <= 1.0 && 0.0 < accounted <= total
    ensures PartOf(accounted, share) <= PartOf(total, share) <= total
  {
    PartBounds(total, share);
    MulMono(accounted, total, share);
  }

  lemma Quotient(q: real, d: real, n: real)
    requires d != 0.0 && n == PartOf(d, q)
    ensures n / d == q
  {
  }

  lemma QuotientMono(a: real, b: real, d: real)
    requires 0.0 < d && a <= b
    ensures a / d <= b / d
  {
  }

  lemma Fraction(a: real, b: real)
    requires 0.0 < a <= b
    ensures 0.0 < a / b <= 1.0
  {
  }

  lemma TruncBounds(x: real, y: real)
    requires 0.0 <= x <= y
    ensures 0 <= TruncReal(x) && x - 1.0 < TruncReal(x) as real <= x <= y
    ensures y == 0.0 ==> TruncReal(x) == 0
  {
  }

  lemma ScaledBounds(f: real, a: real, b: real)
    requires f > 0.0 && 0.0 <= a <= b
    ensures 0.0 <= Cycles(f, a) <= Cycles(f, b)
  {
    MulMono(a / 1000000000.0, b / 1000000000.0, f);
    MulMono(0.0, a / 1000000000.0, f);
  }

  // ---------------------------------------------------------------------------------------------
  // Properties
  // ---------------------------------------------------------------------------------------------

  /** Before it is cut, the expanded GPU time is the reported GPU share of the whole frame. */
  lemma ExpandedShare(total: real, cpu: real, gpu: real)
    requires cpu >= 0.0 && gpu > 0.0 && total > cpu + gpu
    ensures Expanded(total, cpu, gpu) == PartOf(total, gpu / (cpu + gpu))
    ensures gpu <= Expanded(total, cpu, gpu) <= total
  {
    var accounted := cpu + gpu;
    var share := gpu / accounted;
    ShareOfSum(cpu, gpu);
    assert Expanded(total, cpu, gpu) == gpu + (total - accounted) * share by {
      assert 1.0 - cpu / accounted == share;
      assert gpu + (total - accounted) - gpu == total - accounted;
    }
    Expand(total, accounted, share, gpu);
    ShareBetween(accounted, total, share);
    hide Expanded, PartOf;
  }

  /** When time is unaccounted for, the attribution is the reported share gpu/(cpu+gpu), but for the
      part of a nanosecond that is cut. */
  lemma SanitizedShare(total: int, cpu: int, gpu: int)
    requires cpu >= 0 && gpu > 0 && total > cpu + gpu
    ensures var share := gpu as real / (cpu + gpu) as real;
            share - 1.0 / total as real <= GpuTimeAttribution(total, SanitizeTimings(total, cpu, gpu)) <= share
  {
    var t, c, g := total as real, cpu as real, gpu as real;
    var share := g / (c + g);
    var exact, cut := Expanded(t, c, g), SanitizeTimings(total, cpu, gpu) as real;
    ExpandedShare(t, c, g);
    TruncBounds(exact, exact);
    hide Expanded;
    Quotient(share, t, exact);
    QuotientMono(cut, exact, t);
    QuotientMono(exact - 1.0, cut, t);
    assert (exact - 1.0) / t == exact / t - 1.0 / t;
  }

  /** Sanitized GPU time in every valid report. */
  lemma SanitizedBounds(total: int, cpu: int, gpu: int)
    requires cpu >= 0 && gpu > 0 && gpu <= total
    ensures gpu <= SanitizeTimings(total, cpu, gpu) <= total
    ensures 0.0 < GpuTimeAttribution(total, SanitizeTimings(total, cpu, gpu)) <= 1.0
  {
    var t, c, g := total as real, cpu as real, gpu as real;
    if total > cpu + gpu {
      ExpandedShare(t, c, g);
      var exact := Expanded(t, c, g);
      TruncBounds(exact, t);
      CutAbove(exact, gpu);
    }
    Fraction(SanitizeTimings(total, cpu, gpu) as real, t);
  }

  lemma CutAbove(x: real, n: int)
    requires 0 <= n && n as real <= x
    ensures n <= TruncReal(x)
  {
  }

  /** The capacity is never negative and never more than the whole overrun at full frequency; a
      frame that meets its target, or whose parts exceed its total, calls for none. */
  lemma CapacityBounds(total: int, cpu: int, gpu: int, target: int, frequency: int)
    requires cpu >= 0 && gpu > 0 && frequency > 0
    ensures 0 <= CalculateCapacity(total, cpu, gpu, target, frequency)
    ensures total <= target || total < gpu || total < cpu ==> CalculateCapacity(total, cpu, gpu, target, frequency) == 0
    ensures target <= total ==>
              CalculateCapacity(total, cpu, gpu, target, frequency) as real <=
              Cycles(frequency as real, (total - target) as real)
  {
    if target <= total {
      var overrun, f := (total - target) as real, frequency as real;
      ScaledBounds(f, 0.0, overrun);
      if gpu <= total && cpu <= total {
        SanitizedBounds(total, cpu, gpu);
        var share := GpuTimeAttribution(total, SanitizeTimings(total, cpu, gpu));
        hide GpuTimeAttribution, SanitizeTimings, Cycles, TruncReal, PartOf;
        CutCapacity(f, overrun, share);
      }
    }
  }

  lemma CutCapacity(f: real, overrun: real, share: real)
    requires f > 0.0 && 0.0 <= overrun && 0.0 < share <= 1.0
    ensures var exact := Cycles(f, PartOf(overrun, share));
            && 0 <= TruncReal(exact) && TruncReal(exact) as real <= Cycles(f, overrun)
            && (overrun == 0.0 ==> TruncReal(exact) == 0)
  {
    PartBounds(overrun, share);
    hide PartOf;
    ScaledBounds(f, PartOf(overrun, share), overrun);
    NoCycles(f);
    hide Cycles;
    TruncBounds(Cycles(f, PartOf(overrun, share)), Cycles(f, overrun));
  }

  lemma NoCycles(f: real)
    ensures Cycles(f, 0.0) == 0.0
  {
  }

  /** The share of a frame's overrun that is laid to the GPU: its part of the accounted time, or of the
      whole frame when CPU and GPU time leave none unaccounted for. */
  function GpuShare(total: int, cpu: int, gpu: int): real
    requires 0 <= cpu && 0 < gpu <= total
  {
    if cpu + gpu < total then gpu as real / (cpu + gpu) as real else gpu as real / total as real
  }

  /** What the cut of the expanded GPU time to whole nanoseconds can take off that share. */
  function CutOff(total: int, cpu: int, gpu: int): real
    requires 0 < total
  {
    if cpu + gpu < total then 1.0 / total as real else 0.0
  }

  lemma AttributionIsShare(total: int, cpu: int, gpu: int)
    requires 0 <= cpu && 0 < gpu <= total
    ensures var a, share := GpuTimeAttribution(total, SanitizeTimings(total, cpu, gpu)), GpuShare(total, cpu, gpu);
            share - CutOff(total, cpu, gpu) <= a <= share && 0.0 < a
  {
    SanitizedBounds(total, cpu, gpu);
    if cpu + gpu < total {
      hide SanitizeTimings, GpuTimeAttribution;
      SanitizedShare(total, cpu, gpu);
    }
  }

  lemma PartMono(whole: real, a: real, b: real)
    requires 0.0 <= whole && a <= b
    ensures PartOf(whole, a) <= PartOf(whole, b)
  {
    MulMono(a, b, whole);
  }

  /** At frequency `f`, `f` cycles pass in a second, and cycles add up over time. */
  lemma CyclesPerSecond(f: real, a: real, b: real)
    ensures Cycles(f, 1000000000.0) == f && Cycles(f, a + b) == Cycles(f, a) + Cycles(f, b)
  {
  }

  lemma CyclesMono(f: real, a: real, b: real)
    requires f > 0.0 && a <= b
    ensures Cycles(f, a) <= Cycles(f, b)
  {
    MulMono(a / 1000000000.0, b / 1000000000.0, f);
  }

  /** The capacity that an overrunning frame calls for is the cycles that pass at the given frequency in
      the GPU's share of the overrun, to a cycle and to a nanosecond of the expanded GPU time. */
  lemma CapacityIsShareOfOverrun(total: int, cpu: int, gpu: int, target: int, frequency: int)
    requires 0 <= cpu <= total && 0 < gpu <= total && target <= total && frequency > 0
    ensures var f, overrun := frequency as real, (total - target) as real;
            var share, cut := GpuShare(total, cpu, gpu), CutOff(total, cpu, gpu);
            var capacity := CalculateCapacity(total, cpu, gpu, target, frequency) as real;
            Cycles(f, PartOf(overrun, share - cut)) - 1.0 < capacity <= Cycles(f, PartOf(overrun, share))
  {
    hide GpuTimeAttribution, SanitizeTimings, Cycles, TruncReal, PartOf, GpuShare, CutOff;
    var f, overrun := frequency as real, (total - target) as real;
    var share, cut := GpuShare(total, cpu, gpu), CutOff(total, cpu, gpu);
    var a := GpuTimeAttribution(total, SanitizeTimings(total, cpu, gpu));
    AttributionIsShare(total, cpu, gpu);
    PartMono(overrun, share - cut, a);
    PartMono(overrun, a, share);
    CyclesMono(f, PartOf(overrun, share - cut), PartOf(overrun, a));
    CyclesMono(f, PartOf(overrun, a), PartOf(overrun, share));
    NotNegative(f, overrun, a);
    TruncBounds(Cycles(f, PartOf(overrun, a)), Cycles(f, PartOf(overrun, share)));
  }

  lemma NotNegative(f: real, overrun: real, a: real)
    requires f > 0.0 && 0.0 <= overrun && 0.0 < a
    ensures 0.0 <= Cycles(f, PartOf(overrun, a))
  {
  }
}
