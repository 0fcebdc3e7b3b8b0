/** Sliding-window statistics over the reported work durations (SessionRecords.cpp).

    A ring buffer, running totals and a monotonic deque stand for "the last K reports". The plain
    meaning of every statistic is defined here over the whole history of reports. */
module SessionRecords {
  import opened Arith

  datatype WorkDuration = WorkDuration(timeStampNanos: int, durationNanos: int, cpuDurationNanos: int,
                                       gpuDurationNanos: int)

  /** One reported duration and the target that applied to it. */
  datatype Report = Report(work: WorkDuration, targetNs: int)

  datatype CycleRecord = CycleRecord(startIntervalUs: int, totalDurationUs: int, isMissedCycle: bool)

  function DurationUs(w: WorkDuration): int { ToInt32(TruncDiv(w.durationNanos, 1000)) }

  function StartNs(w: WorkDuration): int { w.timeStampNanos - w.durationNanos }

  /** The test whether a cycle of `durationUs` missed a target of `targetUs`. */
  type JankTest = (int, int) -> bool

  function JankTestFor(factor: real): JankTest {
    (durationUs: int, targetUs: int) => durationUs as real > targetUs as real * factor
  }

  predicate Missed(r: Report, jank: JankTest) {
    jank(DurationUs(r.work), TruncDiv(r.targetNs, 1000))
  }

  /** The record of report `i`: its start is measured from the report before it, if the window has
      room for two. */
  function RecordAt(k: nat, jank: JankTest, reports: seq<Report>, i: nat): CycleRecord
    requires i < |reports|
  {
    var interval := if i == 0 || k == 1 then 0
                    else ToInt32(TruncDiv(StartNs(reports[i].work) - StartNs(reports[i - 1].work), 1000));
    CycleRecord(interval, DurationUs(reports[i].work), Missed(reports[i], jank))
  }

  /** The records of all reports, oldest first. */
  function History(k: nat, jank: JankTest, reports: seq<Report>): (h: seq<CycleRecord>)
    ensures |h| == |reports|
  {
    if reports == [] then []
    else History(k, jank, reports[..|reports| - 1]) + [RecordAt(k, jank, reports, |reports| - 1)]
  }

  lemma {:induction false} HistoryAt(k: nat, jank: JankTest, reports: seq<Report>, i: nat)
    requires i < |reports|
    ensures History(k, jank, reports)[i] == RecordAt(k, jank, reports, i)
    decreases |reports|
  {
    if i < |reports| - 1 {
      HistoryAt(k, jank, reports[..|reports| - 1], i);
    }
  }

  /** The first record of the window of the last `k`. */
  function WindowStart(n: nat, k: nat): nat {
    if n <= k then 0 else n - k
  }

  function SumUs(h: seq<CycleRecord>, lo: nat, hi: nat): int
    requires lo <= hi <= |h|
    decreases hi
  {
    if lo == hi then 0 else SumUs(h, lo, hi - 1) + h[hi - 1].totalDurationUs
  }

  function CountMissed(h: seq<CycleRecord>, lo: nat, hi: nat): nat
    requires lo <= hi <= |h|
    decreases hi
  {
    if lo == hi then 0 else CountMissed(h, lo, hi - 1) + if h[hi - 1].isMissedCycle then 1 else 0
  }

  lemma {:induction false} DropFirst(h: seq<CycleRecord>, lo: nat, hi: nat)
    requires lo < hi <= |h|
    ensures SumUs(h, lo, hi) == h[lo].totalDurationUs + SumUs(h, lo + 1, hi)
    ensures CountMissed(h, lo, hi) == CountMissed(h, lo + 1, hi) + if h[lo].isMissedCycle then 1 else 0
    decreases hi
  {
    if lo + 1 < hi {
      DropFirst(h, lo, hi - 1);
    }
  }

  lemma {:induction false} PrefixTotals(h: seq<CycleRecord>, h': seq<CycleRecord>, lo: nat, hi: nat)
    requires lo <= hi <= |h| && h <= h'
    ensures SumUs(h', lo, hi) == SumUs(h, lo, hi) && CountMissed(h', lo, hi) == CountMissed(h, lo, hi)
    decreases hi
  {
    if lo < hi {
      PrefixTotals(h, h', lo, hi - 1);
    }
  }

  lemma {:induction false} SumBounds(h: seq<CycleRecord>, lo: nat, hi: nat)
    requires lo <= hi <= |h|
    requires forall i :: lo <= i < hi ==> -0x8000_0000 <= h[i].totalDurationUs < 0x8000_0000
    ensures -0x8000_0000 * (hi - lo) <= SumUs(h, lo, hi) <= 0x7FFF_FFFF * (hi - lo)
    decreases hi
  {
    if lo < hi {
      SumBounds(h, lo, hi - 1);
    }
  }

  /** `m` is the largest duration among the records `lo..hi`. */
  ghost predicate IsMaxDuration(h: seq<CycleRecord>, lo: nat, hi: nat, m: int)
    requires hi <= |h|
  {
    (exists i :: lo <= i < hi && h[i].totalDurationUs == m) &&
    forall i :: lo <= i < hi ==> h[i].totalDurationUs <= m
  }

  // ---------------------------------------------------------------------------------------------
  // Ring positions
  // ---------------------------------------------------------------------------------------------

  /** The position after `p`; the one before the first record is -1. */
  function NextPos(p: int, k: nat): int {
    if p + 1 < k then p + 1 else 0
  }

  /** The ring position of record `i`. */
  function Pos(i: nat, k: nat): (p: nat)
    requires k > 0
    ensures p < k
  {
    if i == 0 then 0 else NextPos(Pos(i - 1, k), k)
  }

  lemma {:induction false} PosAdd(a: nat, d: nat, k: nat)
    requires d < k
    ensures Pos(a + d, k) == if Pos(a, k) + d < k then Pos(a, k) + d else Pos(a, k) + d - k
    decreases d
  {
    if d > 0 {
      PosAdd(a, d - 1, k);
    }
  }

  lemma PosRound(a: nat, k: nat)
    requires k > 0
    ensures Pos(a + k, k) == Pos(a, k)
  {
    PosAdd(a, k - 1, k);
  }

  /** Two records of the same window never share a ring position. */
  lemma PosInjective(a: nat, b: nat, k: nat)
    requires k > 0 && a <= b < a + k && Pos(a, k) == Pos(b, k)
    ensures a == b
  {
    PosAdd(a, b - a, k);
  }

  // ---------------------------------------------------------------------------------------------
  // The monotonic deque
  // ---------------------------------------------------------------------------------------------

  /** Start of the stretch of records that deque entry `j` stands for. */
  function StretchStart(dq: seq<nat>, lo: nat, j: nat): nat
    requires j <= |dq|
  {
    if j == 0 then lo else dq[j - 1] + 1
  }

  ghost predicate InWindow(dq: seq<nat>, lo: nat, hi: nat) {
    forall j :: 0 <= j < |dq| ==> lo <= dq[j] < hi
  }

  ghost predicate AgeOrder(dq: seq<nat>) {
    forall i, j :: 0 <= i < j < |dq| ==> dq[i] < dq[j]
  }

  ghost predicate Decreasing(h: seq<CycleRecord>, dq: seq<nat>)
    requires InWindow(dq, 0, |h|)
  {
    forall i, j :: 0 <= i < j < |dq| ==> h[dq[i]].totalDurationUs > h[dq[j]].totalDurationUs
  }

  /** Every record of the stretch `from..last` is at most as long as the last one. */
  ghost predicate LastIsLongest(h: seq<CycleRecord>, from: nat, last: nat)
    requires last < |h|
  {
    forall i :: from <= i <= last ==> h[i].totalDurationUs <= h[last].totalDurationUs
  }

  /** The deque of the window `lo..hi`: positions in age order, durations strictly decreasing, and
      every record at most as long as the entry that ends its stretch. */
  ghost predicate Monotonic(h: seq<CycleRecord>, lo: nat, hi: nat, dq: seq<nat>)
    requires hi <= |h|
  {
    && InWindow(dq, lo, hi) && AgeOrder(dq) && Decreasing(h, dq)
    && forall j {:trigger StretchStart(dq, lo, j)} :: 0 <= j < |dq| ==> LastIsLongest(h, StretchStart(dq, lo, j), dq[j])
  }

  /** The stretches cover the window. */
  predicate ReachesEnd(dq: seq<nat>, lo: nat, hi: nat) {
    StretchStart(dq, lo, |dq|) == hi
  }

  /** Each window record that the deque left out is dominated by a later one it kept. */
  lemma {:induction false} Dominated(h: seq<CycleRecord>, lo: nat, hi: nat, dq: seq<nat>, i: nat, n: nat)
      returns (j: nat)
    requires hi <= |h| && Monotonic(h, lo, hi, dq)
    requires n <= |dq| && lo <= i < StretchStart(dq, lo, n)
    ensures j < n && i <= dq[j] && h[i].totalDurationUs <= h[dq[j]].totalDurationUs
    decreases n
  {
    if i < StretchStart(dq, lo, n - 1) {
      j := Dominated(h, lo, hi, dq, i, n - 1);
    } else {
      j := n - 1;
      assert LastIsLongest(h, StretchStart(dq, lo, j), dq[j]);
    }
  }

  /** The front of the deque holds the maximum of the window. */
  lemma FrontIsMax(h: seq<CycleRecord>, lo: nat, hi: nat, dq: seq<nat>)
    requires lo < hi <= |h| && Monotonic(h, lo, hi, dq) && ReachesEnd(dq, lo, hi)
    ensures dq != [] && IsMaxDuration(h, lo, hi, h[dq[0]].totalDurationUs)
  {
    forall i | lo <= i < hi ensures h[i].totalDurationUs <= h[dq[0]].totalDurationUs {
      var j := Dominated(h, lo, hi, dq, i, |dq|);
    }
    assert lo <= dq[0] < hi;
  }

  /** The oldest record leaves the window, and the deque if it is at its front. */
  lemma DropOldest(h: seq<CycleRecord>, lo: nat, hi: nat, dq: seq<nat>)
    requires lo < hi <= |h| && Monotonic(h, lo, hi, dq) && ReachesEnd(dq, lo, hi)
    ensures var dq' := if dq[0] == lo then dq[1..] else dq;
            Monotonic(h, lo + 1, hi, dq') && ReachesEnd(dq', lo + 1, hi)
  {
    if dq[0] == lo {
      DropFront(h, lo, hi, dq);
    } else {
      forall j | 0 <= j < |dq| ensures LastIsLongest(h, StretchStart(dq, lo + 1, j), dq[j]) && lo < dq[j] {
        assert LastIsLongest(h, StretchStart(dq, lo, j), dq[j]);
      }
    }
  }

  lemma DropFront(h: seq<CycleRecord>, lo: nat, hi: nat, dq: seq<nat>)
    requires hi <= |h| && Monotonic(h, lo, hi, dq) && ReachesEnd(dq, lo, hi) && dq != [] && dq[0] == lo
    ensures Monotonic(h, lo + 1, hi, dq[1..]) && ReachesEnd(dq[1..], lo + 1, hi)
  {
    var dq' := dq[1..];
    assert InWindow(dq', lo + 1, hi) by {
      assert forall j :: 0 <= j < |dq'| ==> dq[0] < dq'[j];
    }
    assert Decreasing(h, dq');
    forall j | 0 <= j < |dq'| ensures LastIsLongest(h, StretchStart(dq', lo + 1, j), dq'[j]) {
      assert StretchStart(dq, lo, j + 1) == StretchStart(dq', lo + 1, j);
    }
  }

  /** Popping the back keeps the deque monotonic. */
  lemma PopBack(h: seq<CycleRecord>, lo: nat, hi: nat, dq: seq<nat>)
    requires hi <= |h| && Monotonic(h, lo, hi, dq) && dq != []
    ensures Monotonic(h, lo, hi, dq[..|dq| - 1])
  {
    var dq' := dq[..|dq| - 1];
    forall j | 0 <= j < |dq'| ensures LastIsLongest(h, StretchStart(dq', lo, j), dq'[j]) {
      assert LastIsLongest(h, StretchStart(dq, lo, j), dq[j]);
    }
  }

  /** Pushing a record that is at least as long as everything after the back, and shorter than the back. */
  lemma PushBack(h: seq<CycleRecord>, lo: nat, hi: nat, dq: seq<nat>)
    requires lo <= hi < |h| && Monotonic(h, lo, hi, dq)
    requires dq != [] ==> h[dq[|dq| - 1]].totalDurationUs > h[hi].totalDurationUs
    requires LastIsLongest(h, StretchStart(dq, lo, |dq|), hi)
    ensures Monotonic(h, lo, hi + 1, dq + [hi]) && ReachesEnd(dq + [hi], lo, hi + 1)
  {
    PushKeepsOrder(h, hi, dq);
    var dq' := dq + [hi];
    forall j | 0 <= j < |dq'| ensures LastIsLongest(h, StretchStart(dq', lo, j), dq'[j]) {
      assert StretchStart(dq', lo, j) == StretchStart(dq, lo, j);
    }
  }

  lemma PushKeepsOrder(h: seq<CycleRecord>, hi: nat, dq: seq<nat>)
    requires hi < |h| && InWindow(dq, 0, hi) && AgeOrder(dq) && Decreasing(h, dq)
    requires dq != [] ==> h[dq[|dq| - 1]].totalDurationUs > h[hi].totalDurationUs
    ensures AgeOrder(dq + [hi]) && Decreasing(h, dq + [hi])
  {
    forall i | 0 <= i < |dq| ensures h[dq[i]].totalDurationUs > h[hi].totalDurationUs {
      if i < |dq| - 1 {
        assert h[dq[i]].totalDurationUs > h[dq[|dq| - 1]].totalDurationUs;
      }
    }
  }

  lemma MonotonicPrefix(h: seq<CycleRecord>, h': seq<CycleRecord>, lo: nat, hi: nat, dq: seq<nat>)
    requires hi <= |h| && h <= h' && Monotonic(h, lo, hi, dq)
    ensures Monotonic(h', lo, hi, dq)
  {
    forall j | 0 <= j < |dq| ensures LastIsLongest(h', StretchStart(dq, lo, j), dq[j]) {
      assert LastIsLongest(h, StretchStart(dq, lo, j), dq[j]);
    }
  }

  // ---------------------------------------------------------------------------------------------
  // The record keeper
  // ---------------------------------------------------------------------------------------------

  /** The ring holds the records `lo..|h|`, each at its position. */
  ghost predicate RingHolds(ring: seq<CycleRecord>, h: seq<CycleRecord>, lo: nat) {
    |ring| > 0 && forall i {:trigger h[i]} :: lo <= i < |h| ==> ring[Pos(i, |ring|)] == h[i]
  }

  ghost predicate Positions(queue: seq<int>, dq: seq<nat>, k: nat) {
    k > 0 && |queue| == |dq| && forall j :: 0 <= j < |dq| ==> queue[j] == Pos(dq[j], k)
  }

  lemma RingWrite(ring: seq<CycleRecord>, h: seq<CycleRecord>, lo: nat, r: CycleRecord)
    requires RingHolds(ring, h, lo) && lo <= |h| < lo + |ring|
    ensures RingHolds(ring[Pos(|h|, |ring|) := r], h + [r], lo)
  {
    var k, n := |ring|, |h|;
    var ring' := ring[Pos(n, k) := r];
    var h' := h + [r];
    forall i {:trigger h'[i]} | lo <= i < |h'| ensures ring'[Pos(i, k)] == h'[i] {
      if i < n {
        assert ring[Pos(i, k)] == h[i];
        if Pos(i, k) == Pos(n, k) { PosInjective(i, n, k); }
      }
    }
  }

  lemma HistorySnoc(k: nat, jank: JankTest, reports: seq<Report>, r: Report)
    ensures History(k, jank, reports + [r]) ==
            History(k, jank, reports) + [RecordAt(k, jank, reports + [r], |reports|)]
  {
    assert (reports + [r])[..|reports|] == reports;
  }

  /** The deque of ring positions stands for the kept reports, which are the window's deque. */
  ghost predicate DequeHolds(queue: seq<int>, kept: seq<nat>, h: seq<CycleRecord>, lo: nat, k: nat) {
    lo <= |h| && Monotonic(h, lo, |h|, kept) && ReachesEnd(kept, lo, |h|) && Positions(queue, kept, k)
  }

  /** What dropping the oldest record does to the deque. */
  lemma DequeDrop(queue: seq<int>, kept: seq<nat>, h: seq<CycleRecord>, lo: nat, k: nat)
    requires DequeHolds(queue, kept, h, lo, k) && lo < |h| <= lo + k
    ensures queue != [] && kept != [] && (queue[0] == Pos(lo, k) <==> kept[0] == lo)
    ensures kept[0] == lo ==> DequeHolds(queue[1..], kept[1..], h, lo + 1, k)
    ensures kept[0] != lo ==> DequeHolds(queue, kept, h, lo + 1, k)
  {
    assert kept != [];
    assert lo <= kept[0] < |h|;
    if queue[0] == Pos(lo, k) { PosInjective(lo, kept[0], k); }
    DropOldest(h, lo, |h|, kept);
  }

  /** Popping an entry that is no longer than record `n` leaves `n` the longest of its stretch. */
  lemma PopBackCovers(h: seq<CycleRecord>, lo: nat, n: nat, dq: seq<nat>)
    requires n < |h| && Monotonic(h, lo, n, dq) && dq != []
    requires LastIsLongest(h, StretchStart(dq, lo, |dq|), n)
    requires h[dq[|dq| - 1]].totalDurationUs <= h[n].totalDurationUs
    ensures Monotonic(h, lo, n, dq[..|dq| - 1])
    ensures LastIsLongest(h, StretchStart(dq[..|dq| - 1], lo, |dq| - 1), n)
  {
    PopBack(h, lo, n, dq);
    var m := |dq| - 1;
    assert StretchStart(dq[..m], lo, m) == StretchStart(dq, lo, m);
    assert LastIsLongest(h, StretchStart(dq, lo, m), dq[m]);
  }

  /** The deque after the entries from `m` on, none of them longer than record `n`, have given way
      to `n`. */
  lemma {:induction false} GiveWay(h: seq<CycleRecord>, lo: nat, n: nat, dq: seq<nat>, m: nat)
    requires lo <= n < |h| && Monotonic(h, lo, n, dq) && LastIsLongest(h, StretchStart(dq, lo, |dq|), n)
    requires m <= |dq| && forall j :: m <= j < |dq| ==> h[dq[j]].totalDurationUs <= h[n].totalDurationUs
    requires m > 0 ==> h[dq[m - 1]].totalDurationUs > h[n].totalDurationUs
    ensures Monotonic(h, lo, n + 1, dq[..m] + [n]) && ReachesEnd(dq[..m] + [n], lo, n + 1)
    decreases |dq|
  {
    if m == |dq| {
      assert dq[..m] == dq;
      PushBack(h, lo, n, dq);
    } else {
      PopBackCovers(h, lo, n, dq);
      GiveWay(h, lo, n, dq[..|dq| - 1], m);
      assert dq[..|dq| - 1][..m] == dq[..m];
    }
  }

  /** The same with the deque of ring positions. */
  lemma DequePush(queue: seq<int>, kept: seq<nat>, h: seq<CycleRecord>, lo: nat, k: nat, m: nat)
    requires h != [] && DequeHolds(queue, kept, h[..|h| - 1], lo, k) && m <= |kept|
    requires forall j :: 0 <= j < |kept| ==> kept[j] < |h| - 1
    requires forall j :: m <= j < |kept| ==> h[kept[j]].totalDurationUs <= h[|h| - 1].totalDurationUs
    requires m > 0 ==> h[kept[m - 1]].totalDurationUs > h[|h| - 1].totalDurationUs
    ensures DequeHolds(queue[..m] + [Pos(|h| - 1, k)], kept[..m] + [|h| - 1], h, lo, k)
  {
    var n := |h| - 1;
    MonotonicPrefix(h[..n], h, lo, n, kept);
    GiveWay(h, lo, n, kept, m);
  }

  /** Every ring position in the deque holds the record that the deque means. */
  ghost predicate RingAt(ring: seq<CycleRecord>, h: seq<CycleRecord>, queue: seq<int>, kept: seq<nat>) {
    |queue| == |kept| &&
    forall j :: 0 <= j < |queue| ==> 0 <= queue[j] < |ring| && kept[j] < |h| && ring[queue[j]] == h[kept[j]]
  }

  lemma RingAtQueue(ring: seq<CycleRecord>, h: seq<CycleRecord>, lo: nat, hi: nat, queue: seq<int>, kept: seq<nat>)
    requires RingHolds(ring, h, lo) && hi <= |h| && DequeHolds(queue, kept, h[..hi], lo, |ring|)
    ensures RingAt(ring, h, queue, kept) && forall j :: 0 <= j < |kept| ==> kept[j] < hi
  {
    forall j | 0 <= j < |queue| ensures ring[queue[j]] == h[kept[j]] {
      assert h[kept[j]] == h[kept[j]];
    }
  }

  lemma AppendTotals(h: seq<CycleRecord>, r: CycleRecord, lo: nat)
    requires lo <= |h|
    ensures SumUs(h + [r], lo, |h| + 1) == SumUs(h, lo, |h|) + r.totalDurationUs
    ensures CountMissed(h + [r], lo, |h| + 1) == CountMissed(h, lo, |h|) + if r.isMissedCycle then 1 else 0
  {
    PrefixTotals(h, h + [r], lo, |h|);
  }

  /** The average of a window of 32-bit durations fits 32 bits. */
  lemma AverageFits(h: seq<CycleRecord>, lo: nat, hi: nat)
    requires lo < hi <= |h|
    requires forall i :: lo <= i < hi ==> -0x8000_0000 <= h[i].totalDurationUs < 0x8000_0000
    ensures ToInt32(TruncDiv(SumUs(h, lo, hi), hi - lo)) == TruncDiv(SumUs(h, lo, hi), hi - lo)
  {
    SumBounds(h, lo, hi);
    QuotientBounds(SumUs(h, lo, hi), hi - lo);
  }

  lemma {:induction false} HistoryFits(k: nat, jank: JankTest, reports: seq<Report>)
    ensures forall i :: 0 <= i < |reports| ==>
            -0x8000_0000 <= History(k, jank, reports)[i].totalDurationUs < 0x8000_0000
  {
    if reports != [] {
      HistoryFits(k, jank, reports[..|reports| - 1]);
    }
  }

  lemma QuotientBounds(x: int, n: int)
    requires n > 0 && -0x8000_0000 * n <= x <= 0x7FFF_FFFF * n
    ensures -0x8000_0000 <= TruncDiv(x, n) <= 0x7FFF_FFFF
  {
    var q := Abs(x) / n;
    assert q * n <= Abs(x);
    if x >= 0 {
      assert q <= 0x7FFF_FFFF by { if q > 0x7FFF_FFFF { Scale(0x7FFF_FFFF + 1, q, n); } }
    } else {
      assert q <= 0x8000_0000 by { if q > 0x8000_0000 { Scale(0x8000_0000 + 1, q, n); } }
    }
  }

  lemma Scale(a: int, b: int, n: int)
    requires a <= b && n > 0
    ensures a * n <= b * n
  {
  }

  class SessionRecords {
    const maxNumOfRecords: nat
    const isJank: JankTest  // compares with the target times the configured factor
    const records: array<CycleRecord>
    var recordsIndQueue: seq<int>
    var avgDurationUs: int
    var lastStartTimeNs: int
    var latestRecordIndex: int
    var numOfMissedCycles: int
    var numOfFrames: int
    var sumOfDurationsUs: int

    /** Every report so far, and the ones whose ring positions the deque holds. */
    ghost var reports: seq<Report>
    ghost var kept: seq<nat>

    /** The records of the reports. */
    ghost var history: seq<CycleRecord>

    ghost function Start(): nat
      reads this`history
    {
      WindowStart(|history|, maxNumOfRecords)
    }

    ghost predicate TotalsOf(lo: nat)
      reads this`history, this`numOfFrames, this`sumOfDurationsUs, this`numOfMissedCycles
    {
      && lo <= |history| && numOfFrames == |history| - lo
      && sumOfDurationsUs == SumUs(history, lo, |history|)
      && numOfMissedCycles == CountMissed(history, lo, |history|)
    }

    ghost predicate DequeOf(lo: nat)
      reads this`history, this`recordsIndQueue, this`kept
    {
      DequeHolds(recordsIndQueue, kept, history, lo, maxNumOfRecords)
    }

    ghost predicate RingOf(lo: nat)
      reads this`history, records
    {
      0 < maxNumOfRecords == records.Length && RingHolds(records[..], history, lo)
    }

    ghost predicate LatestOf()
      reads this`history, this`latestRecordIndex
    {
      0 < maxNumOfRecords &&
      latestRecordIndex == if history == [] then -1 else Pos(|history| - 1, maxNumOfRecords)
    }

    /** The totals, the ring and the deque describe the records `lo..`. */
    ghost predicate Describes(lo: nat)
      reads this`history, this`numOfFrames, this`sumOfDurationsUs, this`numOfMissedCycles, this`recordsIndQueue,
            this`kept, this`latestRecordIndex, records
    {
      |history| <= lo + maxNumOfRecords && TotalsOf(lo) && DequeOf(lo) && RingOf(lo) && LatestOf()
    }

    /** The records are those of the reports, and the last start time is remembered. */
    ghost predicate RecordsReports()
      reads this`history, this`reports, this`lastStartTimeNs
    {
      && history == History(maxNumOfRecords, isJank, reports)
      && (reports != [] ==> lastStartTimeNs == StartNs(reports[|reports| - 1].work))
    }

    /** With `report` as the next report, `rec` is the next record. */
    ghost predicate ExtendsHistory(rec: CycleRecord, report: Report)
      reads this`history, this`reports
    {
      history + [rec] == History(maxNumOfRecords, isJank, reports + [report])
    }

    ghost predicate Valid()
      reads this, records
    {
      && Describes(Start()) && RecordsReports()
      && (numOfFrames > 0 ==> avgDurationUs == TruncDiv(sumOfDurationsUs, numOfFrames))
    }

    constructor (maxNumOfRecords: nat, jankCheckTimeFactor: real)
      requires maxNumOfRecords >= 1
      ensures Valid() && reports == [] && fresh(records)
      ensures this.maxNumOfRecords == maxNumOfRecords && isJank == JankTestFor(jankCheckTimeFactor)
    {
      this.maxNumOfRecords := maxNumOfRecords;
      isJank := JankTestFor(jankCheckTimeFactor);
      records := new CycleRecord[maxNumOfRecords](_ => CycleRecord(0, 0, false));
      recordsIndQueue := [];
      avgDurationUs, lastStartTimeNs, latestRecordIndex := 0, 0, -1;
      numOfMissedCycles, numOfFrames, sumOfDurationsUs := 0, 0, 0;
      reports, kept, history := [], [], [];
    }

    method NextIndex() returns (i: int)
      requires 0 < maxNumOfRecords && -1 <= latestRecordIndex < maxNumOfRecords
      ensures i == NextPos(latestRecordIndex, maxNumOfRecords)
    {
      i := (latestRecordIndex + 1) % maxNumOfRecords;
    }

    /** The oldest record leaves the totals. */
    method RemoveFromTotals(index: int, ghost lo: nat)
      requires lo < |history| && TotalsOf(lo) && 0 <= index < records.Length && records[index] == history[lo]
      modifies this`sumOfDurationsUs, this`numOfMissedCycles, this`numOfFrames
      ensures TotalsOf(lo + 1)
    {
      DropFirst(history, lo, |history|);
      sumOfDurationsUs := sumOfDurationsUs - records[index].totalDurationUs;
      if records[index].isMissedCycle {
        numOfMissedCycles := numOfMissedCycles - 1;
        if numOfMissedCycles < 0 {
          assert false;  // "Invalid number of missed cycles"
        }
      }
      numOfFrames := numOfFrames - 1;
    }

    /** The oldest record leaves the deque if it is at its front. */
    method RemoveFromDeque(index: int, ghost lo: nat)
      requires DequeOf(lo) && lo < |history| <= lo + maxNumOfRecords && index == Pos(lo, maxNumOfRecords)
      modifies this`recordsIndQueue, this`kept
      ensures DequeOf(lo + 1)
    {
      DequeDrop(recordsIndQueue, kept, history, lo, maxNumOfRecords);
      if recordsIndQueue[0] == index {
        recordsIndQueue := recordsIndQueue[1..];
        kept := kept[1..];
      }
    }

    method RemoveOldest()
      requires Describes(Start()) && numOfFrames >= maxNumOfRecords
      modifies this`sumOfDurationsUs, this`numOfMissedCycles, this`numOfFrames, this`recordsIndQueue, this`kept
      ensures Describes(Start() + 1)
    {
      ghost var lo := Start();
      var indexOfRecordToRemove := NextIndex();
      assert indexOfRecordToRemove == Pos(lo, maxNumOfRecords) by {
        PosRound(lo, maxNumOfRecords);
      }
      RemoveFromTotals(indexOfRecordToRemove, lo);
      RemoveFromDeque(indexOfRecordToRemove, lo);
    }

    /** The record of the next report, once the window has been made ready for it. */
    method MakeRecord(work: WorkDuration, targetNs: int) returns (rec: CycleRecord)
      requires RecordsReports() && (numOfFrames > 0 <==> reports != [] && maxNumOfRecords != 1)
      modifies this`lastStartTimeNs
      ensures ExtendsHistory(rec, Report(work, targetNs))
      ensures lastStartTimeNs == work.timeStampNanos - work.durationNanos
    {
      HistorySnoc(maxNumOfRecords, isJank, reports, Report(work, targetNs));
      var totalDurationUs := ToInt32(TruncDiv(work.durationNanos, 1000));
      var startTimeNs := work.timeStampNanos - work.durationNanos;
      var startIntervalUs := 0;
      if numOfFrames > 0 {
        startIntervalUs := ToInt32(TruncDiv(startTimeNs - lastStartTimeNs, 1000));
      }
      lastStartTimeNs := startTimeNs;
      var cycleMissed := isJank(totalDurationUs, TruncDiv(targetNs, 1000));
      rec := CycleRecord(startIntervalUs, totalDurationUs, cycleMissed);
    }

    /** Writes the record over the oldest position of the ring. */
    method WriteRecord(rec: CycleRecord, ghost lo: nat)
      requires RingOf(lo) && LatestOf() && lo <= |history| < lo + maxNumOfRecords
      modifies this`latestRecordIndex, this`history, records
      ensures history == old(history) + [rec] && RingOf(lo) && LatestOf()
    {
      latestRecordIndex := NextIndex();
      RingWrite(records[..], history, lo, rec);
      records[latestRecordIndex] := rec;
      history := history + [rec];
    }

    /** Drops the positions of records that are not longer than `rec` from the back of the deque. */
    method PopShorter(rec: CycleRecord, ghost h: seq<CycleRecord>, ghost kept0: seq<nat>)
      requires RingAt(records[..], h, recordsIndQueue, kept0)
      modifies this`recordsIndQueue
      ensures |recordsIndQueue| <= |kept0| && recordsIndQueue == old(recordsIndQueue)[..|recordsIndQueue|]
      ensures forall j :: |recordsIndQueue| <= j < |kept0| ==> h[kept0[j]].totalDurationUs <= rec.totalDurationUs
      ensures recordsIndQueue != [] ==> h[kept0[|recordsIndQueue| - 1]].totalDurationUs > rec.totalDurationUs
    {
      ghost var queue0 := recordsIndQueue;
      while recordsIndQueue != [] &&
            records[recordsIndQueue[|recordsIndQueue| - 1]].totalDurationUs <= rec.totalDurationUs
        invariant |recordsIndQueue| <= |queue0| && recordsIndQueue == queue0[..|recordsIndQueue|]
        invariant forall j :: |recordsIndQueue| <= j < |kept0| ==> h[kept0[j]].totalDurationUs <= rec.totalDurationUs
        decreases |recordsIndQueue|
      {
        recordsIndQueue := recordsIndQueue[..|recordsIndQueue| - 1];
      }
    }

    /** The latest record takes its place in the deque. */
    method PushToDeque(rec: CycleRecord, ghost h: seq<CycleRecord>, ghost lo: nat)
      requires history == h + [rec] && RingOf(lo) && LatestOf()
      requires DequeHolds(recordsIndQueue, kept, h, lo, maxNumOfRecords)
      modifies this`recordsIndQueue, this`kept
      ensures DequeOf(lo)
    {
      ghost var n, queue0 := |h|, recordsIndQueue;
      assert history[..n] == h;
      RingAtQueue(records[..], history, lo, n, recordsIndQueue, kept);
      PopShorter(rec, history, kept);
      DequePush(queue0, kept, history, lo, maxNumOfRecords, |recordsIndQueue|);
      kept := kept[..|recordsIndQueue|] + [n];
      recordsIndQueue := recordsIndQueue + [latestRecordIndex];
    }

    /** The latest record joins the totals. */
    method AddToTotals(rec: CycleRecord, ghost h: seq<CycleRecord>, ghost lo: nat)
      requires history == h + [rec] && lo <= |h| && numOfFrames == |h| - lo
      requires sumOfDurationsUs == SumUs(h, lo, |h|) && numOfMissedCycles == CountMissed(h, lo, |h|)
      modifies this`numOfFrames, this`numOfMissedCycles, this`sumOfDurationsUs
      ensures TotalsOf(lo) && numOfFrames > 0
    {
      AppendTotals(h, rec, lo);
      numOfFrames := numOfFrames + 1;
      if rec.isMissedCycle {
        numOfMissedCycles := numOfMissedCycles + 1;
      }
      sumOfDurationsUs := sumOfDurationsUs + rec.totalDurationUs;
    }

    method UpdateAverage(ghost lo: nat)
      requires TotalsOf(lo) && numOfFrames > 0 && history == History(maxNumOfRecords, isJank, reports)
      modifies this`avgDurationUs
      ensures avgDurationUs == TruncDiv(sumOfDurationsUs, numOfFrames)
    {
      assert ToInt32(TruncDiv(sumOfDurationsUs, numOfFrames)) == TruncDiv(sumOfDurationsUs, numOfFrames) by {
        HistoryFits(maxNumOfRecords, isJank, reports);
        AverageFits(history, lo, |history|);
      }
      avgDurationUs := ToInt32(TruncDiv(sumOfDurationsUs, numOfFrames));
    }

    /** Enters a record into a window that has room for it. */
    method Append(rec: CycleRecord, ghost lo: nat)
      requires Describes(lo) && |history| < lo + maxNumOfRecords
      modifies this`history, this`numOfFrames, this`sumOfDurationsUs, this`numOfMissedCycles, this`recordsIndQueue,
               this`kept, this`latestRecordIndex, records
      ensures Describes(lo) && history == old(history) + [rec] && numOfFrames > 0
    {
      ghost var h := history;
      WriteRecord(rec, lo);
      PushToDeque(rec, h, lo);
      AddToTotals(rec, h, lo);
    }

    /** Makes room for one more record. */
    method MakeRoom()
      requires Describes(Start())
      modifies this`sumOfDurationsUs, this`numOfMissedCycles, this`numOfFrames, this`recordsIndQueue, this`kept
      ensures Describes(WindowStart(|history| + 1, maxNumOfRecords))
      ensures numOfFrames > 0 <==> history != [] && maxNumOfRecords != 1
    {
      if numOfFrames >= maxNumOfRecords {
        RemoveOldest();
      }
    }

    /** Enters the record of a report. */
    method Enter(rec: CycleRecord, ghost report: Report)
      requires Describes(WindowStart(|history| + 1, maxNumOfRecords))
      requires ExtendsHistory(rec, report)
      modifies this`history, this`numOfFrames, this`sumOfDurationsUs, this`numOfMissedCycles, this`recordsIndQueue,
               this`kept, this`latestRecordIndex, this`reports, records
      ensures Describes(Start()) && numOfFrames > 0 && reports == old(reports) + [report]
      ensures history == History(maxNumOfRecords, isJank, reports)
    {
      Append(rec, WindowStart(|history| + 1, maxNumOfRecords));
      reports := reports + [report];
    }

    /** Enters one reported duration; the average is still to be updated. */
    method EnterReport(work: WorkDuration, targetNs: int)
      requires Describes(Start()) && RecordsReports()
      modifies this, records
      ensures Describes(Start()) && RecordsReports() && numOfFrames > 0
      ensures reports == old(reports) + [Report(work, targetNs)]
    {
      hide TotalsOf, DequeOf, RingOf, LatestOf, History;
      MakeRoom();
      var rec := MakeRecord(work, targetNs);
      Enter(rec, Report(work, targetNs));
      assert reports[|reports| - 1].work == work;
    }

    /** Enters one reported duration. */
    method AddOne(work: WorkDuration, targetNs: int)
      requires Valid()
      modifies this, records
      ensures Valid() && reports == old(reports) + [Report(work, targetNs)]
    {
      hide DequeOf, RingOf, LatestOf, History;
      EnterReport(work, targetNs);
      UpdateAverage(Start());
    }

    /** Enters a batch of reported durations. */
    method AddReportedDurations(actualDurationsNs: seq<WorkDuration>, targetDurationNs: int)
      requires Valid()
      modifies this, records
      ensures Valid() && reports == old(reports) + Batch(actualDurationsNs, targetDurationNs)
    {
      hide Describes, RecordsReports;
      for i := 0 to |actualDurationsNs|
        invariant Valid() && reports == old(reports) + Batch(actualDurationsNs[..i], targetDurationNs)
      {
        AddOne(actualDurationsNs[i], targetDurationNs);
        BatchSnoc(actualDurationsNs, i, targetDurationNs);
      }
      assert actualDurationsNs[..|actualDurationsNs|] == actualDurationsNs;
    }

    /** The longest duration among the last `maxNumOfRecords` reports. */
    method GetMaxDuration() returns (m: Option<int>)
      requires Valid()
      ensures m.None? <==> reports == []
      ensures m.Some? ==> IsMaxDuration(Stats(), Start(), |reports|, m.value)
    {
      if recordsIndQueue == [] {
        return None;
      }
      FrontIsMax(history, Start(), |history|, kept);
      assert records[..][Pos(kept[0], maxNumOfRecords)] == history[kept[0]];
      return Some(records[recordsIndQueue[0]].totalDurationUs);
    }

    method GetAvgDuration() returns (a: Option<int>)
      requires Valid()
      ensures a == if reports == [] then None
                   else Some(TruncDiv(SumUs(Stats(), Start(), |reports|), |reports| - Start()))
    {
      if numOfFrames <= 0 {
        return None;
      }
      return Some(avgDurationUs);
    }

    method GetNumOfRecords() returns (n: int)
      requires Valid()
      ensures n == Min(|reports|, maxNumOfRecords)
    {
      return numOfFrames;
    }

    method GetNumOfMissedCycles() returns (n: int)
      requires Valid()
      ensures n == CountMissed(Stats(), Start(), |reports|)
    {
      return numOfMissedCycles;
    }

    method PreviousIndex(i: int, ghost n: nat) returns (j: int)
      requires 0 < maxNumOfRecords && n > 0 && i == Pos(n, maxNumOfRecords)
      ensures j == Pos(n - 1, maxNumOfRecords)
    {
      j := if i == 0 then maxNumOfRecords - 1 else i - 1;
    }

    /** The last three reports all started later than the slowest acceptable cycle after their
        predecessors. A threshold of zero frames per second is met by none. */
    method IsLowFrameRate(fpsLowRateThreshold: int) returns (low: bool)
      requires Valid()
      ensures low <==> LowFrameRate(Stats(), maxNumOfRecords, fpsLowRateThreshold)
    {
      if numOfFrames >= 3 {
        ghost var n := |history|;
        var ind1 := latestRecordIndex;
        var ind2 := PreviousIndex(ind1, n - 1);
        var ind3 := PreviousIndex(ind2, n - 2);
        assert records[..][ind1] == history[n - 1] && records[..][ind2] == history[n - 2] &&
               records[..][ind3] == history[n - 3];
        return SlowStart(records[ind1], fpsLowRateThreshold) && SlowStart(records[ind2], fpsLowRateThreshold) &&
               SlowStart(records[ind3], fpsLowRateThreshold);
      }
      return false;
    }

    lemma StartOfWindow()
      requires Valid()
      ensures Start() == WindowStart(|reports|, maxNumOfRecords)
    {
    }

    /** The records of all reports, from their plain definition. */
    ghost function Stats(): (h: seq<CycleRecord>)
      reads this`reports
      ensures |h| == |reports|
    {
      History(maxNumOfRecords, isJank, reports)
    }
  }

  function Batch(works: seq<WorkDuration>, targetNs: int): (r: seq<Report>)
    ensures |r| == |works|
  {
    seq(|works|, i requires 0 <= i < |works| => Report(works[i], targetNs))
  }

  lemma BatchSnoc(works: seq<WorkDuration>, i: nat, targetNs: int)
    requires i < |works|
    ensures Batch(works[..i + 1], targetNs) == Batch(works[..i], targetNs) + [Report(works[i], targetNs)]
  {
  }

  predicate SlowStart(r: CycleRecord, fps: int) {
    fps != 0 && r.startIntervalUs as real >= 1000000.0 / fps as real
  }

  /** The plain meaning of a low frame rate. */
  predicate LowFrameRate(h: seq<CycleRecord>, k: nat, fps: int) {
    k >= 3 && |h| >= 3 && SlowStart(h[|h| - 1], fps) && SlowStart(h[|h| - 2], fps) && SlowStart(h[|h| - 3], fps)
  }
}
