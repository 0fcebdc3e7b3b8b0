/** The interaction boost: `Acquire` calls from any thread share a lock and an event descriptor with
    one routine that waits for the display to become idle (InteractionHandler.cpp).

    Every locked section is one step, and so is every point at which the routine's wait can begin,
    read its arguments or end, so that any `Acquire` may fall in between. */
module InteractionHandler {
  import opened Arith

  const NS_IN_MS := 1_000_000
  const NS_IN_SEC := 1_000_000_000
  const MS_IN_SEC := 1000

  /** System properties, in milliseconds; `waitMs` is the first, unconditional part of the wait. */
  datatype Config = Config(idleSupport: bool, waitMs: nat, minMs: nat, maxMs: nat, offsetMs: nat) {
    predicate Valid() { minMs < 0x8000_0000 && maxMs < 0x8000_0000 && offsetMs < 0x1_0000_0000 }
  }

  datatype Mode = Uninitialized | Idle | Interaction | Waiting

  /** How a wait ended. */
  datatype Cause = Aborted | IdleSeen | TimedOut | Failed

  /** Where the routine is. */
  datatype Routine =
    | AtTop
    | BeforeWait                            // mode set, lock released, duration not yet read
    | FirstPoll(since: int, timeoutMs: int)  // waits for an abort only
    | SecondPoll(since: int, timeoutMs: int) // waits for an abort or an idle display
    | BeforeRelease(cause: Cause)
    | Stopped

  datatype Hint = Lock | Rel

  datatype State = State(
    clock: int, mode: Mode, durationMs: int, lastNs: int, eventFd: nat, routine: Routine,
    hints: seq<Hint>,      // DoHint and EndHint calls since Init, in order
    requests: seq<int>)    // when each request since the last idle time wants the boost to end

  // ---------------------------------------------------------------------------------------------
  // Durations
  // ---------------------------------------------------------------------------------------------

  /** The duration granted to a request. The sum is compared as an unsigned number, so a negative
      one counts as longer than the maximum. */
  function FinalDuration(cfg: Config, duration: int): int {
    var input := ToInt32(ToUint32(duration) + cfg.offsetMs);
    if ToUint32(input) > cfg.maxMs then ToInt32(cfg.maxMs)
    else if ToUint32(input) > cfg.minMs then input
    else ToInt32(cfg.minMs)
  }

  lemma FinalDurationRange(cfg: Config, duration: int)
    requires cfg.Valid()
    ensures 0 <= FinalDuration(cfg, duration) <= Max(cfg.minMs, cfg.maxMs)
    ensures cfg.minMs <= cfg.maxMs ==> cfg.minMs <= FinalDuration(cfg, duration) <= cfg.maxMs
  {
  }

  /** What a request is granted: the sum of its duration and the configured offset, taken as an unsigned
      32-bit number, where that lies between minimum and maximum, the minimum for a smaller sum, and the
      maximum for a larger one. */
  lemma GrantedDuration(cfg: Config, duration: int)
    requires cfg.Valid()
    ensures var sum := (duration + cfg.offsetMs) % 0x1_0000_0000;
            FinalDuration(cfg, duration) ==
            if cfg.maxMs < sum then cfg.maxMs else if sum < cfg.minMs then cfg.minMs else sum
    ensures cfg.minMs <= duration + cfg.offsetMs <= cfg.maxMs ==>
              FinalDuration(cfg, duration) == duration + cfg.offsetMs
  {
    hide ToInt32, ToUint32;
    UnsignedSum(duration, cfg.offsetMs);
  }

  /** The sum that is compared, and the number that it is again as a signed one. */
  lemma UnsignedSum(a: int, b: int)
    ensures var input := ToInt32(ToUint32(a) + b);
            var sum := (a + b) % 0x1_0000_0000;
            ToUint32(input) == sum && (sum < 0x8000_0000 ==> input == sum)
  {
  }

  /** Elapsed milliseconds as CalcTimespecDiffMs computes them, from seconds and nanoseconds apart. */
  function ElapsedMs(start: int, end: int): int {
    (end / NS_IN_SEC - start / NS_IN_SEC) * MS_IN_SEC + TruncDiv(end % NS_IN_SEC - start % NS_IN_SEC, NS_IN_MS)
  }

  /** The computed time is less than a millisecond off, never negative, and exact between whole
      milliseconds. */
  lemma ElapsedIsClose(start: int, end: int)
    requires start <= end
    ensures end - start - NS_IN_MS < ElapsedMs(start, end) * NS_IN_MS < end - start + NS_IN_MS
    ensures 0 <= ElapsedMs(start, end)
    ensures start % NS_IN_MS == 0 && end % NS_IN_MS == 0 ==> ElapsedMs(start, end) * NS_IN_MS == end - start
  {
    var r1, r2 := start % NS_IN_SEC, end % NS_IN_SEC;
    QuotientIsClose(r2 - r1);
    if start % NS_IN_MS == 0 && end % NS_IN_MS == 0 {
      WholeRemainder(start);
      WholeRemainder(end);
    }
    SecondsAndMs(start / NS_IN_SEC, end / NS_IN_SEC, r1, r2, TruncDiv(r2 - r1, NS_IN_MS));
  }

  lemma WholeRemainder(x: int)
    requires x % NS_IN_MS == 0
    ensures x % NS_IN_SEC % NS_IN_MS == 0
  {
    var r, k := x % NS_IN_SEC, x / NS_IN_MS - MS_IN_SEC * (x / NS_IN_SEC);
    assert r == NS_IN_MS * k;
    Multiple(k, r);
  }

  lemma Multiple(k: int, r: int)
    requires r == NS_IN_MS * k
    ensures r % NS_IN_MS == 0
  {
  }

  /** Whole seconds and the milliseconds between the rests make up the distance. */
  lemma SecondsAndMs(s1: int, s2: int, r1: int, r2: int, q: int)
    requires 0 <= r1 < NS_IN_SEC && 0 <= r2 < NS_IN_SEC && s1 * NS_IN_SEC + r1 <= s2 * NS_IN_SEC + r2
    requires r2 - r1 - NS_IN_MS < q * NS_IN_MS < r2 - r1 + NS_IN_MS
    requires (r1 <= r2 ==> q >= 0) && -MS_IN_SEC < q
    ensures var elapsed := (s2 - s1) * MS_IN_SEC + q;
            var distance := s2 * NS_IN_SEC + r2 - (s1 * NS_IN_SEC + r1);
            0 <= elapsed && distance - NS_IN_MS < elapsed * NS_IN_MS < distance + NS_IN_MS &&
            (q * NS_IN_MS == r2 - r1 ==> elapsed * NS_IN_MS == distance)
  {
  }

  /** Truncation toward zero loses less than one unit. */
  lemma QuotientIsClose(d: int)
    ensures d - NS_IN_MS < TruncDiv(d, NS_IN_MS) * NS_IN_MS < d + NS_IN_MS
    ensures d >= 0 ==> TruncDiv(d, NS_IN_MS) >= 0
    ensures -NS_IN_SEC < d ==> -MS_IN_SEC < TruncDiv(d, NS_IN_MS)
    ensures d % NS_IN_MS == 0 ==> TruncDiv(d, NS_IN_MS) * NS_IN_MS == d
  {
  }

  // ---------------------------------------------------------------------------------------------
  // Steps
  // ---------------------------------------------------------------------------------------------

  datatype Op =
    | Tick(time: int)
    | Acquire(duration: int)
    | BeginWait
    | ReadDuration
    | EndFirstPoll(cause: Cause)
    | GoOnWaiting
    | EndSecondPoll(cause: Cause)
    | Release

  function Initialized(clock: int): State {
    State(clock, Idle, 0, 0, 0, AtTop, [], [])
  }

  /** A request that the present boost already covers is skipped. */
  predicate CoveredBy(s: State, final: int) {
    s.mode != Idle && final <= s.durationMs && ElapsedMs(s.lastNs, s.clock) <= s.durationMs - final
  }

  function AcquireStep(cfg: Config, s: State, duration: int): State {
    var final := FinalDuration(cfg, duration);
    var requests := (if s.mode == Idle then [] else s.requests) + [s.clock + final * NS_IN_MS];
    if !cfg.idleSupport || s.mode == Uninitialized then s
    else if CoveredBy(s, final) then s.(requests := requests)
    else s.(mode := Interaction, lastNs := s.clock, durationMs := final, requests := requests,
            eventFd := if s.mode == Waiting then s.eventFd + 1 else s.eventFd,
            hints := if s.mode == Idle then s.hints + [Lock] else s.hints)
  }

  function BeginWaitStep(s: State): State {
    if s.mode == Uninitialized then s.(routine := Stopped) else s.(mode := Waiting, routine := BeforeWait)
  }

  function ReleaseStep(s: State): State {
    if s.mode == Waiting then s.(mode := Idle, hints := s.hints + [Rel], routine := AtTop)
    else s.(eventFd := 0, routine := AtTop)
  }

  predicate Enabled(cfg: Config, s: State, op: Op) {
    match op
    case Tick(time) => s.clock <= time
    case Acquire(_) => true
    case BeginWait => s.routine == AtTop && s.mode != Idle
    case ReadDuration => s.routine == BeforeWait
    case EndFirstPoll(cause) =>
      s.routine.FirstPoll? && !cause.TimedOut? && (cause.Aborted? ==> s.eventFd > 0) &&
      (cause.IdleSeen? ==> s.clock >= s.routine.since + cfg.waitMs * NS_IN_MS)
    case GoOnWaiting => s.routine.FirstPoll? && s.clock >= s.routine.since + cfg.waitMs * NS_IN_MS
    case EndSecondPoll(cause) =>
      s.routine.SecondPoll? && (cause.Aborted? ==> s.eventFd > 0) &&
      (cause.TimedOut? ==> s.clock >= s.routine.since + s.routine.timeoutMs * NS_IN_MS)
    case Release => s.routine.BeforeRelease?
  }

  function Next(cfg: Config, s: State, op: Op): State
    requires Enabled(cfg, s, op)
  {
    match op
    case Tick(time) => s.(clock := time)
    case Acquire(duration) => AcquireStep(cfg, s, duration)
    case BeginWait => BeginWaitStep(s)
    case ReadDuration => s.(routine := FirstPoll(s.clock, s.durationMs))
    case EndFirstPoll(cause) => s.(routine := BeforeRelease(cause))
    case GoOnWaiting => s.(routine := SecondPoll(s.clock, s.routine.timeoutMs))
    case EndSecondPoll(cause) => s.(routine := BeforeRelease(cause))
    case Release => ReleaseStep(s)
  }

  predicate Legal(cfg: Config, s: State, ops: seq<Op>)
    decreases |ops|
  {
    ops == [] || (Enabled(cfg, s, ops[0]) && Legal(cfg, Next(cfg, s, ops[0]), ops[1..]))
  }

  function Final(cfg: Config, s: State, ops: seq<Op>): State
    requires Legal(cfg, s, ops)
    decreases |ops|
  {
    if ops == [] then s else Final(cfg, Next(cfg, s, ops[0]), ops[1..])
  }

  // ---------------------------------------------------------------------------------------------
  // The hint and the event descriptor
  // ---------------------------------------------------------------------------------------------

  /** The hints alternate, beginning with a lock. */
  predicate Alternate(hints: seq<Hint>) {
    forall i :: 0 <= i < |hints| ==> hints[i] == if i % 2 == 0 then Lock else Rel
  }

  predicate Held(hints: seq<Hint>) {
    |hints| % 2 == 1
  }

  /** The hint is held exactly outside idleness; between waits the event descriptor is clear, and
      during a wait it is set exactly when a request has interrupted the wait. */
  predicate HintInv(s: State) {
    && Alternate(s.hints)
    && (Held(s.hints) <==> s.mode == Interaction || s.mode == Waiting)
    && s.mode != Uninitialized && s.routine != Stopped
    && (if s.routine == AtTop then s.eventFd == 0 && s.mode != Waiting
        else (s.mode == Waiting && s.eventFd == 0) || (s.mode == Interaction && s.eventFd == 1))
  }

  lemma HintStep(cfg: Config, s: State, op: Op)
    requires HintInv(s) && Enabled(cfg, s, op)
    ensures HintInv(Next(cfg, s, op))
  {
  }

  /** In every interleaving the hint is taken and released in turn, held exactly while the mode is
      not idle, and no wait begins already aborted. */
  lemma {:induction false} HintsAlternate(cfg: Config, s: State, ops: seq<Op>)
    requires HintInv(s) && Legal(cfg, s, ops)
    ensures HintInv(Final(cfg, s, ops))
    decreases |ops|
  {
    if ops != [] {
      HintStep(cfg, s, ops[0]);
      HintsAlternate(cfg, Next(cfg, s, ops[0]), ops[1..]);
    }
  }

  // ---------------------------------------------------------------------------------------------
  // How long the boost lasts
  // ---------------------------------------------------------------------------------------------

  function EndNs(s: State): int { s.lastNs + s.durationMs * NS_IN_MS }

  /** The boost's end is that of one of the requests, and no request wants it a millisecond longer. */
  predicate EndsWithLatest(s: State) {
    s.mode != Idle ==>
      && (exists i :: 0 <= i < |s.requests| && s.requests[i] == EndNs(s))
      && forall i :: 0 <= i < |s.requests| ==> s.requests[i] < EndNs(s) + NS_IN_MS
  }

  /** The wait in progress, unless interrupted, times out no earlier than the boost's end. */
  predicate WaitsLongEnough(s: State) {
    s.mode == Waiting ==>
      match s.routine
      case FirstPoll(since, timeoutMs) => s.lastNs <= since <= s.clock && timeoutMs == s.durationMs
      case SecondPoll(since, timeoutMs) => s.lastNs <= since <= s.clock && timeoutMs == s.durationMs
      case BeforeRelease(cause) => cause.TimedOut? ==> EndNs(s) <= s.clock
      case _ => true
  }

  predicate TimeInv(s: State) {
    && HintInv(s) && EndsWithLatest(s) && WaitsLongEnough(s)
    && (s.mode != Idle ==> s.lastNs <= s.clock && 0 <= s.durationMs)
  }

  lemma AcquireEnds(cfg: Config, s: State, duration: int)
    requires cfg.Valid() && TimeInv(s)
    ensures EndsWithLatest(AcquireStep(cfg, s, duration))
  {
    var final := FinalDuration(cfg, duration);
    var s' := AcquireStep(cfg, s, duration);
    var wanted := s.clock + final * NS_IN_MS;
    if cfg.idleSupport && s.mode != Idle {
      ElapsedIsClose(s.lastNs, s.clock);
      var n := |s.requests|;
      if CoveredBy(s, final) {
        assert wanted < EndNs(s) + NS_IN_MS;
        var i :| 0 <= i < n && s.requests[i] == EndNs(s);
        assert s'.requests[i] == EndNs(s');
      } else {
        assert EndNs(s) <= wanted;
        assert s'.requests[n] == EndNs(s');
      }
    } else if cfg.idleSupport {
      assert s'.requests[0] == EndNs(s');
    }
  }

  lemma TimeStep(cfg: Config, s: State, op: Op)
    requires cfg.Valid() && TimeInv(s) && Enabled(cfg, s, op)
    ensures TimeInv(Next(cfg, s, op))
  {
    HintStep(cfg, s, op);
    if op.Acquire? {
      AcquireEnds(cfg, s, op.duration);
      FinalDurationRange(cfg, op.duration);
    }
  }

  /** In every run, while the boost is on, its recorded end is that of the longest request since the
      last idle time, to less than a millisecond; and a wait that times out releases the boost only
      when that end has been reached. */
  lemma {:induction false} BoostLastsForLongestRequest(cfg: Config, s: State, ops: seq<Op>)
    requires cfg.Valid() && TimeInv(s) && Legal(cfg, s, ops)
    ensures TimeInv(Final(cfg, s, ops))
    decreases |ops|
  {
    if ops != [] {
      TimeStep(cfg, s, ops[0]);
      BoostLastsForLongestRequest(cfg, Next(cfg, s, ops[0]), ops[1..]);
    }
  }

  /** From `Init` on, in every interleaving: the hint alternates and is held exactly outside
      idleness, the event descriptor is set exactly when a request has interrupted the wait, and the
      boost ends with the longest request. */
  lemma EveryRun(cfg: Config, clock: int, ops: seq<Op>)
    requires cfg.Valid() && Legal(cfg, Initialized(clock), ops)
    ensures var s := Final(cfg, Initialized(clock), ops); HintInv(s) && EndsWithLatest(s) && WaitsLongEnough(s)
  {
    BoostLastsForLongestRequest(cfg, Initialized(clock), ops);
  }

  // ---------------------------------------------------------------------------------------------
  // Whole-millisecond clocks
  // ---------------------------------------------------------------------------------------------

  predicate WholeMs(op: Op) {
    op.Tick? ==> op.time % NS_IN_MS == 0
  }

  /** The boost's end is the latest of the requests. */
  predicate EndsExactlyWithLatest(s: State) {
    s.mode != Idle ==>
      && (exists i :: 0 <= i < |s.requests| && s.requests[i] == EndNs(s))
      && forall i :: 0 <= i < |s.requests| ==> s.requests[i] <= EndNs(s)
  }

  predicate WholeMsState(s: State) {
    s.clock % NS_IN_MS == 0 && (s.mode != Idle ==> s.lastNs % NS_IN_MS == 0)
  }

  lemma AcquireEndsExactly(cfg: Config, s: State, duration: int)
    requires cfg.Valid() && TimeInv(s) && EndsExactlyWithLatest(s) && WholeMsState(s)
    ensures EndsExactlyWithLatest(AcquireStep(cfg, s, duration))
  {
    var final := FinalDuration(cfg, duration);
    AcquireEnds(cfg, s, duration);
    if s.mode != Idle {
      ElapsedIsClose(s.lastNs, s.clock);
      assert CoveredBy(s, final) ==> s.clock + final * NS_IN_MS <= EndNs(s);
      assert !CoveredBy(s, final) ==> EndNs(s) <= s.clock + final * NS_IN_MS;
    }
  }

  lemma ExactStep(cfg: Config, s: State, op: Op)
    requires cfg.Valid() && TimeInv(s) && EndsExactlyWithLatest(s) && WholeMsState(s)
    requires Enabled(cfg, s, op) && WholeMs(op)
    ensures EndsExactlyWithLatest(Next(cfg, s, op)) && WholeMsState(Next(cfg, s, op))
  {
    if op.Acquire? {
      AcquireEndsExactly(cfg, s, op.duration);
    }
  }

  /** When the clock only shows whole milliseconds, the recorded end is exactly the latest end
      requested since the last idle time, counting the requests that were skipped. */
  lemma {:induction false} WholeMsClockIsExact(cfg: Config, s: State, ops: seq<Op>)
    requires cfg.Valid() && TimeInv(s) && EndsExactlyWithLatest(s) && WholeMsState(s)
    requires Legal(cfg, s, ops) && forall i :: 0 <= i < |ops| ==> WholeMs(ops[i])
    ensures EndsExactlyWithLatest(Final(cfg, s, ops))
    decreases |ops|
  {
    if ops != [] {
      TimeStep(cfg, s, ops[0]);
      ExactStep(cfg, s, ops[0]);
      WholeMsClockIsExact(cfg, Next(cfg, s, ops[0]), ops[1..]);
    }
  }

  // ---------------------------------------------------------------------------------------------
  // When exactly time is lost
  // ---------------------------------------------------------------------------------------------

  /** The request is skipped as covered although it asks for more than the boost has left: the elapsed
      time was rounded down. */
  predicate LosesTime(cfg: Config, s: State, op: Op) {
    && op.Acquire? && cfg.idleSupport && s.mode != Uninitialized
    && var final := FinalDuration(cfg, op.duration);
       CoveredBy(s, final) && (s.durationMs - final) * NS_IN_MS < s.clock - s.lastNs
  }

  /** Exactly which steps leave the recorded end short of the latest request. */
  lemma StaysExactIff(cfg: Config, s: State, op: Op)
    requires cfg.Valid() && TimeInv(s) && EndsExactlyWithLatest(s) && Enabled(cfg, s, op)
    ensures EndsExactlyWithLatest(Next(cfg, s, op)) <==> !LosesTime(cfg, s, op)
  {
    if op.Acquire? {
      AcquireExactIff(cfg, s, op.duration);
    }
  }

  lemma AcquireExactIff(cfg: Config, s: State, duration: int)
    requires cfg.Valid() && TimeInv(s) && EndsExactlyWithLatest(s)
    ensures EndsExactlyWithLatest(AcquireStep(cfg, s, duration)) <==> !LosesTime(cfg, s, Acquire(duration))
  {
    var final := FinalDuration(cfg, duration);
    var s' := AcquireStep(cfg, s, duration);
    var wanted := s.clock + final * NS_IN_MS;
    AcquireEnds(cfg, s, duration);
    if cfg.idleSupport && s.mode != Idle {
      ElapsedIsClose(s.lastNs, s.clock);
      hide FinalDuration, ElapsedMs;
      assert s'.requests == s.requests + [wanted];
      assert s'.requests[|s.requests|] == wanted;
      if !CoveredBy(s, final) {
        assert EndNs(s) <= wanted == EndNs(s');
      }
    }
  }

  /** The recorded end is the latest requested before and after every step of the run. */
  predicate AlwaysExact(cfg: Config, s: State, ops: seq<Op>)
    requires Legal(cfg, s, ops)
    decreases |ops|
  {
    EndsExactlyWithLatest(s) && (ops == [] || AlwaysExact(cfg, Next(cfg, s, ops[0]), ops[1..]))
  }

  predicate NeverLosesTime(cfg: Config, s: State, ops: seq<Op>)
    requires Legal(cfg, s, ops)
    decreases |ops|
  {
    ops == [] || (!LosesTime(cfg, s, ops[0]) && NeverLosesTime(cfg, Next(cfg, s, ops[0]), ops[1..]))
  }

  /** The recorded end is at every point the latest one requested, in exactly the runs in which no
      request is skipped that asks for more than the boost has left. */
  lemma {:induction false} AlwaysExactIff(cfg: Config, s: State, ops: seq<Op>)
    requires cfg.Valid() && TimeInv(s) && EndsExactlyWithLatest(s) && Legal(cfg, s, ops)
    ensures AlwaysExact(cfg, s, ops) <==> NeverLosesTime(cfg, s, ops)
    decreases |ops|
  {
    if ops != [] {
      StaysExactIff(cfg, s, ops[0]);
      TimeStep(cfg, s, ops[0]);
      if !LosesTime(cfg, s, ops[0]) {
        AlwaysExactIff(cfg, Next(cfg, s, ops[0]), ops[1..]);
      }
    }
  }

  /** Between whole milliseconds a request may be skipped although it asks for up to a millisecond
      more than the boost gives. */
  lemma SkippedRequestMayLoseTime()
    ensures
      var cfg := Config(true, 100, 1400, 5650, 650);
      var ops := [Tick(NS_IN_MS), Acquire(1000), Tick(2 * NS_IN_MS - 1), Acquire(1000)];
      Legal(cfg, Initialized(0), ops) && !EndsExactlyWithLatest(Final(cfg, Initialized(0), ops))
  {
    var cfg := Config(true, 100, 1400, 5650, 650);
    var ops := [Tick(NS_IN_MS), Acquire(1000), Tick(2 * NS_IN_MS - 1), Acquire(1000)];
    var s1 := Next(cfg, Initialized(0), ops[0]);
    var s2 := Next(cfg, s1, ops[1]);
    var s3 := Next(cfg, s2, ops[2]);
    var s4 := Next(cfg, s3, ops[3]);
    assert ops[1..][1..][1..][1..] == [];
    assert Final(cfg, s3, ops[1..][1..][1..]) == s4;
    assert Final(cfg, s2, ops[1..][1..]) == s4;
    assert Final(cfg, s1, ops[1..]) == s4;
    assert s4.requests == [s2.clock + 1650 * NS_IN_MS, s3.clock + 1650 * NS_IN_MS];
    assert s4.requests[1] > EndNs(s4);
  }

  /** A release that follows a timed-out wait comes only after every request of the boost has had
      its time, to less than a millisecond, and to the nanosecond on a whole-millisecond clock. */
  lemma ReleaseIsNeverEarly(s: State)
    requires TimeInv(s) && s.routine == BeforeRelease(TimedOut) && ReleaseStep(s).hints != s.hints
    ensures forall i :: 0 <= i < |s.requests| ==> s.requests[i] < s.clock + NS_IN_MS
    ensures EndsExactlyWithLatest(s) ==> forall i :: 0 <= i < |s.requests| ==> s.requests[i] <= s.clock
  {
  }

  // ---------------------------------------------------------------------------------------------
  // Interrupted waits
  // ---------------------------------------------------------------------------------------------

  /** A request that interrupts a wait is served at once: without time passing or another request, the
      routine can leave the wait, clear the event descriptor and begin a new wait for the new duration,
      and the hint is held all along. */
  lemma {:induction false} InterruptedWaitStartsAfresh(cfg: Config, s: State) returns (ops: seq<Op>)
    requires HintInv(s) && s.mode == Interaction
    ensures Legal(cfg, s, ops) && |ops| <= RestartSteps(s.routine)
    ensures forall i :: 0 <= i < |ops| ==> !ops[i].Tick? && !ops[i].Acquire?
    ensures Final(cfg, s, ops) ==
            s.(mode := Waiting, eventFd := 0, routine := FirstPoll(s.clock, s.durationMs))
    decreases RestartSteps(s.routine)
  {
    if s.routine == AtTop {
      var s1 := Next(cfg, s, BeginWait);
      var s2 := Next(cfg, s1, ReadDuration);
      ops := [BeginWait, ReadDuration];
      assert ops[1..] == [ReadDuration] && ops[1..][1..] == [];
      assert Final(cfg, s1, ops[1..]) == s2;
    } else {
      var op := match s.routine
        case BeforeWait => ReadDuration
        case FirstPoll(_, _) => EndFirstPoll(Aborted)
        case SecondPoll(_, _) => EndSecondPoll(Aborted)
        case _ => Release;
      HintStep(cfg, s, op);
      var rest := InterruptedWaitStartsAfresh(cfg, Next(cfg, s, op));
      ops := [op] + rest;
      assert ops[1..] == rest;
    }
  }

  function RestartSteps(r: Routine): nat {
    match r
    case BeforeWait => 6
    case FirstPoll(_, _) => 5
    case SecondPoll(_, _) => 4
    case BeforeRelease(_) => 3
    case _ => 2
  }

  // ---------------------------------------------------------------------------------------------
  // Exit
  // ---------------------------------------------------------------------------------------------

  function ExitStep(s: State): State {
    if s.mode == Uninitialized then s else s.(mode := Uninitialized, eventFd := s.eventFd + 1)
  }

  /** After `Exit` the routine never has to wait for anything but an abort that is already there. */
  predicate Exiting(s: State) {
    s.mode == Uninitialized && (s.routine in {AtTop, Stopped} || s.routine.BeforeRelease? || s.eventFd > 0)
  }

  /** Steps the routine may still take. */
  function StepsLeft(r: Routine): nat {
    match r
    case BeforeWait => 5
    case FirstPoll(_, _) => 4
    case SecondPoll(_, _) => 3
    case BeforeRelease(_) => 2
    case AtTop => 1
    case Stopped => 0
  }

  lemma ExitingStep(cfg: Config, s: State, op: Op)
    requires Exiting(s) && Enabled(cfg, s, op)
    ensures var s' := Next(cfg, s, op);
      Exiting(s') && s'.hints == s.hints && StepsLeft(s'.routine) <= StepsLeft(s.routine) &&
      (!op.Tick? && !op.Acquire? ==> StepsLeft(s'.routine) < StepsLeft(s.routine))
  {
  }

  /** `Exit` does not release the hint: whatever runs afterwards, the hint stays held exactly if the
      handler was not idle when `Exit` was called. */
  lemma {:induction false} ExitLeavesHint(cfg: Config, s: State, ops: seq<Op>)
    requires HintInv(s) && Legal(cfg, ExitStep(s), ops)
    ensures Held(Final(cfg, ExitStep(s), ops).hints) <==> s.mode != Idle
  {
    ExitingRun(cfg, ExitStep(s), ops);
  }

  lemma {:induction false} ExitingRun(cfg: Config, s: State, ops: seq<Op>)
    requires Exiting(s) && Legal(cfg, s, ops)
    ensures Exiting(Final(cfg, s, ops)) && Final(cfg, s, ops).hints == s.hints
    decreases |ops|
  {
    if ops != [] {
      ExitingStep(cfg, s, ops[0]);
      ExitingRun(cfg, Next(cfg, s, ops[0]), ops[1..]);
    }
  }

  /** The join in `Exit` returns: from any point the routine can go on, without time passing, until
      it has stopped, in at most five steps. */
  lemma {:induction false} ExitJoins(cfg: Config, s: State) returns (ops: seq<Op>)
    requires Exiting(s)
    ensures Legal(cfg, s, ops) && Final(cfg, s, ops).routine == Stopped
    ensures |ops| <= StepsLeft(s.routine) && forall i :: 0 <= i < |ops| ==> !ops[i].Tick? && !ops[i].Acquire?
    decreases StepsLeft(s.routine)
  {
    if s.routine == Stopped {
      ops := [];
    } else {
      var op := match s.routine
        case BeforeWait => ReadDuration
        case FirstPoll(_, _) => EndFirstPoll(Aborted)
        case SecondPoll(_, _) => EndSecondPoll(Aborted)
        case BeforeRelease(_) => Release
        case _ => BeginWait;
      ExitingStep(cfg, s, op);
      var rest := ExitJoins(cfg, Next(cfg, s, op));
      ops := [op] + rest;
      assert ops[1..] == rest;
    }
  }

  // ---------------------------------------------------------------------------------------------
  // The handler
  // ---------------------------------------------------------------------------------------------

  class Handler {
    const cfg: Config
    var mode: Mode
    var durationMs: int
    var lastNs: int
    var eventFd: nat
    ghost var clock: int
    ghost var routine: Routine
    ghost var hints: seq<Hint>
    ghost var requests: seq<int>

    ghost function View(): State
      reads this
    {
      State(clock, mode, durationMs, lastNs, eventFd, routine, hints, requests)
    }

    ghost predicate Running()
      reads this
    {
      cfg.Valid() && TimeInv(View())
    }

    constructor (cfg: Config)
      ensures this.cfg == cfg && mode == Uninitialized && durationMs == 0
    {
      this.cfg := cfg;
      mode, durationMs, lastNs, eventFd := Uninitialized, 0, 0, 0;
      clock, routine, hints, requests := 0, Stopped, [], [];
    }

    /** Opens the descriptors (`descriptors` says whether that worked) and starts the routine. */
    method Init(now: int, descriptors: bool) returns (ok: bool)
      requires cfg.Valid() && (mode == Uninitialized || Running())
      modifies this
      ensures ok == (descriptors || old(mode) != Uninitialized)
      ensures old(mode) == Uninitialized && descriptors ==> Running() && mode == Idle && hints == []
      ensures !(old(mode) == Uninitialized && descriptors) ==> View() == old(View())
    {
      if mode != Uninitialized {
        return true;
      }
      if !descriptors {
        return false;
      }
      eventFd, mode := 0, Idle;
      clock, routine, hints, requests := now, AtTop, [], [];
      return true;
    }

    method AbortWaitLocked()
      modifies this`eventFd
      ensures eventFd == old(eventFd) + 1
    {
      eventFd := eventFd + 1;
    }

    /** A request for `duration` milliseconds of boost at time `now`. */
    method Acquire(now: int, duration: int)
      requires Running() && clock <= now
      modifies this
      ensures Running()
      ensures View() == AcquireStep(cfg, old(View()).(clock := now), duration)
    {
      hide FinalDuration, ElapsedMs, TimeInv;
      ghost var before := View().(clock := now);
      assert TimeInv(AcquireStep(cfg, before, duration)) by {
        TimeStep(cfg, View(), Op.Tick(now));
        TimeStep(cfg, before, Op.Acquire(duration));
      }
      clock := now;
      var final := FinalDuration(cfg, duration);
      if !cfg.idleSupport || mode == Uninitialized {
        return;
      }
      requests := (if mode == Idle then [] else requests) + [now + final * NS_IN_MS];
      if mode != Idle && final <= durationMs {
        var elapsed := ElapsedMs(lastNs, now);
        if elapsed <= durationMs - final {
          return;
        }
      }
      lastNs := now;
      durationMs := final;
      if mode == Waiting {
        AbortWaitLocked();
      } else if mode == Idle {
        hints := hints + [Lock];
      }
      mode := Interaction;
    }

    /** The locked part of the routine's loop, when the condition it waits for holds. */
    method BeginWait()
      requires Running() || Exiting(View())
      requires routine == AtTop && mode != Idle
      modifies this`mode, this`routine
      ensures View() == BeginWaitStep(old(View()))
      ensures old(Running()) ==> Running()
    {
      if mode == Uninitialized {
        routine := Stopped;
        return;
      }
      TimeStep(cfg, View(), Op.BeginWait);
      mode := Waiting;
      routine := BeforeWait;
    }

    method Release()
      requires Running() || Exiting(View())
      requires routine.BeforeRelease?
      modifies this`mode, this`eventFd, this`hints, this`routine
      ensures View() == ReleaseStep(old(View()))
      ensures old(Running()) ==> Running()
    {
      if mode != Uninitialized {
        TimeStep(cfg, View(), Op.Release);
      }
      if mode == Waiting {
        hints := hints + [Rel];
        mode := Idle;
      } else {
        eventFd := 0;
      }
      routine := AtTop;
    }

    method Exit()
      requires Running()
      modifies this`mode, this`eventFd
      ensures View() == ExitStep(old(View())) && Exiting(View())
    {
      AbortWaitLocked();
      mode := Uninitialized;
    }
  }
}
