/** All hint sessions together with the manager and its timeout queue, and what holds in every run
    of the whole. Each call of a session, and each round of the background worker, is one step. */
module SessionSystem {
  import opened Arith
  import opened UclampVoter
  import opened ThreadSweep
  import opened SessionTaskMap
  import opened SessionRecords
  import opened PidControl
  import opened SessionModel
  import opened ThreadFloors
  import opened HeuristicBoost
  import opened HintSession
  import Protocol = TimeoutProtocol

  /** The descriptors of closed sessions are kept: a session id is never given out again. */
  datatype System = System(
    clock: int, lastId: int, model: Model, queue: seq<Protocol.Event>, kernel: Kernel, desc: map<int, Desc>)

  datatype Op =
    | Tick(time: int)
    | Create(threadIds: seq<int>, targetNs: int, isAppSession: bool, timeNow: int, first: Reading, readings: Readings)
    | Invoke(id: int, call: Call, readings: Readings)
    | Timeout(index: nat, dead: set<int>)

  function Initial(clock: int): System {
    System(clock, 0, map[], [], Kernel(map[], {}, 0), map[])
  }

  predicate Enabled(p: Profile, s: System, op: Op) {
    match op
    case Tick(time) => s.clock <= time
    case Create(_, _, _, _, _, _) => true
    case Invoke(id, call, _) => id in s.desc && Defined(p, s.desc[id], call)
    case Timeout(index, _) => Protocol.IsEarliest(s.queue, index) && s.queue[index].deadline <= s.clock
  }

  /** The part of the system that a call of session `id` works on. */
  function LocalOf(s: System, id: int): Local
    requires id in s.desc
  {
    Local(s.model, s.queue, s.kernel, s.desc[id])
  }

  function WithLocal(s: System, id: int, l: Local): System {
    s.(model := l.m, queue := l.queue, kernel := l.kernel, desc := s.desc[id := l.d])
  }

  ghost function Next(p: Profile, s: System, op: Op): System
    requires Enabled(p, s, op)
  {
    match op
    case Tick(time) => s.(clock := time)
    case Create(threadIds, targetNs, isAppSession, timeNow, first, rs) =>
      var id := s.lastId + 1;
      var l := Created(p, id, s.model, s.queue, s.kernel, threadIds, targetNs, isAppSession, timeNow, first, rs);
      WithLocal(s.(lastId := id), id, l)
    case Invoke(id, call, rs) => WithLocal(s, id, Do(p, id, LocalOf(s, id), call, rs).0)
    case Timeout(index, dead) =>
      var ev := Package(s.queue[index]);
      s.(model := AfterEvent(s.model, ev, s.clock, dead, p.uclampMinOn),
         queue := RemoveAt(s.queue, index) + EventsOfEvent(s.model, ev, s.clock),
         kernel := KernelAfterEvent(s.kernel, s.model, ev, s.clock, dead, p.uclampMinOn, p.gpuNodeOn))
  }

  ghost predicate Legal(p: Profile, s: System, ops: seq<Op>)
    decreases |ops|
  {
    ops == [] || (Enabled(p, s, ops[0]) && Legal(p, Next(p, s, ops[0]), ops[1..]))
  }

  ghost function Final(p: Profile, s: System, ops: seq<Op>): System
    requires Legal(p, s, ops)
    decreases |ops|
  {
    if ops == [] then s else Final(p, Next(p, s, ops[0]), ops[1..])
  }

  lemma {:induction false} LegalConcat(p: Profile, s: System, a: seq<Op>, b: seq<Op>)
    requires Legal(p, s, a) && Legal(p, Final(p, s, a), b)
    ensures Legal(p, s, a + b) && Final(p, s, a + b) == Final(p, Final(p, s, a), b)
    decreases |a|
  {
    hide Next;
    if a == [] {
      assert a + b == b;
    } else {
      LegalConcat(p, Next(p, s, a[0]), a[1..], b);
      assert (a + b)[1..] == a[1..] + b && (a + b)[0] == a[0];
    }
  }

  /** Some run from the start ends in `s`. */
  ghost predicate Reachable(p: Profile, s: System) {
    exists clock, ops :: Legal(p, Initial(clock), ops) && Final(p, Initial(clock), ops) == s
  }

  lemma StartReachable(p: Profile, clock: int)
    ensures Reachable(p, Initial(clock))
  {
    assert Legal(p, Initial(clock), []) && Final(p, Initial(clock), []) == Initial(clock);
  }

  lemma NextReachable(p: Profile, s: System, op: Op)
    requires Reachable(p, s) && Enabled(p, s, op)
    ensures Reachable(p, Next(p, s, op))
  {
    hide Next;
    var clock, ops :| Legal(p, Initial(clock), ops) && Final(p, Initial(clock), ops) == s;
    assert [op][1..] == [];
    assert Legal(p, Next(p, s, op), []) && Legal(p, s, [op]) && Final(p, s, [op]) == Next(p, s, op);
    LegalConcat(p, Initial(clock), ops, [op]);
    assert Legal(p, Initial(clock), ops + [op]);
  }

  // ---------------------------------------------------------------------------------------------
  // What the calls keep
  // ---------------------------------------------------------------------------------------------

  /** Only session `id` differs. */
  ghost predicate SameBut(m: Model, m': Model, id: int) {
    forall x :: x != id ==> (x in m <==> x in m') && (x in m ==> m[x] == m'[x])
  }

  predicate CpuVoteInRange(v: CpuVote) {
    0 <= v.range.uclampMin <= v.range.uclampMax == UCLAMP_MAX
  }

  predicate GpuVoteInRange(p: Profile, voteId: int, v: GpuVote) {
    0 <= v.capacity <= if voteId == GPU_CAPACITY then p.GpuLimit() else p.gpuLoadUpHeadroom
  }

  /** The control variable of session `id` and its CPU votes are ones the kernel accepts. */
  ghost predicate CpuRangeOf(m: Model, id: int, d: Desc) {
    0 <= d.pidControlVariable <= UCLAMP_MAX &&
    (id in m ==> forall j :: j in m[id].value.votes.cpu ==> CpuVoteInRange(m[id].value.votes.cpu[j]))
  }

  /** The GPU votes of session `id` are within their limits. */
  ghost predicate GpuRangeOf(p: Profile, m: Model, id: int) {
    id in m ==> forall j :: j in m[id].value.votes.gpu ==> GpuVoteInRange(p, j, m[id].value.votes.gpu[j])
  }

  /** Each vote of session `id` is in the map its id belongs to. */
  ghost predicate KindsOf(m: Model, id: int) {
    id in m ==> forall j :: j in m[id].value.votes.cpu ==> !IsGpuVote(j)
  }

  /** The integral is within its bounds, or still what it was before the first report. */
  predicate IntegralOf(p: Profile, d: Desc) {
    d.pidState.integralError == 0 || p.pid.pidILowDivI <= d.pidState.integralError <= p.pid.pidIHighDivI
  }

  /** The values of session `id` are in range: those of the CPU if the profile's are, those of the GPU
      in any case, and the integral if its bounds are in order. */
  ghost predicate RangeOf(p: Profile, m: Model, id: int, d: Desc) {
    && (p.InRange() ==> CpuRangeOf(m, id, d)) && GpuRangeOf(p, m, id) && KindsOf(m, id)
    && (p.pid.pidILowDivI <= p.pid.pidIHighDivI ==> IntegralOf(p, d))
  }

  /** The manager's entry for an open session says what the session says: active or not, no threads
      while paused, and while active the session's threads but for some that have died. */
  ghost predicate Agrees(s: Session, d: Desc) {
    && s.value.isActive == d.isActive
    && (if d.isActive then exists dead :: s.tasks == Alive(d.threadIds, dead) else s.tasks == [])
  }

  /** A closed session is gone from the manager; an open one is there and agrees with it. */
  ghost predicate LifeOf(m: Model, id: int, d: Desc) {
    if d.closed then id !in m && !d.isActive else id in m && Agrees(m[id], d)
  }

  /** A call on session `id` that began with the model `m0` has touched no other session, and the
      session's values are in range. If `live`, the manager and the session agree about the session. */
  ghost predicate Fine(p: Profile, id: int, m0: Model, live: bool, l: Local) {
    && SameBut(m0, l.m, id) && (l.d.closed ==> id !in l.m)
    && RangeOf(p, l.m, id, l.d) && (live ==> LifeOf(l.m, id, l.d))
  }

  /** Threads that die keep the entry in agreement. */
  lemma SweepAgrees(s: Session, d: Desc, dead: set<int>)
    requires Agrees(s, d)
    ensures Agrees(s.(tasks := Alive(s.tasks, dead)), d)
  {
    if d.isActive {
      var before :| s.tasks == Alive(d.threadIds, before);
      AliveTwice(d.threadIds, |d.threadIds|, before, dead);
      assert Alive(s.tasks, dead) == Alive(d.threadIds, before + dead);
    }
  }

  lemma SweepLife(m: Model, id: int, d: Desc, dead: set<int>, on: bool)
    requires LifeOf(m, id, d)
    ensures LifeOf(SweepModel(m, id, dead, on), id, d)
  {
    if id in m {
      SweepAgrees(m[id], d, dead);
    }
  }

  lemma VoteFine(p: Profile, id: int, m0: Model, live: bool, l: Local, voteId: int, vote: Protocol.Vote, dead: set<int>,
                 on: bool, gpuOn: bool)
    requires Fine(p, id, m0, live, l)
    requires match vote case Cpu(v) => p.InRange() ==> CpuVoteInRange(v) case Gpu(v) => GpuVoteInRange(p, voteId, v)
    ensures Fine(p, id, m0, live, SetVote(id, l, voteId, vote, dead, on, gpuOn))
  {
    if live {
      SweepLife(AfterVote(l.m, id, voteId, vote), id, l.d, dead, on);
    }
  }

  lemma SetPidFine(p: Profile, id: int, m0: Model, live: bool, l: Local, v: int, r: Reading)
    requires Fine(p, id, m0, live, l) && (p.InRange() ==> 0 <= v <= UCLAMP_MAX)
    ensures Fine(p, id, m0, live, SetPid(p, id, l, v, r))
  {
    var l' := l.(d := l.d.(pidControlVariable := v));
    VoteFine(p, id, m0, live, l', CPU_VOTE_DEFAULT,
             Protocol.Cpu(CpuVote(VoteRange(true, r.now, PidVoteNs(p, l.d.targetNs)), UclampRange(v, UCLAMP_MAX))),
             r.dead, p.uclampMinOn, false);
  }

  lemma SetCpuVoteFine(p: Profile, id: int, m0: Model, live: bool, l: Local, voteId: int, v: int, r: Reading,
                       durationNs: int)
    requires Fine(p, id, m0, live, l) && (p.InRange() ==> 0 <= v <= UCLAMP_MAX)
    ensures Fine(p, id, m0, live, SetCpuVote(p, id, l, voteId, v, r, durationNs))
  {
    VoteFine(p, id, m0, live, l, voteId,
             Protocol.Cpu(CpuVote(VoteRange(true, r.now, durationNs), UclampRange(v, UCLAMP_MAX))),
             r.dead, p.uclampMinOn, false);
  }

  lemma SetGpuVoteFine(p: Profile, id: int, m0: Model, live: bool, l: Local, voteId: int, capacity: int, r: Reading,
                       durationNs: int)
    requires Fine(p, id, m0, live, l)
    requires 0 <= capacity <= if voteId == GPU_CAPACITY then p.GpuLimit() else p.gpuLoadUpHeadroom
    ensures Fine(p, id, m0, live, SetGpuVote(p, id, l, voteId, capacity, r, durationNs))
  {
    VoteFine(p, id, m0, live, l, voteId, Protocol.Gpu(GpuVote(VoteRange(true, r.now, durationNs), capacity)), {},
             false, p.gpuNodeOn);
  }

  lemma HintFine(p: Profile, id: int, m0: Model, live: bool, l: Local, hint: SessionHint, rs: Readings)
    requires Fine(p, id, m0, live, l)
    ensures Fine(p, id, m0, live, DoSendHint(p, id, l, hint, rs).0)
  {
    hide Fine, SetCpuVote, SetGpuVote, SetPid;
    var target, pid := l.d.targetNs, l.d.pidControlVariable;
    assert p.InRange() ==> 0 <= pid <= UCLAMP_MAX by { FineRange(p, id, m0, live, l); }
    match hint
    case CpuLoadUp =>
      SetPidFine(p, id, m0, live, l, pid, rs.first);
      SetCpuVoteFine(p, id, m0, live, SetPid(p, id, l, pid, rs.first), CPU_LOAD_UP, ToInt32(p.uclampMinLoadUp),
                     rs.second, target * 2);
    case CpuLoadDown => SetPidFine(p, id, m0, live, l, ToInt32(p.uclampMinLow), rs.first);
    case CpuLoadReset =>
      var pid' := ToInt32(Max(p.uclampMinInit, ToUint32(pid)));
      var l' := l.(d := l.d.(pidControlVariable := pid'));
      FineWithPid(p, id, m0, live, l, pid');
      SetCpuVoteFine(p, id, m0, live, l', CPU_LOAD_RESET, ToInt32(p.uclampMinLoadReset), rs.first,
                     p.halfStaleNs(target));
    case CpuLoadResume => SetCpuVoteFine(p, id, m0, live, l, CPU_LOAD_RESUME, pid, rs.first, p.halfStaleNs(target));
    case GpuLoadUp => SetGpuVoteFine(p, id, m0, live, l, GPU_LOAD_UP, p.gpuLoadUpHeadroom, rs.first, target);
    case _ =>
  }

  lemma FineRange(p: Profile, id: int, m0: Model, live: bool, l: Local)
    requires Fine(p, id, m0, live, l)
    ensures p.InRange() ==> 0 <= l.d.pidControlVariable <= UCLAMP_MAX
  {
  }

  lemma FineWithPid(p: Profile, id: int, m0: Model, live: bool, l: Local, v: int)
    requires Fine(p, id, m0, live, l) && (p.InRange() ==> 0 <= v <= UCLAMP_MAX)
    ensures Fine(p, id, m0, live, l.(d := l.d.(pidControlVariable := v)))
  {
  }

  lemma ReportFine(p: Profile, id: int, m0: Model, live: bool, l: Local, works: seq<WorkDuration>,
                   gpuFrequency: Option<int>, rs: Readings)
    requires Fine(p, id, m0, live, l) && ReportDefined(p, l.d, works, gpuFrequency)
    ensures Fine(p, id, m0, live, DoReport(p, id, l, works, gpuFrequency, rs).0)
  {
    hide Fine, SetCpuVote, SetGpuVote, SetPid, ArithmeticDefined, Recorded, Controlled, NextMin, GpuVoteOf;
    var l1 := l.(m := AfterDisable(l.m, id));
    DisableFine(p, id, m0, live, l);
    if !p.pidOn {
      SetPidFine(p, id, m0, live, l1, ToInt32(p.uclampMinHigh), rs.first);
    } else if Accepts(l.d, works) {
      var d := RecordedAll(p, l.d, works);
      var c := Controlled(p, d, works);
      ControlledIntegral(p, d, works);
      FineWithDesc(p, id, m0, live, l1, d.(pidState := c.0));
      if p.InRange() {
        NextMinInRange(p, d, c.1);
      }
      var l2 := l1.(d := d.(pidState := c.0));
      SetPidFine(p, id, m0, live, l2, NextMin(p, d, c.1), rs.first);
      ReportGpuFine(p, id, m0, live, SetPid(p, id, l2, NextMin(p, d, c.1), rs.first), works, gpuFrequency, rs.second);
    }
  }

  lemma DisableFine(p: Profile, id: int, m0: Model, live: bool, l: Local)
    requires Fine(p, id, m0, live, l)
    ensures Fine(p, id, m0, live, l.(m := AfterDisable(l.m, id)))
  {
  }

  lemma RecordedAll(p: Profile, d0: Desc, works: seq<WorkDuration>) returns (d: Desc)
    requires works != [] && p.pidOn && ArithmeticDefined(p, d0, works)
    ensures d == Recorded(p, d0, works) && To100us(d.targetNs) != 0
    ensures d.pidControlVariable == d0.pidControlVariable && d.targetNs == d0.targetNs
    ensures d.closed == d0.closed && d.isActive == d0.isActive && d.threadIds == d0.threadIds
  {
    d := Recorded(p, d0, works);
  }

  lemma FineWithDesc(p: Profile, id: int, m0: Model, live: bool, l: Local, d: Desc)
    requires Fine(p, id, m0, live, l) && d.pidControlVariable == l.d.pidControlVariable
    requires d.closed == l.d.closed && d.isActive == l.d.isActive && d.threadIds == l.d.threadIds
    requires p.pid.pidILowDivI <= p.pid.pidIHighDivI ==> IntegralOf(p, d)
    ensures Fine(p, id, m0, live, l.(d := d))
  {
  }

  lemma ControlledIntegral(p: Profile, d: Desc, works: seq<WorkDuration>)
    requires works != [] && To100us(d.targetNs) != 0
    ensures p.pid.pidILowDivI <= p.pid.pidIHighDivI ==> IntegralOf(p, d.(pidState := Controlled(p, d, works).0))
  {
    if p.pid.pidILowDivI <= p.pid.pidIHighDivI {
      StateInBounds(p.pid, Errors(Durations(works), d.targetNs), To100us(d.targetNs), d.pidState);
    }
  }

  /** The control variable stays between the floor and the larger of floor and ceiling. */
  lemma NextMinInRange(p: Profile, d: Desc, output: int)
    requires p.InRange()
    ensures p.uclampMinLow <= NextMin(p, d, output) <= Max(p.uclampMinLow, Ceiling(p, d.boostActive)) <= UCLAMP_MAX
  {
  }

  lemma ReportGpuFine(p: Profile, id: int, m0: Model, live: bool, l: Local, works: seq<WorkDuration>,
                      gpuFrequency: Option<int>, r: Reading)
    requires Fine(p, id, m0, live, l) && works != [] && GpuDefined(p, works, l.d.targetNs, gpuFrequency)
    ensures Fine(p, id, m0, live, ReportGpu(p, id, l, works, gpuFrequency, r))
  {
    hide Fine, SetGpuVote;
    if UsesGpu(p, works) && gpuFrequency.Some? {
      var capacity := GpuVoteOf(p, works[|works| - 1], l.d.targetNs, gpuFrequency.value);
      SetGpuVoteFine(p, id, m0, live, l, GPU_CAPACITY, capacity, r, p.staleNs(l.d.targetNs));
    }
  }

  /** The one call that can break the agreement: new threads for a paused session. */
  predicate KeepsLife(d: Desc, call: Call) {
    call.SetThreads? ==> d.closed || call.ids == [] || d.isActive
  }

  lemma SetThreadsFine(p: Profile, id: int, m0: Model, live: bool, l: Local, ids: seq<int>, rs: Readings)
    requires Fine(p, id, m0, live, l) && (live ==> KeepsLife(l.d, SetThreads(ids)))
    ensures Fine(p, id, m0, live, DoSetThreads(p, id, l, ids, rs).0)
  {
    var l' := GiveThreads(p, id, l.(d := l.d.(threadIds := ids)), ids, rs);
    if !l.d.closed && ids != [] {
      assert live ==> LifeOf(l'.m, id, l'.d) by { AliveNone(ids, |ids|); assert Alive(ids, {}) == ids; }
      SetPidFine(p, id, m0, live, l', ToInt32(p.uclampMinInit), rs.third);
    }
  }

  lemma PauseFine(p: Profile, id: int, m0: Model, live: bool, l: Local, rs: Readings)
    requires Fine(p, id, m0, live, l)
    ensures Fine(p, id, m0, live, DoPause(p, id, l, rs).0)
  {
  }

  lemma ResumeFine(p: Profile, id: int, m0: Model, live: bool, l: Local, rs: Readings)
    requires Fine(p, id, m0, live, l)
    ensures Fine(p, id, m0, live, DoResume(p, id, l, rs).0)
  {
    AliveNone(l.d.threadIds, |l.d.threadIds|);
    assert Alive(l.d.threadIds, {}) == l.d.threadIds;
  }

  lemma ModeFine(p: Profile, id: int, m0: Model, live: bool, l: Local, mode: SessionMode, enabled: bool, rs: Readings)
    requires Fine(p, id, m0, live, l)
    ensures Fine(p, id, m0, live, DoSetMode(p, id, l, mode, enabled, rs).0)
  {
    if live && id in l.m {
      SweepLife(WithValue(l.m, id, l.m[id].value.(isPowerEfficient := enabled)), id, l.d, rs.first.dead, p.uclampMinOn);
    }
  }

  lemma TargetFine(p: Profile, id: int, m0: Model, live: bool, l: Local, ns: int)
    requires Fine(p, id, m0, live, l)
    ensures Fine(p, id, m0, live, DoUpdateTarget(p, id, l, ns).0)
  {
  }

  lemma CloseFine(p: Profile, id: int, m0: Model, live: bool, l: Local, rs: Readings)
    requires Fine(p, id, m0, live, l)
    ensures Fine(p, id, m0, live, DoClose(p, id, l, rs).0)
  {
  }

  lemma CallFine(p: Profile, id: int, m0: Model, live: bool, l: Local, call: Call, rs: Readings)
    requires Fine(p, id, m0, live, l) && Defined(p, l.d, call) && (live ==> KeepsLife(l.d, call))
    ensures Fine(p, id, m0, live, Do(p, id, l, call, rs).0)
  {
    hide Fine, DoPause, DoResume, DoClose, DoUpdateTarget, DoReport, DoSendHint, DoSetThreads, DoSetMode;
    match call
    case Pause => PauseFine(p, id, m0, live, l, rs);
    case Resume => ResumeFine(p, id, m0, live, l, rs);
    case Close => CloseFine(p, id, m0, live, l, rs);
    case UpdateTarget(ns) => TargetFine(p, id, m0, live, l, ns);
    case ReportActual(works, gpuFrequency) => ReportFine(p, id, m0, live, l, works, gpuFrequency, rs);
    case SendHint(hint) => HintFine(p, id, m0, live, l, hint, rs);
    case SetThreads(ids) => SetThreadsFine(p, id, m0, live, l, ids, rs);
    case SetMode(mode, enabled) => ModeFine(p, id, m0, live, l, mode, enabled, rs);
  }

  // ---------------------------------------------------------------------------------------------
  // Whole runs
  // ---------------------------------------------------------------------------------------------

  /** What every run keeps of each session; if `live`, also that the manager agrees with it. */
  ghost predicate SoundAt(p: Profile, s: System, id: int, live: bool)
    requires id in s.desc
  {
    && id <= s.lastId && (s.desc[id].closed ==> id !in s.model)
    && RangeOf(p, s.model, id, s.desc[id])
    && (live ==> LifeOf(s.model, id, s.desc[id]))
  }

  ghost predicate Sound(p: Profile, s: System, live: bool) {
    && (forall id :: id in s.model ==> id in s.desc)
    && (forall id :: id in s.desc ==> SoundAt(p, s, id, live))
  }

  predicate StepKeepsLife(s: System, op: Op) {
    op.Invoke? && op.id in s.desc ==> KeepsLife(s.desc[op.id], op.call)
  }

  /** No session is given threads while it is paused. */
  ghost predicate Orderly(p: Profile, s: System, ops: seq<Op>)
    requires Legal(p, s, ops)
    decreases |ops|
  {
    ops == [] || (StepKeepsLife(s, ops[0]) && Orderly(p, Next(p, s, ops[0]), ops[1..]))
  }

  /** A step that changes one session needs to be looked at for that session only. */
  lemma SoundElsewhere(p: Profile, s: System, s': System, id: int, live: bool)
    requires Sound(p, s, live) && SameBut(s.model, s'.model, id) && s.lastId <= s'.lastId
    requires id in s'.desc && s'.desc == s.desc[id := s'.desc[id]] && SoundAt(p, s', id, live)
    ensures Sound(p, s', live)
  {
    forall x | x in s'.desc ensures SoundAt(p, s', x, live) {
      if x != id {
        assert SoundAt(p, s, x, live);
      }
    }
  }

  lemma InvokeSound(p: Profile, s: System, op: Op, live: bool)
    requires Sound(p, s, live) && op.Invoke? && Enabled(p, s, op) && (live ==> StepKeepsLife(s, op))
    ensures Sound(p, Next(p, s, op), live)
  {
    hide Do, Defined;
    assert SoundAt(p, s, op.id, live);
    CallFine(p, op.id, s.model, live, LocalOf(s, op.id), op.call, op.readings);
    SoundElsewhere(p, s, Next(p, s, op), op.id, live);
  }

  lemma CreatedFine(p: Profile, id: int, m: Model, queue: seq<Protocol.Event>, kernel: Kernel, threadIds: seq<int>,
                    targetNs: int, isAppSession: bool, timeNow: int, r: Reading, rs: Readings)
    requires id !in m
    ensures var l := Created(p, id, m, queue, kernel, threadIds, targetNs, isAppSession, timeNow, r, rs);
            Fine(p, id, m, true, l) && id in l.m
  {
    var sv := SessionValue(0, true, isAppSession, false, Protocol.NewTable(timeNow, targetNs));
    var l0 := Local(AfterAdd(m, id, sv), queue, kernel,
                    Desc(false, true, threadIds, targetNs, 0, PidState(0, 0), false, []));
    var l := GiveThreads(p, id, l0, threadIds, Readings(r, rs.first, rs.first));
    assert Fine(p, id, m, true, l) by {
      AliveNone(threadIds, |threadIds|);
      assert Alive(threadIds, {}) == threadIds;
    }
    SetCpuVoteFine(p, id, m, true, l, CPU_LOAD_RESET, ToInt32(p.uclampMinLoadReset), rs.second,
                   p.halfStaleNs(targetNs));
    var l1 := SetCpuVote(p, id, l, CPU_LOAD_RESET, ToInt32(p.uclampMinLoadReset), rs.second, p.halfStaleNs(targetNs));
    SetCpuVoteFine(p, id, m, true, l1, CPU_VOTE_DEFAULT, ToInt32(p.uclampMinInit), rs.third, targetNs);
  }

  lemma CreateSound(p: Profile, s: System, op: Op, live: bool)
    requires Sound(p, s, live) && op.Create?
    ensures Sound(p, Next(p, s, op), live)
  {
    hide Created;
    var id := s.lastId + 1;
    assert id in s.desc ==> SoundAt(p, s, id, live);
    CreatedFine(p, id, s.model, s.queue, s.kernel, op.threadIds, op.targetNs, op.isAppSession, op.timeNow, op.first,
                op.readings);
    SoundElsewhere(p, s, Next(p, s, op), id, live);
  }

  lemma TimeoutSound(p: Profile, s: System, op: Op, live: bool)
    requires Sound(p, s, live) && op.Timeout? && Enabled(p, s, op)
    ensures Sound(p, Next(p, s, op), live)
  {
    var ev, s' := Package(s.queue[op.index]), Next(p, s, op);
    var id := ev.sessionId;
    if id in s.model {
      assert SoundAt(p, s, id, live);
      EventFine(p, LocalOf(s, id), ev, s.clock, op.dead, live);
      assert s'.desc == s.desc[id := s.desc[id]];
      SoundElsewhere(p, s, s', id, live);
    } else {
      assert forall x :: x in s.desc ==> SoundAt(p, s, x, live);
    }
  }

  lemma EventFine(p: Profile, l: Local, ev: SessionTimeout, tNow: int, dead: set<int>, live: bool)
    requires Fine(p, ev.sessionId, l.m, live, l) && ev.sessionId in l.m
    ensures Fine(p, ev.sessionId, l.m, live, l.(m := AfterEvent(l.m, ev, tNow, dead, p.uclampMinOn)))
    ensures ev.sessionId in AfterEvent(l.m, ev, tNow, dead, p.uclampMinOn)
  {
    var id := ev.sessionId;
    if live {
      SweepLife(WithVotes(l.m, id, l.m[id].value.votes.SetUse(ev.voteId, false)), id, l.d, dead, p.uclampMinOn);
    }
  }

  lemma StepSound(p: Profile, s: System, op: Op, live: bool)
    requires Sound(p, s, live) && Enabled(p, s, op) && (live ==> StepKeepsLife(s, op))
    ensures Sound(p, Next(p, s, op), live)
  {
    match op
    case Invoke(_, _, _) => InvokeSound(p, s, op, live);
    case Create(_, _, _, _, _, _) => CreateSound(p, s, op, live);
    case Timeout(_, _) => TimeoutSound(p, s, op, live);
    case Tick(_) => assert forall id :: id in s.desc ==> SoundAt(p, s, id, live);
  }

  lemma {:induction false} RunSound(p: Profile, s: System, ops: seq<Op>, live: bool)
    requires Sound(p, s, live) && Legal(p, s, ops) && (live ==> Orderly(p, s, ops))
    ensures Sound(p, Final(p, s, ops), live)
    decreases |ops|
  {
    if ops != [] {
      StepSound(p, s, ops[0], live);
      RunSound(p, Next(p, s, ops[0]), ops[1..], live);
    }
  }

  /** The manager agrees with every session: a closed one is gone, a paused one is inactive without
      threads, and an active one is active with its threads in order, but for some that have died. */
  ghost predicate AllAgree(s: System) {
    forall id :: id in s.desc ==> LifeOf(s.model, id, s.desc[id])
  }

  /** The manager agrees with every session before and after every step of the run. */
  ghost predicate AlwaysAgree(p: Profile, s: System, ops: seq<Op>)
    requires Legal(p, s, ops)
    decreases |ops|
  {
    AllAgree(s) && (ops == [] || AlwaysAgree(p, Next(p, s, ops[0]), ops[1..]))
  }

  lemma {:induction false} AgreementIff(p: Profile, s: System, ops: seq<Op>)
    requires Sound(p, s, true) && Legal(p, s, ops)
    ensures AlwaysAgree(p, s, ops) <==> Orderly(p, s, ops)
    decreases |ops|
  {
    assert forall id :: id in s.desc ==> SoundAt(p, s, id, true);
    if ops != [] {
      if StepKeepsLife(s, ops[0]) {
        StepSound(p, s, ops[0], true);
        AgreementIff(p, Next(p, s, ops[0]), ops[1..]);
      } else {
        DisorderlyStep(p, s, ops[0]);
      }
    }
  }

  lemma DisorderlyStep(p: Profile, s: System, op: Op)
    requires AllAgree(s) && Enabled(p, s, op) && !StepKeepsLife(s, op)
    ensures !AllAgree(Next(p, s, op))
  {
    hide LifeOf, DoSetThreads;
    SetThreadsKeepsLifeIff(p, op.id, LocalOf(s, op.id), op.call.ids, op.readings);
    var s' := Next(p, s, op);
    assert !LifeOf(s'.model, op.id, s'.desc[op.id]);
  }

  /** The manager agrees with every session at every point of exactly the runs in which no paused
      session is given threads. */
  lemma SessionsAgreeWithManager(p: Profile, clock: int, ops: seq<Op>)
    requires Legal(p, Initial(clock), ops)
    ensures AlwaysAgree(p, Initial(clock), ops) <==> Orderly(p, Initial(clock), ops)
  {
    AgreementIff(p, Initial(clock), ops);
  }

  /** Giving threads to an open session keeps the agreement exactly if the session is active, or the
      list is empty and the call refused. */
  lemma SetThreadsKeepsLifeIff(p: Profile, id: int, l: Local, ids: seq<int>, rs: Readings)
    requires LifeOf(l.m, id, l.d)
    ensures var l' := DoSetThreads(p, id, l, ids, rs).0;
            LifeOf(l'.m, id, l'.d) <==> l.d.closed || ids == [] || l.d.isActive
  {
    if !l.d.closed && ids != [] {
      var l1 := GiveThreads(p, id, l.(d := l.d.(threadIds := ids)), ids, rs);
      if l.d.isActive {
        AliveNone(ids, |ids|);
        assert Alive(ids, {}) == ids;
        SetPidLife(p, id, l1, ToInt32(p.uclampMinInit), rs.third);
      }
    }
  }

  lemma SetPidLife(p: Profile, id: int, l: Local, v: int, r: Reading)
    requires LifeOf(l.m, id, l.d)
    ensures LifeOf(SetPid(p, id, l, v, r).m, id, l.d)
  {
    var vote := Protocol.Cpu(CpuVote(VoteRange(true, r.now, PidVoteNs(p, l.d.targetNs)), UclampRange(v, UCLAMP_MAX)));
    SweepLife(AfterVote(l.m, id, CPU_VOTE_DEFAULT, vote), id, l.d, r.dead, p.uclampMinOn);
  }

  /** In every run, ordered or not: with configured values in range, the control variable of every
      session and every CPU vote the manager stores stay in range; GPU votes stay within their limits;
      and with its bounds in order, the integral is within them or still zero as it started. */
  lemma ValuesStayInRange(p: Profile, clock: int, ops: seq<Op>, id: int)
    requires Legal(p, Initial(clock), ops)
    requires id in Final(p, Initial(clock), ops).desc
    ensures var s := Final(p, Initial(clock), ops); RangeOf(p, s.model, id, s.desc[id])
  {
    RunSound(p, Initial(clock), ops, false);
    assert SoundAt(p, Final(p, Initial(clock), ops), id, false);
  }

  /** For a control variable in range the conversion to unsigned in the reset hint changes nothing. */
  lemma ResetCastIsExact(p: Profile, m: Model, id: int, d: Desc)
    requires p.InRange() && RangeOf(p, m, id, d)
    ensures ToInt32(Max(p.uclampMinInit, ToUint32(d.pidControlVariable))) == Max(p.uclampMinInit, d.pidControlVariable)
  {
  }

  /** Every call on a closed session is refused and changes nothing. */
  lemma ClosedRefuses(p: Profile, id: int, l: Local, call: Call, rs: Readings)
    requires l.d.closed
    ensures Do(p, id, l, call, rs) == (l, IllegalState)
  {
  }

  /** Once closed, a session never comes back: no call, new session or queued event brings its id
      back into the manager. */
  lemma {:induction false} ClosedForever(p: Profile, s: System, ops: seq<Op>, id: int)
    requires Sound(p, s, false) && id in s.desc && s.desc[id].closed && Legal(p, s, ops)
    ensures var s' := Final(p, s, ops); id in s'.desc && s'.desc[id] == s.desc[id] && id !in s'.model
    decreases |ops|
  {
    if ops == [] {
      assert SoundAt(p, s, id, false);
    } else {
      var op := ops[0];
      StepSound(p, s, op, false);
      ClosedStep(p, s, op, id);
      ClosedForever(p, Next(p, s, op), ops[1..], id);
    }
  }

  lemma ClosedStep(p: Profile, s: System, op: Op, id: int)
    requires Sound(p, s, false) && id in s.desc && s.desc[id].closed && Enabled(p, s, op)
    ensures id in Next(p, s, op).desc && Next(p, s, op).desc[id] == s.desc[id]
  {
    hide Do, Created, Defined;
    assert SoundAt(p, s, id, false);
    if op.Invoke? && op.id == id {
      ClosedRefuses(p, id, LocalOf(s, id), op.call, op.readings);
    }
  }

  /** Pausing and resuming a session gives it back as it was, but for the threads found dead on the
      way: its votes, its mode and its descriptor are the same. */
  lemma PauseThenResume(p: Profile, id: int, l: Local, rs: Readings, rs': Readings)
    requires LifeOf(l.m, id, l.d) && !l.d.closed && l.d.isActive
    ensures var paused := DoPause(p, id, l, rs).0;
            var resumed := DoResume(p, id, paused, rs').0;
            var tasks := if p.uclampMinOn then Alive(l.d.threadIds, rs'.second.dead) else l.d.threadIds;
            && DoPause(p, id, l, rs).1 == Ok && DoResume(p, id, paused, rs').1 == Ok
            && resumed.m == WithTasks(l.m, id, tasks) && resumed.queue == l.queue && resumed.d == l.d
  {
    hide ApplyBoth, KernelAfterSetThreads, Alive, LifeOf;
    assert id in l.m && l.m[id].value.isActive by { LifeMeans(l.m, id, l.d); }
    PauseResult(p, id, l, rs);
    ResumeResult(p, id, DoPause(p, id, l, rs).0, rs');
    hide DoPause, DoResume;
  }

  lemma LifeMeans(m: Model, id: int, d: Desc)
    requires LifeOf(m, id, d) && !d.closed
    ensures id in m && m[id].value.isActive == d.isActive
  {
  }

  lemma PauseResult(p: Profile, id: int, l: Local, rs: Readings)
    requires id in l.m && !l.d.closed && l.d.isActive
    ensures var (l', status) := DoPause(p, id, l, rs);
            && status == Ok && l'.queue == l.queue && l'.d == l.d.(isActive := false)
            && l'.m == l.m[id := Session(l.m[id].value.(isActive := false), [])]
  {
    hide ApplyBoth, KernelAfterSetThreads;
    NoneAlive(rs.second.dead);
    NoneAlive(rs.third.dead);
  }

  lemma NoneAlive(dead: set<int>)
    ensures Alive([], dead) == []
  {
  }

  lemma ResumeResult(p: Profile, id: int, l: Local, rs: Readings)
    requires id in l.m && !l.d.closed && !l.d.isActive
    ensures var (l', status) := DoResume(p, id, l, rs);
            var tasks := if p.uclampMinOn then Alive(l.d.threadIds, rs.second.dead) else l.d.threadIds;
            && status == Ok && l'.queue == l.queue && l'.d == l.d.(isActive := true)
            && l'.m == l.m[id := Session(l.m[id].value.(isActive := true), tasks)]
  {
    hide ApplyBoth, KernelAfterSetThreads, Alive;
  }

  /** What new threads do to a paused session: the call succeeds, and the session is active in the
      manager while it is paused for itself. */
  lemma PausedSessionReactivated(p: Profile, id: int, l: Local, ids: seq<int>, rs: Readings)
    requires LifeOf(l.m, id, l.d) && !l.d.closed && !l.d.isActive && ids != []
    ensures var (l', status) := DoSetThreads(p, id, l, ids, rs);
            status == Ok && id in l'.m && l'.m[id].value.isActive && !l'.d.isActive
  {
  }

  /** Such a session is easily come by: create one and pause it. */
  lemma PausedSessionReachable(p: Profile, r: Reading, rs: Readings)
    ensures
      var s1 := Next(p, Initial(0), Create([1], 1, true, 0, r, rs));
      var s2 := Next(p, s1, Invoke(1, Pause, rs));
      LifeOf(s2.model, 1, s2.desc[1]) && !s2.desc[1].closed && !s2.desc[1].isActive
  {
    hide SetVote, AfterSetThreads, KernelAfterSetThreads, ApplyBoth, ApplyTo, LifeOf;
    var s1 := Next(p, Initial(0), Create([1], 1, true, 0, r, rs));
    CreatedFine(p, 1, map[], [], Kernel(map[], {}, 0), [1], 1, true, 0, r, rs);
    PauseFine(p, 1, map[], true, LocalOf(s1, 1), rs);
  }

  // ---------------------------------------------------------------------------------------------
  // The heuristic boost
  // ---------------------------------------------------------------------------------------------

  /** The step is a report of session `id` that is accepted and goes into its records. */
  predicate Records(p: Profile, s: System, op: Op, id: int) {
    && op.Invoke? && op.id == id && op.call.ReportActual? && id in s.desc
    && Accepts(s.desc[id], op.call.works) && p.pidOn && p.boost.Some?
  }

  /** All reports of the session so far, each with the target that applied to it. */
  function ReportsOf(s: System, id: int): seq<Report> {
    if id in s.desc then s.desc[id].reports else []
  }

  predicate BoostOf(s: System, id: int) {
    id in s.desc && s.desc[id].boostActive
  }

  function BatchOf(s: System, op: Op, id: int): seq<Report> {
    if op.Invoke? && op.call.ReportActual? && id in s.desc then Batch(op.call.works, s.desc[id].targetNs) else []
  }

  /** The verdict on the statistics of all reports, the new ones included. */
  function VerdictOf(p: Profile, s: System, op: Op, id: int): Verdict
    requires Enabled(p, s, op) && Records(p, s, op, id)
  {
    var cfg := p.boost.value;
    Judge(cfg, History(cfg.maxRecords, cfg.isJank, ReportsOf(s, id) + BatchOf(s, op, id)))
  }

  /** The reports that a run adds to the session's records, in order. */
  ghost function ReportsIn(p: Profile, s: System, ops: seq<Op>, id: int): seq<Report>
    requires Legal(p, s, ops)
    decreases |ops|
  {
    if ops == [] then []
    else (if Records(p, s, ops[0], id) then BatchOf(s, ops[0], id) else []) +
         ReportsIn(p, Next(p, s, ops[0]), ops[1..], id)
  }

  /** The verdicts on them, one for each accepted batch. */
  ghost function VerdictsIn(p: Profile, s: System, ops: seq<Op>, id: int): seq<Verdict>
    requires Legal(p, s, ops)
    decreases |ops|
  {
    if ops == [] then []
    else (if Records(p, s, ops[0], id) then [VerdictOf(p, s, ops[0], id)] else []) +
         VerdictsIn(p, Next(p, s, ops[0]), ops[1..], id)
  }

  /** What a call leaves of the records and the switch of its session. */
  lemma CallRecords(p: Profile, id: int, l: Local, call: Call, rs: Readings)
    requires Defined(p, l.d, call)
    ensures var d := Do(p, id, l, call, rs).0.d;
            if call.ReportActual? && Accepts(l.d, call.works) && p.pidOn then
              && d.reports == Recorded(p, l.d, call.works).reports
              && d.boostActive == Recorded(p, l.d, call.works).boostActive
            else d.reports == l.d.reports && d.boostActive == l.d.boostActive
  {
    hide AfterSetThreads, KernelAfterSetThreads, ApplyBoth, ApplyTo, SweepModel, AfterVote, EventsOfVote, AfterDisable,
         Judge, History, Average, Controlled, NextMin, GpuVoteOf, To100us;
  }

  lemma BoostStep(p: Profile, s: System, op: Op, id: int)
    requires Sound(p, s, false) && Enabled(p, s, op)
    ensures var s' := Next(p, s, op);
            if Records(p, s, op, id) then
              ReportsOf(s', id) == ReportsOf(s, id) + BatchOf(s, op, id) &&
              BoostOf(s', id) == Apply(VerdictOf(p, s, op, id), BoostOf(s, id))
            else ReportsOf(s', id) == ReportsOf(s, id) && BoostOf(s', id) == BoostOf(s, id)
  {
    hide Do, Created, Judge, History, ArithmeticDefined;
    match op
    case Invoke(i, call, rs) =>
      CallRecords(p, i, LocalOf(s, i), call, rs);
    case Create(threadIds, targetNs, isAppSession, timeNow, first, rs) =>
      var i := s.lastId + 1;
      assert i in s.desc ==> SoundAt(p, s, i, false);
      CreatedRecords(p, i, s.model, s.queue, s.kernel, threadIds, targetNs, isAppSession, timeNow, first, rs);
    case _ =>
  }

  lemma CreatedRecords(p: Profile, id: int, m: Model, queue: seq<Protocol.Event>, kernel: Kernel, threadIds: seq<int>,
                       targetNs: int, isAppSession: bool, timeNow: int, r: Reading, rs: Readings)
    ensures var d := Created(p, id, m, queue, kernel, threadIds, targetNs, isAppSession, timeNow, r, rs).d;
            d.reports == [] && !d.boostActive
  {
  }

  lemma {:induction false} BoostIsFold(p: Profile, s: System, ops: seq<Op>, id: int)
    requires Sound(p, s, false) && Legal(p, s, ops)
    ensures var s' := Final(p, s, ops);
            && ReportsOf(s', id) == ReportsOf(s, id) + ReportsIn(p, s, ops, id)
            && BoostOf(s', id) == ActiveAfter(VerdictsIn(p, s, ops, id), BoostOf(s, id))
    decreases |ops|
  {
    hide *;
    if ops == [] {
      EmptyRun(p, s, id);
      assert ReportsOf(s, id) + [] == ReportsOf(s, id);
    } else {
      FirstOfRun(p, s, ops, id);
      var op, s1, rest := ops[0], Next(p, s, ops[0]), ops[1..];
      StepSound(p, s, op, false);
      BoostIsFold(p, s1, rest, id);
      BoostStep(p, s, op, id);
      if Records(p, s, op, id) {
        FirstVerdictFirst(VerdictOf(p, s, op, id), VerdictsIn(p, s1, rest, id), BoostOf(s, id));
        var a, b, c := ReportsOf(s, id), BatchOf(s, op, id), ReportsIn(p, s1, rest, id);
        assert (a + b) + c == a + (b + c);
      }
    }
  }

  lemma EmptyRun(p: Profile, s: System, id: int)
    ensures Legal(p, s, []) && Final(p, s, []) == s && ReportsIn(p, s, [], id) == []
    ensures forall active :: ActiveAfter(VerdictsIn(p, s, [], id), active) == active
  {
  }

  lemma FirstOfRun(p: Profile, s: System, ops: seq<Op>, id: int)
    requires Legal(p, s, ops) && ops != []
    ensures var op, s1, rest := ops[0], Next(p, s, ops[0]), ops[1..];
            && Enabled(p, s, op) && Legal(p, s1, rest) && Final(p, s, ops) == Final(p, s1, rest)
            && VerdictsIn(p, s, ops, id) ==
               (if Records(p, s, op, id) then [VerdictOf(p, s, op, id)] + VerdictsIn(p, s1, rest, id)
                else VerdictsIn(p, s1, rest, id))
            && ReportsIn(p, s, ops, id) ==
               (if Records(p, s, op, id) then BatchOf(s, op, id) + ReportsIn(p, s1, rest, id)
                else ReportsIn(p, s1, rest, id))
  {
    hide Next, VerdictOf, BatchOf, Records;
  }

  /** In every run, with whatever targets, a session's boost is on exactly if some verdict on the plain
      statistics of all its accepted reports has turned it on and none since has turned it off. */
  lemma BoostFollowsVerdicts(p: Profile, clock: int, ops: seq<Op>, id: int)
    requires Legal(p, Initial(clock), ops)
    ensures var s := Final(p, Initial(clock), ops);
            var vs := VerdictsIn(p, Initial(clock), ops, id);
            && ReportsOf(s, id) == ReportsIn(p, Initial(clock), ops, id)
            && (BoostOf(s, id) <==> exists j :: 0 <= j < |vs| && vs[j] == On && Off !in vs[j..])
  {
    BoostIsFold(p, Initial(clock), ops, id);
    LastVerdictDecides(VerdictsIn(p, Initial(clock), ops, id), false);
  }
}
