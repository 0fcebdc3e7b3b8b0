/** What each call of a hint session does to the session's descriptor, to the manager's sessions and
    to the timeout queue (PowerHintSession.cpp). */
module HintSession {
  import opened Arith
  import opened UclampVoter
  import opened ThreadSweep
  import opened SessionTaskMap
  import opened SessionRecords
  import opened PidControl
  import opened GpuCapacity
  import opened HeuristicBoost
  import opened SessionModel
  import opened ThreadFloors
  import Protocol = TimeoutProtocol

  /** The ADPF profile. The products of a duration with a floating-point factor are functions. */
  datatype Profile = Profile(
    uclampMinOn: bool, pidOn: bool,
    uclampMinInit: nat, uclampMinHigh: nat, uclampMinLow: nat, uclampMinLoadUp: nat, uclampMinLoadReset: nat,
    pid: PidConfig, pidPu: real, boost: Option<BoostConfig>,
    reportingRateLimitNs: int, scaleTarget: int -> int, staleNs: int -> int, halfStaleNs: int -> int,
    gpuBoostOn: bool, gpuCapacityMax: Option<nat>, gpuLoadUpHeadroom: nat,
    gpuNodeOn: bool)  // GPU votes reach the node: there is one, and the GPU boost setting is present
  {
    predicate Valid() {
      boost.Some? ==> boost.value.maxRecords > 0
    }

    /** Every configured uclamp value is one the kernel knows. */
    predicate InRange() {
      && uclampMinInit <= UCLAMP_MAX && uclampMinHigh <= UCLAMP_MAX && uclampMinLow <= UCLAMP_MAX
      && uclampMinLoadUp <= UCLAMP_MAX && uclampMinLoadReset <= UCLAMP_MAX
      && (boost.Some? ==> 0 <= boost.value.uclampMin <= UCLAMP_MAX)
    }

    function GpuLimit(): nat { if gpuCapacityMax.Some? then gpuCapacityMax.value else 0 }
  }

  /** What a session knows of itself. */
  datatype Desc = Desc(
    closed: bool, isActive: bool, threadIds: seq<int>, targetNs: int,
    pidControlVariable: int, pidState: PidState, boostActive: bool, reports: seq<Report>)

  datatype SessionHint =
    CpuLoadUp | CpuLoadDown | CpuLoadReset | CpuLoadResume | GpuLoadUp | GpuLoadDown | GpuLoadReset | UnknownHint

  datatype SessionMode = PowerEfficiency | UnknownMode

  datatype Status = Ok | IllegalState | IllegalArgument

  /** A reading of the clock, and the threads that the scheduler then reports as dead. */
  datatype Reading = Reading(now: int, dead: set<int>)

  datatype Readings = Readings(first: Reading, second: Reading, third: Reading)

  datatype Call =
    | Pause
    | Resume
    | Close
    | UpdateTarget(targetDurationNanos: int)
    | ReportActual(works: seq<WorkDuration>, gpuFrequency: Option<int>)
    | SendHint(hint: SessionHint)
    | SetThreads(ids: seq<int>)
    | SetMode(mode: SessionMode, enabled: bool)

  /** The manager as one session's call sees it, and that session's descriptor. */
  datatype Local = Local(m: Model, queue: seq<Protocol.Event>, kernel: Kernel, d: Desc)

  // ---------------------------------------------------------------------------------------------
  // The calls
  // ---------------------------------------------------------------------------------------------

  ghost function SetVote(id: int, l: Local, voteId: int, vote: Protocol.Vote, dead: set<int>, on: bool,
                         gpuOn: bool): Local {
    var m := AfterVote(l.m, id, voteId, vote);
    l.(m := SweepModel(m, id, dead, on), queue := l.queue + EventsOfVote(l.m, id, voteId, vote),
       kernel := ApplyBoth(l.kernel, m, id, Protocol.TimingOf(vote).startTime, dead, on, gpuOn))
  }

  ghost function SetCpuVote(p: Profile, id: int, l: Local, voteId: int, uclampMin: int, r: Reading,
                            durationNs: int): Local {
    SetVote(id, l, voteId,
            Protocol.Cpu(CpuVote(VoteRange(true, r.now, durationNs), UclampRange(uclampMin, UCLAMP_MAX))),
            r.dead, p.uclampMinOn, false)
  }

  ghost function SetGpuVote(p: Profile, id: int, l: Local, voteId: int, capacity: int, r: Reading,
                            durationNs: int): Local {
    SetVote(id, l, voteId, Protocol.Gpu(GpuVote(VoteRange(true, r.now, durationNs), capacity)), {}, false, p.gpuNodeOn)
  }

  /** How long a vote for the control variable lasts: long enough for both settings. */
  function PidVoteNs(p: Profile, targetNs: int): (ns: int)
    ensures p.staleNs(targetNs) <= ns && 2 * p.reportingRateLimitNs <= ns
    ensures ns == p.staleNs(targetNs) || ns == 2 * p.reportingRateLimitNs
  {
    Max(p.staleNs(targetNs), p.reportingRateLimitNs * 2)
  }

  /** Sets the control variable and votes for it. */
  ghost function SetPid(p: Profile, id: int, l: Local, v: int, r: Reading): (l': Local)
    ensures l'.d == l.d.(pidControlVariable := v)
  {
    SetCpuVote(p, id, l.(d := l.d.(pidControlVariable := v)), CPU_VOTE_DEFAULT, v, r, PidVoteNs(p, l.d.targetNs))
  }

  /** Gives the session new threads and makes it active. */
  ghost function GiveThreads(p: Profile, id: int, l: Local, ids: seq<int>, rs: Readings): Local {
    l.(m := AfterSetThreads(l.m, id, ids, rs.second.dead, p.uclampMinOn),
       kernel := KernelAfterSetThreads(l.kernel, l.m, id, ids, rs.first.now, rs.second.now, rs.first.dead,
                                       rs.second.dead, p.uclampMinOn, p.gpuNodeOn))
  }

  /** Makes the session active or inactive, if it is not already. */
  ghost function Activate(p: Profile, id: int, l: Local, active: bool, r: Reading): Local {
    if id in l.m && l.m[id].value.isActive != active then
      var m := WithActive(l.m, id, active);
      l.(m := SweepModel(m, id, r.dead, p.uclampMinOn),
         kernel := ApplyBoth(l.kernel, m, id, r.now, r.dead, p.uclampMinOn, p.gpuNodeOn))
    else l
  }

  ghost function DoPause(p: Profile, id: int, l: Local, rs: Readings): (Local, Status) {
    if l.d.closed || !l.d.isActive then (l, IllegalState)
    else
      var l1 := GiveThreads(p, id, l, [], rs);
      (Activate(p, id, l1.(d := l1.d.(isActive := false)), false, rs.third), Ok)
  }

  ghost function DoResume(p: Profile, id: int, l: Local, rs: Readings): (Local, Status) {
    if l.d.closed || l.d.isActive then (l, IllegalState)
    else
      var l1 := GiveThreads(p, id, l, l.d.threadIds, rs);
      (Activate(p, id, l1.(d := l1.d.(isActive := true)), true, rs.third), Ok)
  }

  ghost function DoClose(p: Profile, id: int, l: Local, rs: Readings): (Local, Status) {
    if l.d.closed then (l, IllegalState)
    else (l.(d := l.d.(closed := true, isActive := false), m := l.m - {id},
             kernel := ApplyBoth(l.kernel, WithActive(l.m, id, false), id, rs.first.now, rs.first.dead, p.uclampMinOn,
                                 p.gpuNodeOn)), Ok)
  }

  ghost function DoUpdateTarget(p: Profile, id: int, l: Local, targetDurationNanos: int): (Local, Status) {
    if l.d.closed then (l, IllegalState)
    else if targetDurationNanos <= 0 then (l, IllegalArgument)
    else
      var target := p.scaleTarget(targetDurationNanos);
      (l.(d := l.d.(targetNs := target), m := AfterDuration(l.m, id, target)), Ok)
  }

  function AfterDuration(m: Model, id: int, durationNs: int): Model {
    if id in m then WithVotes(m, id, m[id].value.votes.WithDuration(CPU_VOTE_DEFAULT, durationNs)) else m
  }

  function AfterDisable(m: Model, id: int): Model {
    if id in m then WithVotes(m, id, m[id].value.votes.DisableAll(BOOST_VOTES)) else m
  }

  ghost function DoSetThreads(p: Profile, id: int, l: Local, ids: seq<int>, rs: Readings): (Local, Status) {
    if l.d.closed then (l, IllegalState)
    else if ids == [] then (l, IllegalArgument)
    else
      var l' := GiveThreads(p, id, l.(d := l.d.(threadIds := ids)), ids, rs);
      (SetPid(p, id, l', ToInt32(p.uclampMinInit), rs.third), Ok)
  }

  ghost function Prefer(p: Profile, id: int, l: Local, enabled: bool, r: Reading): Local {
    if id in l.m && l.m[id].value.isPowerEfficient != enabled then
      var m := WithValue(l.m, id, l.m[id].value.(isPowerEfficient := enabled));
      l.(m := SweepModel(m, id, r.dead, p.uclampMinOn),
         kernel := ApplyTo(l.kernel, m, id, r.now, r.dead, p.uclampMinOn))
    else l
  }

  ghost function DoSetMode(p: Profile, id: int, l: Local, mode: SessionMode, enabled: bool,
                           rs: Readings): (Local, Status) {
    if l.d.closed then (l, IllegalState)
    else if mode.UnknownMode? then (l, IllegalArgument)
    else (Prefer(p, id, l, enabled, rs.first), Ok)
  }

  ghost function DoSendHint(p: Profile, id: int, l: Local, hint: SessionHint, rs: Readings): (Local, Status) {
    var target, pid := l.d.targetNs, l.d.pidControlVariable;
    if l.d.closed || target == 0 then (l, IllegalState)
    else
      match hint
      case CpuLoadUp =>
        (SetCpuVote(p, id, SetPid(p, id, l, pid, rs.first), CPU_LOAD_UP, ToInt32(p.uclampMinLoadUp), rs.second,
                    target * 2), Ok)
      case CpuLoadDown => (SetPid(p, id, l, ToInt32(p.uclampMinLow), rs.first), Ok)
      case CpuLoadReset =>
        var pid' := ToInt32(Max(p.uclampMinInit, ToUint32(pid)));
        (SetCpuVote(p, id, l.(d := l.d.(pidControlVariable := pid')), CPU_LOAD_RESET, ToInt32(p.uclampMinLoadReset),
                    rs.first, p.halfStaleNs(target)), Ok)
      case CpuLoadResume => (SetCpuVote(p, id, l, CPU_LOAD_RESUME, pid, rs.first, p.halfStaleNs(target)), Ok)
      case GpuLoadUp => (SetGpuVote(p, id, l, GPU_LOAD_UP, p.gpuLoadUpHeadroom, rs.first, target), Ok)
      case GpuLoadDown => (l, Ok)
      case GpuLoadReset => (l, Ok)
      case UnknownHint => (l, IllegalArgument)
  }

  // ---------------------------------------------------------------------------------------------
  // Reporting durations
  // ---------------------------------------------------------------------------------------------

  function Durations(works: seq<WorkDuration>): (r: seq<int>)
    ensures |r| == |works|
  {
    seq(|works|, i requires 0 <= i < |works| => works[i].durationNanos)
  }

  /** The session takes the report: it is open, has a target and is active, and the batch is not empty. */
  predicate Accepts(d: Desc, works: seq<WorkDuration>) {
    !d.closed && d.targetNs != 0 && works != [] && d.isActive
  }

  /** Either the report is refused before anything is computed, or its arithmetic is defined. */
  predicate ReportDefined(p: Profile, d: Desc, works: seq<WorkDuration>, gpuFrequency: Option<int>) {
    Accepts(d, works) ==>
      ArithmeticDefined(p, d, works) && (p.pidOn ==> GpuDefined(p, works, d.targetNs, gpuFrequency))
  }

  /** The arithmetic of the controller is defined: a target of at least one of its units, and an average
      duration to divide by where it is used. */
  predicate ArithmeticDefined(p: Profile, d: Desc, works: seq<WorkDuration>)
    ensures ArithmeticDefined(p, d, works) && works != [] && p.pidOn ==> To100us(d.targetNs) != 0
  {
    works != [] && p.pidOn ==>
      && To100us(d.targetNs) != 0
      && (p.boost.Some? ==>
            p.boost.value.maxRecords > 0 &&
            Average(History(p.boost.value.maxRecords, p.boost.value.isJank, d.reports + Batch(works, d.targetNs)),
                    p.boost.value.maxRecords) != 0)
  }

  /** The GPU vote, if one is cast, is defined. */
  predicate GpuDefined(p: Profile, works: seq<WorkDuration>, targetNs: int, gpuFrequency: Option<int>) {
    UsesGpu(p, works) && gpuFrequency.Some? ==> CapacityDefined(works[|works| - 1], targetNs)
  }

  predicate CapacityDefined(w: WorkDuration, targetNs: int) {
    Expands(w.durationNanos, w.cpuDurationNanos, w.gpuDurationNanos, targetNs) ==>
      w.cpuDurationNanos + w.gpuDurationNanos != 0
  }

  predicate UsesGpu(p: Profile, works: seq<WorkDuration>) {
    works != [] && p.gpuBoostOn && p.gpuCapacityMax.Some? && works[|works| - 1].gpuDurationNanos != 0
  }

  /** The records and the switch of the heuristic boost after a batch. */
  function Recorded(p: Profile, d: Desc, works: seq<WorkDuration>): (d': Desc)
    requires works != [] && p.pidOn && ArithmeticDefined(p, d, works)
    ensures d'.targetNs == d.targetNs
  {
    if p.boost.None? then d
    else
      var cfg := p.boost.value;
      var reports := d.reports + Batch(works, d.targetNs);
      d.(reports := reports,
         boostActive := Apply(Judge(cfg, History(cfg.maxRecords, cfg.isJank, reports)), d.boostActive))
  }

  function PidPu(p: Profile, active: bool): real {
    if p.boost.Some? && active then Times(p.pidPu, p.boost.value.pidPuFactor) else p.pidPu
  }

  function Ceiling(p: Profile, active: bool): int {
    ToInt32(if p.boost.Some? && active then p.boost.value.uclampMin else p.uclampMinHigh)
  }

  /** The next control variable: the old one moved by the output, between floor and ceiling. */
  function NextMin(p: Profile, d: Desc, output: int): int {
    var wanted := ToInt32(d.pidControlVariable + ToInt32(output));
    Max(ToInt32(p.uclampMinLow), Min(Ceiling(p, d.boostActive), wanted))
  }

  /** The controller's state and output for a batch. */
  function Controlled(p: Profile, d: Desc, works: seq<WorkDuration>): (PidState, int)
    requires works != [] && To100us(d.targetNs) != 0
  {
    var dt := To100us(d.targetNs);
    var errs := Errors(Durations(works), d.targetNs);
    var st := StateAfter(p.pid, errs, dt, d.pidState);
    (st, Output(p.pid, PidPu(p, d.boostActive), |works|, dt, TermsOf(p.pid, errs, d.pidState), st.integralError))
  }

  function GpuVoteOf(p: Profile, work: WorkDuration, targetNs: int, frequency: int): int
    requires CapacityDefined(work, targetNs)
  {
    var capacity := CalculateCapacity(work.durationNanos, work.cpuDurationNanos, work.gpuDurationNanos, targetNs,
                                      frequency);
    Max(0, Min(p.GpuLimit(), capacity))
  }

  ghost function ReportGpu(p: Profile, id: int, l: Local, works: seq<WorkDuration>, gpuFrequency: Option<int>,
                           r: Reading): Local
    requires works != [] && GpuDefined(p, works, l.d.targetNs, gpuFrequency)
  {
    if !UsesGpu(p, works) || gpuFrequency.None? then l
    else
      var capacity := GpuVoteOf(p, works[|works| - 1], l.d.targetNs, gpuFrequency.value);
      SetGpuVote(p, id, l, GPU_CAPACITY, capacity, r, p.staleNs(l.d.targetNs))
  }

  /** The controller moves the control variable, and the new value becomes the session's vote. */
  ghost function ReportPid(p: Profile, id: int, l: Local, works: seq<WorkDuration>, r: Reading): (l': Local)
    requires works != [] && To100us(l.d.targetNs) != 0
    ensures l'.d.targetNs == l.d.targetNs
  {
    var c := Controlled(p, l.d, works);
    SetPid(p, id, l.(d := l.d.(pidState := c.0)), NextMin(p, l.d, c.1), r)
  }

  ghost function DoReport(p: Profile, id: int, l: Local, works: seq<WorkDuration>, gpuFrequency: Option<int>,
                          rs: Readings): (Local, Status)
    requires ReportDefined(p, l.d, works, gpuFrequency)
  {
    if l.d.closed || l.d.targetNs == 0 then (l, IllegalState)
    else if works == [] then (l, IllegalArgument)
    else if !l.d.isActive then (l, IllegalState)
    else
      var l1 := l.(m := AfterDisable(l.m, id));
      if !p.pidOn then (SetPid(p, id, l1, ToInt32(p.uclampMinHigh), rs.first), Ok)
      else
        var l2 := ReportPid(p, id, l1.(d := Recorded(p, l.d, works)), works, rs.first);
        (ReportGpu(p, id, l2, works, gpuFrequency, rs.second), Ok)
  }

  predicate Defined(p: Profile, d: Desc, call: Call) {
    call.ReportActual? ==> ReportDefined(p, d, call.works, call.gpuFrequency)
  }

  ghost function Do(p: Profile, id: int, l: Local, call: Call, rs: Readings): (Local, Status)
    requires Defined(p, l.d, call)
  {
    match call
    case Pause => DoPause(p, id, l, rs)
    case Resume => DoResume(p, id, l, rs)
    case Close => DoClose(p, id, l, rs)
    case UpdateTarget(ns) => DoUpdateTarget(p, id, l, ns)
    case ReportActual(works, gpuFrequency) => DoReport(p, id, l, works, gpuFrequency, rs)
    case SendHint(hint) => DoSendHint(p, id, l, hint, rs)
    case SetThreads(ids) => DoSetThreads(p, id, l, ids, rs)
    case SetMode(mode, enabled) => DoSetMode(p, id, l, mode, enabled, rs)
  }

  /** The manager once a new session has been added, has its threads and its first votes. */
  ghost function Created(p: Profile, id: int, m: Model, queue: seq<Protocol.Event>, kernel: Kernel, threadIds: seq<int>,
                         targetNs: int, isAppSession: bool, timeNow: int, r: Reading, rs: Readings): Local
  {
    var sv := SessionValue(0, true, isAppSession, false, Protocol.NewTable(timeNow, targetNs));
    var l := Local(AfterAdd(m, id, sv), queue, kernel,
                   Desc(false, true, threadIds, targetNs, 0, PidState(0, 0), false, []));
    var l1 := GiveThreads(p, id, l, threadIds, Readings(r, rs.first, rs.first));
    var l2 := SetCpuVote(p, id, l1, CPU_LOAD_RESET, ToInt32(p.uclampMinLoadReset), rs.second, p.halfStaleNs(targetNs));
    SetCpuVote(p, id, l2, CPU_VOTE_DEFAULT, ToInt32(p.uclampMinInit), rs.third, targetNs)
  }
}
