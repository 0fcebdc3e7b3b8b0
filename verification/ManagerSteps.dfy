/** The operations of the manager behind the calls of the hint sessions, one at a time. Each changes one
    session and then, as the code does, applies the votes to that session's threads, to the GPU node, to
    both or to neither. */
module ManagerSteps {
  import opened Arith
  import opened UclampVoter
  import opened ThreadSweep
  import opened SessionTaskMap
  import opened SessionRecords
  import opened PidControl
  import opened SessionModel
  import opened ThreadFloors
  import opened HintSession
  import opened SessionSystem
  import Protocol = TimeoutProtocol

  datatype Act =
    | Advance(time: int)
    | Add(id: int, sv: SessionValue)
    | CastCpu(id: int, voteId: int, cpu: CpuVote, dead: set<int>)
    | Recast(id: int, cpu: CpuVote, dead: set<int>)   // boosts off and, in the same call, the default vote cast
    | CastGpu(id: int, voteId: int, gpu: GpuVote)
    | Retime(id: int, durationNs: int)
    | SetActive(id: int, active: bool, t: int, dead: set<int>)
    | SetPreference(id: int, enabled: bool, t: int, dead: set<int>)
    | SetTasks(id: int, ids: seq<int>)
    | Drop(id: int)
    | EndVote(id: int, voteId: int, t: int, dead: set<int>)

  /** The clock, the sessions, and what has been applied. */
  datatype Core = Core(clock: int, m: Model, k: Kernel)

  /** The operation applies the votes to the session's threads. */
  predicate OnCpu(act: Act) {
    act.CastCpu? || act.Recast? || act.SetActive? || act.SetPreference? || act.EndVote?
  }

  /** The operation applies the votes to the GPU node. */
  predicate OnGpu(act: Act) {
    act.CastGpu? || act.SetActive? || act.EndVote?
  }

  function SessionOf(act: Act): int {
    if act.Advance? then 0 else act.id
  }

  /** The clock reading with which the operation applies the votes. */
  function TimeOf(act: Act): int {
    match act
    case CastCpu(_, _, v, _) => v.timing.startTime
    case Recast(_, v, _) => v.timing.startTime
    case CastGpu(_, _, v) => v.timing.startTime
    case SetActive(_, _, t, _) => t
    case SetPreference(_, _, t, _) => t
    case EndVote(_, _, t, _) => t
    case _ => 0
  }

  function DeadOf(act: Act): set<int> {
    if OnCpu(act) then act.dead else {}
  }

  /** The CPU votes that sessions cast. */
  predicate IsCpuCast(voteId: int) {
    voteId == CPU_VOTE_DEFAULT || voteId == CPU_LOAD_UP || voteId == CPU_LOAD_RESET || voteId == CPU_LOAD_RESUME
  }

  /** The GPU votes that sessions cast. */
  predicate IsGpuCast(voteId: int) {
    voteId == GPU_LOAD_UP || voteId == GPU_CAPACITY
  }

  predicate Enabled(p: Profile, c: Core, act: Act) {
    match act
    case Advance(time) => c.clock <= time
    case Add(_, sv) => sv.votes.gpu == map[] && forall v :: v in sv.votes.cpu ==> !sv.votes.cpu[v].timing.active
    case CastCpu(_, voteId, v, _) => v.timing.active && IsCpuCast(voteId)
    case Recast(_, v, _) => v.timing.active
    case CastGpu(_, voteId, v) => v.timing.active && IsGpuCast(voteId) && GpuVoteInRange(p, voteId, v)
    case SetTasks(id, _) => id in c.m ==> !c.m[id].value.isActive
    case Drop(id) => id in c.m ==> !c.m[id].value.isActive
    case EndVote(id, voteId, t, _) => Expires(c.m, SessionTimeout(id, voteId), t)
    case _ => true
  }

  /** The sessions before the votes are applied. */
  function Changed(m: Model, act: Act): Model {
    match act
    case Advance(_) => m
    case Add(id, sv) => AfterAdd(m, id, sv)
    case CastCpu(id, voteId, v, _) => AfterVote(m, id, voteId, Protocol.Cpu(v))
    case Recast(id, v, _) => AfterVote(AfterDisable(m, id), id, CPU_VOTE_DEFAULT, Protocol.Cpu(v))
    case CastGpu(id, voteId, v) => AfterVote(m, id, voteId, Protocol.Gpu(v))
    case Retime(id, durationNs) => AfterDuration(m, id, durationNs)
    case SetActive(id, active, _, _) => WithActive(m, id, active)
    case SetPreference(id, enabled, _, _) =>
      if id in m then WithValue(m, id, m[id].value.(isPowerEfficient := enabled)) else m
    case SetTasks(id, ids) => WithTasks(m, id, ids)
    case Drop(id) => m - {id}
    case EndVote(id, voteId, _, _) =>
      if id in m then WithVotes(m, id, m[id].value.votes.SetUse(voteId, false)) else m
  }

  ghost function Perform(p: Profile, c: Core, act: Act): Core {
    var m := Changed(c.m, act);
    var on, gpuOn := p.uclampMinOn && OnCpu(act), p.gpuNodeOn && OnGpu(act);
    Core(if act.Advance? then act.time else c.clock,
         SweepModel(m, SessionOf(act), DeadOf(act), on),
         ApplyBoth(c.k, m, SessionOf(act), TimeOf(act), DeadOf(act), on, gpuOn))
  }

  ghost predicate Legal(p: Profile, c: Core, acts: seq<Act>)
    decreases |acts|
  {
    acts == [] || (Enabled(p, c, acts[0]) && Legal(p, Perform(p, c, acts[0]), acts[1..]))
  }

  ghost function Final(p: Profile, c: Core, acts: seq<Act>): Core
    requires Legal(p, c, acts)
    decreases |acts|
  {
    if acts == [] then c else Final(p, Perform(p, c, acts[0]), acts[1..])
  }

  /** The operations `acts` can be run from `c` and lead to `c'`. */
  ghost predicate Does(p: Profile, c: Core, acts: seq<Act>, c': Core) {
    Legal(p, c, acts) && Final(p, c, acts) == c'
  }

  lemma DoesNothing(p: Profile, c: Core)
    ensures Does(p, c, [], c)
  {
  }

  lemma NothingDone(p: Profile, c: Core, c': Core)
    requires Does(p, c, [], c')
    ensures c' == c
  {
  }

  lemma OneDone(p: Profile, c: Core, act: Act, c': Core)
    requires Does(p, c, [act], c')
    ensures Enabled(p, c, act) && c' == Perform(p, c, act)
  {
    assert [act][1..] == [];
    assert Final(p, Perform(p, c, act), []) == Perform(p, c, act);
  }

  lemma TwoDone(p: Profile, c: Core, act: Act, act': Act, c': Core)
    requires Does(p, c, [act, act'], c')
    ensures Enabled(p, c, act) && Enabled(p, Perform(p, c, act), act') && c' == Perform(p, Perform(p, c, act), act')
  {
    hide Perform, Enabled;
    assert [act, act'][1..] == [act'];
    OneDone(p, Perform(p, c, act), act', c');
  }

  lemma DoesOne(p: Profile, c: Core, act: Act, c': Core)
    requires Enabled(p, c, act) && c' == Perform(p, c, act)
    ensures Does(p, c, [act], c')
  {
    assert [act][1..] == [];
  }

  lemma {:induction false} DoesConcat(p: Profile, c: Core, x: seq<Act>, c1: Core, y: seq<Act>, c2: Core)
    requires Does(p, c, x, c1) && Does(p, c1, y, c2)
    ensures Does(p, c, x + y, c2)
    decreases |x|
  {
    hide Perform, Enabled;
    if x == [] {
      assert x + y == y;
    } else {
      DoesConcat(p, Perform(p, c, x[0]), x[1..], c1, y, c2);
      assert (x + y)[1..] == x[1..] + y && (x + y)[0] == x[0];
    }
  }

  lemma DoesThen(p: Profile, c: Core, x: seq<Act>, c1: Core, act: Act, c2: Core)
    requires Does(p, c, x, c1) && Enabled(p, c1, act) && c2 == Perform(p, c1, act)
    ensures Does(p, c, x + [act], c2)
  {
    DoesOne(p, c1, act, c2);
    DoesConcat(p, c, x, c1, [act], c2);
  }

  // ---------------------------------------------------------------------------------------------
  // The calls
  // ---------------------------------------------------------------------------------------------

  function CoreOf(clock: int, l: Local): Core { Core(clock, l.m, l.kernel) }

  function CpuAct(id: int, voteId: int, uclampMin: int, r: Reading, durationNs: int): Act {
    CastCpu(id, voteId, CpuVote(VoteRange(true, r.now, durationNs), UclampRange(uclampMin, UCLAMP_MAX)), r.dead)
  }

  function PidAct(p: Profile, id: int, targetNs: int, v: int, r: Reading): (act: Act)
    ensures act.CastCpu?
  {
    CpuAct(id, CPU_VOTE_DEFAULT, v, r, PidVoteNs(p, targetNs))
  }

  function GpuAct(id: int, voteId: int, capacity: int, r: Reading, durationNs: int): Act {
    CastGpu(id, voteId, GpuVote(VoteRange(true, r.now, durationNs), capacity))
  }

  /** New threads: inactive on the old ones, active on the new ones. */
  function ThreadActs(id: int, ids: seq<int>, r: Reading, r': Reading): seq<Act> {
    [SetActive(id, false, r.now, r.dead), SetTasks(id, ids), SetActive(id, true, r'.now, r'.dead)]
  }

  function HintActs(p: Profile, id: int, d: Desc, hint: SessionHint, rs: Readings): seq<Act> {
    var target, pid := d.targetNs, d.pidControlVariable;
    if d.closed || target == 0 then []
    else
      match hint
      case CpuLoadUp =>
        [PidAct(p, id, target, pid, rs.first),
         CpuAct(id, CPU_LOAD_UP, ToInt32(p.uclampMinLoadUp), rs.second, target * 2)]
      case CpuLoadDown => [PidAct(p, id, target, ToInt32(p.uclampMinLow), rs.first)]
      case CpuLoadReset =>
        [CpuAct(id, CPU_LOAD_RESET, ToInt32(p.uclampMinLoadReset), rs.first, p.halfStaleNs(target))]
      case CpuLoadResume => [CpuAct(id, CPU_LOAD_RESUME, pid, rs.first, p.halfStaleNs(target))]
      case GpuLoadUp => [GpuAct(id, GPU_LOAD_UP, p.gpuLoadUpHeadroom, rs.first, target)]
      case _ => []
  }

  /** The control variable that a report leads to. */
  function ReportedMin(p: Profile, d: Desc, works: seq<WorkDuration>): int
    requires works != [] && ArithmeticDefined(p, d, works)
  {
    if !p.pidOn then ToInt32(p.uclampMinHigh)
    else
      var d' := Recorded(p, d, works);
      NextMin(p, d', Controlled(p, d', works).1)
  }

  /** The report comes to cast a GPU vote. */
  predicate CastsGpu(p: Profile, works: seq<WorkDuration>, gpuFrequency: Option<int>) {
    p.pidOn && UsesGpu(p, works) && gpuFrequency.Some?
  }

  function ReportActs(p: Profile, id: int, d: Desc, works: seq<WorkDuration>, gpuFrequency: Option<int>,
                      rs: Readings): seq<Act>
    requires ReportDefined(p, d, works, gpuFrequency)
  {
    if !Accepts(d, works) then []
    else
      var act := PidAct(p, id, d.targetNs, ReportedMin(p, d, works), rs.first);
      [Recast(id, act.cpu, act.dead)] +
      if CastsGpu(p, works, gpuFrequency) then
        var capacity := GpuVoteOf(p, works[|works| - 1], d.targetNs, gpuFrequency.value);
        [GpuAct(id, GPU_CAPACITY, capacity, rs.second, p.staleNs(d.targetNs))]
      else []
  }

  function CallActs(p: Profile, id: int, l: Local, call: Call, rs: Readings): seq<Act>
    requires Defined(p, l.d, call)
  {
    match call
    case Pause =>
      if l.d.closed || !l.d.isActive then []
      else ThreadActs(id, [], rs.first, rs.second) + [SetActive(id, false, rs.third.now, rs.third.dead)]
    case Resume =>
      if l.d.closed || l.d.isActive then [] else ThreadActs(id, l.d.threadIds, rs.first, rs.second)
    case Close => if l.d.closed then [] else [SetActive(id, false, rs.first.now, rs.first.dead), Drop(id)]
    case UpdateTarget(ns) => if l.d.closed || ns <= 0 then [] else [Retime(id, p.scaleTarget(ns))]
    case ReportActual(works, gpuFrequency) => ReportActs(p, id, l.d, works, gpuFrequency, rs)
    case SendHint(hint) => HintActs(p, id, l.d, hint, rs)
    case SetThreads(ids) =>
      if l.d.closed || ids == [] then []
      else ThreadActs(id, ids, rs.first, rs.second) +
           [PidAct(p, id, l.d.targetNs, ToInt32(p.uclampMinInit), rs.third)]
    case SetMode(mode, enabled) =>
      if l.d.closed || mode.UnknownMode? || id !in l.m || l.m[id].value.isPowerEfficient == enabled then []
      else [SetPreference(id, enabled, rs.first.now, rs.first.dead)]
  }

  /** The operations behind one step of the system. */
  ghost function ActsOf(p: Profile, s: System, op: Op): seq<Act>
    requires SessionSystem.Enabled(p, s, op)
  {
    match op
    case Tick(time) => [Advance(time)]
    case Create(threadIds, targetNs, isAppSession, timeNow, first, rs) =>
      var id := s.lastId + 1;
      [Add(id, SessionValue(0, true, isAppSession, false, Protocol.NewTable(timeNow, targetNs)))] +
      ThreadActs(id, threadIds, first, rs.first) +
      [CpuAct(id, CPU_LOAD_RESET, ToInt32(p.uclampMinLoadReset), rs.second, p.halfStaleNs(targetNs)),
       CpuAct(id, CPU_VOTE_DEFAULT, ToInt32(p.uclampMinInit), rs.third, targetNs)]
    case Invoke(id, call, rs) => CallActs(p, id, LocalOf(s, id), call, rs)
    case Timeout(index, dead) =>
      var ev := Package(s.queue[index]);
      if Expires(s.model, ev, s.clock) then [EndVote(ev.sessionId, ev.voteId, s.clock, dead)] else []
  }

  lemma CpuDoes(p: Profile, clock: int, id: int, l: Local, voteId: int, v: int, r: Reading, durationNs: int)
    requires IsCpuCast(voteId)
    ensures Does(p, CoreOf(clock, l), [CpuAct(id, voteId, v, r, durationNs)],
                 CoreOf(clock, SetCpuVote(p, id, l, voteId, v, r, durationNs)))
  {
    hide Does, ApplyBoth, AfterVote;
    DoesOne(p, CoreOf(clock, l), CpuAct(id, voteId, v, r, durationNs),
            CoreOf(clock, SetCpuVote(p, id, l, voteId, v, r, durationNs)));
  }

  lemma PidDoes(p: Profile, clock: int, id: int, l: Local, v: int, r: Reading)
    ensures Does(p, CoreOf(clock, l), [PidAct(p, id, l.d.targetNs, v, r)], CoreOf(clock, SetPid(p, id, l, v, r)))
  {
    hide Does, SetCpuVote;
    CpuDoes(p, clock, id, l.(d := l.d.(pidControlVariable := v)), CPU_VOTE_DEFAULT, v, r, PidVoteNs(p, l.d.targetNs));
  }

  lemma GpuDoes(p: Profile, clock: int, id: int, l: Local, voteId: int, capacity: int, r: Reading, durationNs: int)
    requires IsGpuCast(voteId)
    requires 0 <= capacity <= if voteId == GPU_CAPACITY then p.GpuLimit() else p.gpuLoadUpHeadroom
    ensures Does(p, CoreOf(clock, l), [GpuAct(id, voteId, capacity, r, durationNs)],
                 CoreOf(clock, SetGpuVote(p, id, l, voteId, capacity, r, durationNs)))
  {
    hide Does, ApplyBoth, AfterVote;
    DoesOne(p, CoreOf(clock, l), GpuAct(id, voteId, capacity, r, durationNs),
            CoreOf(clock, SetGpuVote(p, id, l, voteId, capacity, r, durationNs)));
  }

  lemma ThreadsDo(p: Profile, clock: int, id: int, l: Local, ids: seq<int>, rs: Readings)
    ensures Does(p, CoreOf(clock, l), ThreadActs(id, ids, rs.first, rs.second),
                 CoreOf(clock, GiveThreads(p, id, l, ids, rs)))
  {
    var acts := ThreadActs(id, ids, rs.first, rs.second);
    var c := CoreOf(clock, l);
    var c1 := Perform(p, c, acts[0]);
    var c2 := Perform(p, c1, acts[1]);
    var c3 := Perform(p, c2, acts[2]);
    SetThreadsModel(l.m, id, ids, rs.first.dead, rs.second.dead, p.uclampMinOn);
    assert c1.m == SweepModel(WithActive(l.m, id, false), id, rs.first.dead, p.uclampMinOn);
    assert c2 == c1.(m := WithTasks(c1.m, id, ids));
    assert c3 == CoreOf(clock, GiveThreads(p, id, l, ids, rs));
    DoesOne(p, c, acts[0], c1);
    hide Does, Perform, GiveThreads;
    DoesThen(p, c, [acts[0]], c1, acts[1], c2);
    DoesThen(p, c, [acts[0]] + [acts[1]], c2, acts[2], c3);
    assert [acts[0]] + [acts[1]] + [acts[2]] == acts;
  }

  lemma HintDoes(p: Profile, clock: int, id: int, l: Local, hint: SessionHint, rs: Readings)
    ensures Does(p, CoreOf(clock, l), HintActs(p, id, l.d, hint, rs), CoreOf(clock, DoSendHint(p, id, l, hint, rs).0))
  {
    hide Does, SetCpuVote, SetGpuVote, SetPid, CpuAct, PidAct;
    DoesNothing(p, CoreOf(clock, l));
    var target, pid := l.d.targetNs, l.d.pidControlVariable;
    if !l.d.closed && target != 0 {
      match hint
      case CpuLoadUp =>
        var l1 := SetPid(p, id, l, pid, rs.first);
        var v := ToInt32(p.uclampMinLoadUp);
        var act1, act2 := PidAct(p, id, target, pid, rs.first), CpuAct(id, CPU_LOAD_UP, v, rs.second, target * 2);
        PidDoes(p, clock, id, l, pid, rs.first);
        CpuDoes(p, clock, id, l1, CPU_LOAD_UP, v, rs.second, target * 2);
        DoesConcat(p, CoreOf(clock, l), [act1], CoreOf(clock, l1), [act2],
                   CoreOf(clock, SetCpuVote(p, id, l1, CPU_LOAD_UP, v, rs.second, target * 2)));
        assert [act1] + [act2] == [act1, act2];
      case CpuLoadDown => PidDoes(p, clock, id, l, ToInt32(p.uclampMinLow), rs.first);
      case CpuLoadReset =>
        var l' := l.(d := l.d.(pidControlVariable := ToInt32(Max(p.uclampMinInit, ToUint32(pid)))));
        CpuDoes(p, clock, id, l', CPU_LOAD_RESET, ToInt32(p.uclampMinLoadReset), rs.first, p.halfStaleNs(target));
      case CpuLoadResume => CpuDoes(p, clock, id, l, CPU_LOAD_RESUME, pid, rs.first, p.halfStaleNs(target));
      case GpuLoadUp => GpuDoes(p, clock, id, l, GPU_LOAD_UP, p.gpuLoadUpHeadroom, rs.first, target);
      case _ =>
    }
  }

  /** Switching the boosts off and voting for a control variable is one operation. */
  lemma RecastDoes(p: Profile, clock: int, id: int, l: Local, d: Desc, v: int, r: Reading)
    requires d.targetNs == l.d.targetNs
    ensures var act := PidAct(p, id, l.d.targetNs, v, r);
            Does(p, CoreOf(clock, l), [Recast(id, act.cpu, act.dead)],
                 CoreOf(clock, SetPid(p, id, l.(m := AfterDisable(l.m, id), d := d), v, r)))
  {
    var act := PidAct(p, id, l.d.targetNs, v, r);
    hide Does, ApplyBoth, AfterVote, AfterDisable;
    DoesOne(p, CoreOf(clock, l), Recast(id, act.cpu, act.dead),
            CoreOf(clock, SetPid(p, id, l.(m := AfterDisable(l.m, id), d := d), v, r)));
  }

  lemma ReportDoes(p: Profile, clock: int, id: int, l: Local, works: seq<WorkDuration>, gpuFrequency: Option<int>,
                   rs: Readings)
    requires ReportDefined(p, l.d, works, gpuFrequency)
    ensures Does(p, CoreOf(clock, l), ReportActs(p, id, l.d, works, gpuFrequency, rs),
                 CoreOf(clock, DoReport(p, id, l, works, gpuFrequency, rs).0))
  {
    hide Does, SetPid, SetGpuVote, AfterDisable, Controlled, NextMin, ArithmeticDefined, PidAct, CapacityDefined;
    var c := CoreOf(clock, l);
    DoesNothing(p, c);
    if Accepts(l.d, works) {
      var v := ReportedMin(p, l.d, works);
      var act := PidAct(p, id, l.d.targetNs, v, rs.first);
      var recast := [Recast(id, act.cpu, act.dead)];
      var l1 := l.(m := AfterDisable(l.m, id));
      assert recast + [] == recast;
      if !p.pidOn {
        RecastDoes(p, clock, id, l, l.d, v, rs.first);
      } else {
        var d := RecordedAll(p, l.d, works);
        var d' := d.(pidState := Controlled(p, d, works).0);
        RecastDoes(p, clock, id, l, d', v, rs.first);
        var l2 := SetPid(p, id, l1.(d := d'), v, rs.first);
        if CastsGpu(p, works, gpuFrequency) {
          var capacity := GpuVoteOf(p, works[|works| - 1], l.d.targetNs, gpuFrequency.value);
          GpuDoes(p, clock, id, l2, GPU_CAPACITY, capacity, rs.second, p.staleNs(l.d.targetNs));
          DoesConcat(p, c, recast, CoreOf(clock, l2),
                     [GpuAct(id, GPU_CAPACITY, capacity, rs.second, p.staleNs(l.d.targetNs))],
                     CoreOf(clock, SetGpuVote(p, id, l2, GPU_CAPACITY, capacity, rs.second, p.staleNs(l.d.targetNs))));
        }
      }
    }
  }

  lemma PauseDoes(p: Profile, clock: int, id: int, l: Local, rs: Readings)
    requires !l.d.closed && l.d.isActive
    ensures Does(p, CoreOf(clock, l), CallActs(p, id, l, Pause, rs), CoreOf(clock, DoPause(p, id, l, rs).0))
  {
    var l1 := GiveThreads(p, id, l, [], rs);
    var act := SetActive(id, false, rs.third.now, rs.third.dead);
    var l2 := Activate(p, id, l1.(d := l1.d.(isActive := false)), false, rs.third);
    assert Perform(p, CoreOf(clock, l1), act) == CoreOf(clock, l2) by {
      hide ApplyBoth, Alive, KernelAfterSetThreads;
    }
    ThreadsDo(p, clock, id, l, [], rs);
    hide Does, Perform, GiveThreads, Activate;
    DoesThen(p, CoreOf(clock, l), ThreadActs(id, [], rs.first, rs.second), CoreOf(clock, l1), act, CoreOf(clock, l2));
  }

  lemma ResumeDoes(p: Profile, clock: int, id: int, l: Local, rs: Readings)
    requires !l.d.closed && !l.d.isActive
    ensures Does(p, CoreOf(clock, l), CallActs(p, id, l, Resume, rs), CoreOf(clock, DoResume(p, id, l, rs).0))
  {
    var l1 := GiveThreads(p, id, l, l.d.threadIds, rs);
    assert Activate(p, id, l1.(d := l1.d.(isActive := true)), true, rs.third) == l1.(d := l1.d.(isActive := true)) by {
      hide ApplyBoth, Alive, KernelAfterSetThreads;
    }
    hide Does, GiveThreads, Activate;
    ThreadsDo(p, clock, id, l, l.d.threadIds, rs);
  }

  lemma CloseDoes(p: Profile, clock: int, id: int, l: Local, rs: Readings)
    requires !l.d.closed
    ensures Does(p, CoreOf(clock, l), CallActs(p, id, l, Close, rs), CoreOf(clock, DoClose(p, id, l, rs).0))
  {
    var c, c2 := CoreOf(clock, l), CoreOf(clock, DoClose(p, id, l, rs).0);
    var act := SetActive(id, false, rs.first.now, rs.first.dead);
    var c1 := Perform(p, c, act);
    assert c1.m - {id} == l.m - {id};
    assert Perform(p, c1, Drop(id)) == c2;
    DoesOne(p, c, act, c1);
    hide Does, Perform;
    DoesThen(p, c, [act], c1, Drop(id), c2);
    assert [act] + [Drop(id)] == [act, Drop(id)];
  }

  lemma SetThreadsDoes(p: Profile, clock: int, id: int, l: Local, ids: seq<int>, rs: Readings)
    requires !l.d.closed && ids != []
    ensures Does(p, CoreOf(clock, l), CallActs(p, id, l, Call.SetThreads(ids), rs),
                 CoreOf(clock, DoSetThreads(p, id, l, ids, rs).0))
  {
    hide Does, SetPid, KernelAfterSetThreads, AfterSetThreads, ThreadActs, PidAct;
    var l' := l.(d := l.d.(threadIds := ids));
    var l1 := GiveThreads(p, id, l', ids, rs);
    var v := ToInt32(p.uclampMinInit);
    ThreadsDo(p, clock, id, l', ids, rs);
    PidDoes(p, clock, id, l1, v, rs.third);
    DoesConcat(p, CoreOf(clock, l), ThreadActs(id, ids, rs.first, rs.second), CoreOf(clock, l1),
               [PidAct(p, id, l.d.targetNs, v, rs.third)], CoreOf(clock, SetPid(p, id, l1, v, rs.third)));
  }

  lemma ModeDoes(p: Profile, clock: int, id: int, l: Local, enabled: bool, r: Reading)
    requires id in l.m && l.m[id].value.isPowerEfficient != enabled
    ensures Does(p, CoreOf(clock, l), [SetPreference(id, enabled, r.now, r.dead)],
                 CoreOf(clock, Prefer(p, id, l, enabled, r)))
  {
    hide Does, ApplyTo;
    DoesOne(p, CoreOf(clock, l), SetPreference(id, enabled, r.now, r.dead),
            CoreOf(clock, Prefer(p, id, l, enabled, r)));
  }

  lemma TargetDoes(p: Profile, clock: int, id: int, l: Local, ns: int)
    requires !l.d.closed && 0 < ns
    ensures Does(p, CoreOf(clock, l), [Retime(id, p.scaleTarget(ns))], CoreOf(clock, DoUpdateTarget(p, id, l, ns).0))
  {
    hide Does, AfterDuration;
    DoesOne(p, CoreOf(clock, l), Retime(id, p.scaleTarget(ns)), CoreOf(clock, DoUpdateTarget(p, id, l, ns).0));
  }

  /** What a call does to sessions, clamps and GPU node is what its operations do. */
  lemma CallDoes(p: Profile, clock: int, id: int, l: Local, call: Call, rs: Readings)
    requires Defined(p, l.d, call)
    ensures Does(p, CoreOf(clock, l), CallActs(p, id, l, call, rs), CoreOf(clock, Do(p, id, l, call, rs).0))
  {
    hide Does, GiveThreads, Activate, SetPid, ThreadActs, PidAct, HintActs, ReportActs, ApplyBoth, DoSendHint, DoReport,
         ArithmeticDefined, GpuDefined, AfterDuration;
    DoesNothing(p, CoreOf(clock, l));
    match call
    case Pause => if !l.d.closed && l.d.isActive { PauseDoes(p, clock, id, l, rs); }
    case Resume => if !l.d.closed && !l.d.isActive { ResumeDoes(p, clock, id, l, rs); }
    case Close => if !l.d.closed { CloseDoes(p, clock, id, l, rs); }
    case UpdateTarget(ns) => if !l.d.closed && 0 < ns { TargetDoes(p, clock, id, l, ns); }
    case ReportActual(works, gpuFrequency) => ReportDoes(p, clock, id, l, works, gpuFrequency, rs);
    case SendHint(hint) => HintDoes(p, clock, id, l, hint, rs);
    case SetThreads(ids) => if !l.d.closed && ids != [] { SetThreadsDoes(p, clock, id, l, ids, rs); }
    case SetMode(mode, enabled) =>
      if id in l.m && l.m[id].value.isPowerEfficient != enabled {
        ModeDoes(p, clock, id, l, enabled, rs.first);
      }
  }

  // ---------------------------------------------------------------------------------------------
  // Whole runs
  // ---------------------------------------------------------------------------------------------

  function CoreAt(s: System): Core { Core(s.clock, s.model, s.kernel) }

  lemma CreateDoes(p: Profile, s: System, op: Op)
    requires op.Create?
    ensures Does(p, CoreAt(s), ActsOf(p, s, op), CoreAt(SessionSystem.Next(p, s, op)))
  {
    hide Does, SetCpuVote, KernelAfterSetThreads, AfterSetThreads, ThreadActs, CpuAct;
    var id, clock, rs := s.lastId + 1, s.clock, op.readings;
    var sv := SessionValue(0, true, op.isAppSession, false, Protocol.NewTable(op.timeNow, op.targetNs));
    var l0 := Local(AfterAdd(s.model, id, sv), s.queue, s.kernel,
                    Desc(false, true, op.threadIds, op.targetNs, 0, PidState(0, 0), false, []));
    var l1 := GiveThreads(p, id, l0, op.threadIds, Readings(op.first, rs.first, rs.first));
    var v, v' := ToInt32(p.uclampMinLoadReset), ToInt32(p.uclampMinInit);
    var half := p.halfStaleNs(op.targetNs);
    var l2 := SetCpuVote(p, id, l1, CPU_LOAD_RESET, v, rs.second, half);
    var l3 := SetCpuVote(p, id, l2, CPU_VOTE_DEFAULT, v', rs.third, op.targetNs);
    var a1, a2 := CpuAct(id, CPU_LOAD_RESET, v, rs.second, half),
        CpuAct(id, CPU_VOTE_DEFAULT, v', rs.third, op.targetNs);
    var give := ThreadActs(id, op.threadIds, op.first, rs.first);
    DoesOne(p, CoreAt(s), Add(id, sv), CoreOf(clock, l0));
    ThreadsDo(p, clock, id, l0, op.threadIds, Readings(op.first, rs.first, rs.first));
    CpuDoes(p, clock, id, l1, CPU_LOAD_RESET, v, rs.second, half);
    CpuDoes(p, clock, id, l2, CPU_VOTE_DEFAULT, v', rs.third, op.targetNs);
    DoesConcat(p, CoreAt(s), [Add(id, sv)], CoreOf(clock, l0), give, CoreOf(clock, l1));
    DoesConcat(p, CoreOf(clock, l1), [a1], CoreOf(clock, l2), [a2], CoreOf(clock, l3));
    DoesConcat(p, CoreAt(s), [Add(id, sv)] + give, CoreOf(clock, l1), [a1] + [a2], CoreOf(clock, l3));
    assert [a1] + [a2] == [a1, a2];
  }

  lemma TimeoutDoes(p: Profile, s: System, op: Op)
    requires op.Timeout? && SessionSystem.Enabled(p, s, op)
    ensures Does(p, CoreAt(s), ActsOf(p, s, op), CoreAt(SessionSystem.Next(p, s, op)))
  {
    hide Does, ApplyBoth;
    var ev := Package(s.queue[op.index]);
    if Expires(s.model, ev, s.clock) {
      DoesOne(p, CoreAt(s), EndVote(ev.sessionId, ev.voteId, s.clock, op.dead), CoreAt(SessionSystem.Next(p, s, op)));
    } else {
      DoesNothing(p, CoreAt(s));
    }
  }

  lemma StepDoes(p: Profile, s: System, op: Op)
    requires SessionSystem.Enabled(p, s, op)
    ensures Does(p, CoreAt(s), ActsOf(p, s, op), CoreAt(SessionSystem.Next(p, s, op)))
  {
    match op
    case Tick(time) => DoesOne(p, CoreAt(s), Advance(time), CoreAt(SessionSystem.Next(p, s, op)));
    case Create(_, _, _, _, _, _) => CreateDoes(p, s, op);
    case Invoke(id, call, rs) =>
      hide Does, Do, CallActs;
      CallDoes(p, s.clock, id, LocalOf(s, id), call, rs);
    case Timeout(_, _) => TimeoutDoes(p, s, op);
  }

  /** The operations behind a run of the system, in order. */
  ghost function ActsIn(p: Profile, s: System, ops: seq<Op>): seq<Act>
    requires SessionSystem.Legal(p, s, ops)
    decreases |ops|
  {
    if ops == [] then []
    else ActsOf(p, s, ops[0]) + ActsIn(p, SessionSystem.Next(p, s, ops[0]), ops[1..])
  }

  /** Every run of the system is a run of the manager's operations. */
  lemma {:induction false} RunDoes(p: Profile, s: System, ops: seq<Op>)
    requires SessionSystem.Legal(p, s, ops)
    ensures Does(p, CoreAt(s), ActsIn(p, s, ops), CoreAt(SessionSystem.Final(p, s, ops)))
    decreases |ops|
  {
    hide Does, SessionSystem.Next, ActsOf;
    if ops == [] {
      DoesNothing(p, CoreAt(s));
    } else {
      var s' := SessionSystem.Next(p, s, ops[0]);
      StepDoes(p, s, ops[0]);
      RunDoes(p, s', ops[1..]);
      DoesConcat(p, CoreAt(s), ActsOf(p, s, ops[0]), CoreAt(s'), ActsIn(p, s', ops[1..]),
                 CoreAt(SessionSystem.Final(p, s, ops)));
    }
  }
}
