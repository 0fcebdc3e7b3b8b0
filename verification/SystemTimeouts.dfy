/** The timeout protocol carries over to the whole system: every run of the hint sessions is a run
    of the protocol. So every active vote of every session has an event on its way, by a time that is
    computed along the run, and this time is the vote's own timeout unless a call has shortened the
    default vote since it was last off. */
module SystemTimeouts {
  import opened Arith
  import opened UclampVoter
  import opened SessionTaskMap
  import opened SessionRecords
  import opened PidControl
  import opened SessionModel
  import opened ThreadFloors
  import opened HintSession
  import opened SessionSystem
  import opened OverdueVotes
  import Protocol = TimeoutProtocol

  /** The votes and events of the system, between calls. */
  function Abs(s: System): Protocol.State {
    Protocol.State(s.clock, s.lastId, TablesOf(s.model), s.queue, [], Protocol.Idle)
  }

  /** Some protocol steps lead from `a` to `b`; if `strict`, none of them shortens the active vote
      `vid` of session `sid`. */
  ghost predicate Reaches(a: Protocol.State, b: Protocol.State, sid: int, vid: int, strict: bool) {
    exists ops :: Protocol.Legal(a, ops) && Protocol.Final(a, ops) == b &&
                  (strict ==> Protocol.NeverShortened(a, ops, sid, vid))
  }

  lemma ReachesSelf(a: Protocol.State, sid: int, vid: int, strict: bool)
    ensures Reaches(a, a, sid, vid, strict)
  {
    assert Protocol.Legal(a, []);
  }

  lemma ReachesStep(a: Protocol.State, op: Protocol.Op, sid: int, vid: int, strict: bool)
    requires Protocol.Enabled(a, op) && (strict ==> !Protocol.Shortens(a, op, sid, vid))
    ensures Reaches(a, Protocol.Next(a, op), sid, vid, strict)
  {
    Protocol.LegalStep(a, op, []);
    assert [op] + [] == [op] && [op][1..] == [];
    var ops := [op];
    assert Protocol.Legal(a, ops) && (strict ==> Protocol.NeverShortened(a, ops, sid, vid));
  }

  lemma {:induction false} NeverShortenedConcat(s: Protocol.State, a: seq<Protocol.Op>, b: seq<Protocol.Op>, sid: int,
                                                vid: int)
    requires Protocol.Legal(s, a) && Protocol.Legal(Protocol.Final(s, a), b)
    requires Protocol.NeverShortened(s, a, sid, vid) && Protocol.NeverShortened(Protocol.Final(s, a), b, sid, vid)
    ensures Protocol.Legal(s, a + b) && Protocol.NeverShortened(s, a + b, sid, vid)
    decreases |a|
  {
    Protocol.LegalConcat(s, a, b);
    if a == [] {
      assert a + b == b;
    } else {
      NeverShortenedConcat(Protocol.Next(s, a[0]), a[1..], b, sid, vid);
      assert (a + b)[1..] == a[1..] + b;
    }
  }

  lemma ReachesTrans(a: Protocol.State, b: Protocol.State, c: Protocol.State, sid: int, vid: int, strict: bool)
    requires Reaches(a, b, sid, vid, strict) && Reaches(b, c, sid, vid, strict)
    ensures Reaches(a, c, sid, vid, strict)
  {
    var o1 :| Protocol.Legal(a, o1) && Protocol.Final(a, o1) == b &&
        (strict ==> Protocol.NeverShortened(a, o1, sid, vid));
    var o2 :| Protocol.Legal(b, o2) && Protocol.Final(b, o2) == c &&
        (strict ==> Protocol.NeverShortened(b, o2, sid, vid));
    Protocol.LegalConcat(a, o1, o2);
    if strict {
      NeverShortenedConcat(a, o1, o2, sid, vid);
    }
    assert Protocol.Legal(a, o1 + o2);
  }

  // ---------------------------------------------------------------------------------------------
  // The parts of a call
  // ---------------------------------------------------------------------------------------------

  /** `b` with the votes and events of `l`. */
  function At(b: Protocol.State, l: Local): Protocol.State {
    b.(tables := TablesOf(l.m), queue := l.queue)
  }

  lemma VoteReaches(b: Protocol.State, id: int, l: Local, voteId: int, vote: Protocol.Vote, dead: set<int>, on: bool,
                    gpuOn: bool, sid: int, vid: int, strict: bool)
    requires Quiet(b) && Protocol.TimingOf(vote).active
    ensures Reaches(At(b, l), At(b, HintSession.SetVote(id, l, voteId, vote, dead, on, gpuOn)), sid, vid, strict)
  {
    var s := At(b, l);
    VoteSetRefines(s, l.m, id, voteId, vote, dead, on);
    var op := Protocol.SetVote(id, voteId, vote);
    var s' := Protocol.Next(s, op);
    ReachesStep(s, op, sid, vid, strict);
    if s'.inflight != [] {
      ReachesStep(s', Protocol.Enqueue(0), sid, vid, strict);
      ReachesTrans(s, s', Protocol.Next(s', Protocol.Enqueue(0)), sid, vid, strict);
    }
  }

  lemma SetPidReaches(p: Profile, b: Protocol.State, id: int, l: Local, v: int, r: Reading, sid: int, vid: int,
                      strict: bool)
    requires Quiet(b)
    ensures Reaches(At(b, l), At(b, SetPid(p, id, l, v, r)), sid, vid, strict)
  {
    var l' := l.(d := l.d.(pidControlVariable := v));
    SetCpuVoteReaches(p, b, id, l', CPU_VOTE_DEFAULT, v, r, PidVoteNs(p, l.d.targetNs), sid, vid, strict);
  }

  lemma SetCpuVoteReaches(p: Profile, b: Protocol.State, id: int, l: Local, voteId: int, v: int, r: Reading,
                          durationNs: int, sid: int, vid: int, strict: bool)
    requires Quiet(b)
    ensures Reaches(At(b, l), At(b, SetCpuVote(p, id, l, voteId, v, r, durationNs)), sid, vid, strict)
  {
    VoteReaches(b, id, l, voteId, Protocol.Cpu(CpuVote(VoteRange(true, r.now, durationNs), UclampRange(v, UCLAMP_MAX))),
                r.dead, p.uclampMinOn, false, sid, vid, strict);
  }

  lemma SetGpuVoteReaches(p: Profile, b: Protocol.State, id: int, l: Local, voteId: int, capacity: int, r: Reading,
                          durationNs: int, sid: int, vid: int, strict: bool)
    requires Quiet(b)
    ensures Reaches(At(b, l), At(b, SetGpuVote(p, id, l, voteId, capacity, r, durationNs)), sid, vid, strict)
  {
    VoteReaches(b, id, l, voteId, Protocol.Gpu(GpuVote(VoteRange(true, r.now, durationNs), capacity)), {}, false,
                p.gpuNodeOn, sid, vid, strict);
  }

  lemma DisableReaches(b: Protocol.State, id: int, l: Local, sid: int, vid: int, strict: bool)
    requires Quiet(b)
    ensures Reaches(At(b, l), At(b, l.(m := AfterDisable(l.m, id))), sid, vid, strict)
  {
    ReachesStep(At(b, l), Protocol.DisableBoosts(id), sid, vid, strict);
    if id in l.m {
      TablesWithVotes(l.m, id, l.m[id].value.votes.DisableAll(BOOST_VOTES));
    }
  }

  // ---------------------------------------------------------------------------------------------
  // The calls
  // ---------------------------------------------------------------------------------------------

  lemma HintReaches(p: Profile, b: Protocol.State, id: int, l: Local, hint: SessionHint, rs: Readings,
                    sid: int, vid: int, strict: bool)
    requires Quiet(b)
    ensures Reaches(At(b, l), At(b, DoSendHint(p, id, l, hint, rs).0), sid, vid, strict)
  {
    hide Reaches, SetCpuVote, SetGpuVote, SetPid;
    var target, pid := l.d.targetNs, l.d.pidControlVariable;
    ReachesSelf(At(b, l), sid, vid, strict);
    match hint
    case CpuLoadUp =>
      var l' := SetPid(p, id, l, pid, rs.first);
      var v := ToInt32(p.uclampMinLoadUp);
      SetPidReaches(p, b, id, l, pid, rs.first, sid, vid, strict);
      SetCpuVoteReaches(p, b, id, l', CPU_LOAD_UP, v, rs.second, target * 2, sid, vid, strict);
      ReachesTrans(At(b, l), At(b, l'), At(b, SetCpuVote(p, id, l', CPU_LOAD_UP, v, rs.second, target * 2)), sid, vid,
                   strict);
    case CpuLoadDown => SetPidReaches(p, b, id, l, ToInt32(p.uclampMinLow), rs.first, sid, vid, strict);
    case CpuLoadReset =>
      var l' := l.(d := l.d.(pidControlVariable := ToInt32(Max(p.uclampMinInit, ToUint32(pid)))));
      SetCpuVoteReaches(p, b, id, l', CPU_LOAD_RESET, ToInt32(p.uclampMinLoadReset), rs.first, p.halfStaleNs(target),
                        sid, vid, strict);
    case CpuLoadResume => SetCpuVoteReaches(p, b, id, l, CPU_LOAD_RESUME, pid, rs.first, p.halfStaleNs(target), sid,
                                            vid, strict);
    case GpuLoadUp => SetGpuVoteReaches(p, b, id, l, GPU_LOAD_UP, p.gpuLoadUpHeadroom, rs.first, target, sid, vid,
                                        strict);
    case _ =>
  }

  lemma ReportGpuReaches(p: Profile, b: Protocol.State, id: int, l: Local, works: seq<WorkDuration>,
                         gpuFrequency: Option<int>, r: Reading, sid: int, vid: int, strict: bool)
    requires Quiet(b) && works != [] && GpuDefined(p, works, l.d.targetNs, gpuFrequency)
    ensures Reaches(At(b, l), At(b, ReportGpu(p, id, l, works, gpuFrequency, r)), sid, vid, strict)
  {
    hide Reaches, SetGpuVote, GpuVoteOf;
    ReachesSelf(At(b, l), sid, vid, strict);
    if UsesGpu(p, works) && gpuFrequency.Some? {
      var capacity := GpuVoteOf(p, works[|works| - 1], l.d.targetNs, gpuFrequency.value);
      SetGpuVoteReaches(p, b, id, l, GPU_CAPACITY, capacity, r, p.staleNs(l.d.targetNs), sid, vid, strict);
    }
  }

  lemma ReportPidReaches(p: Profile, b: Protocol.State, id: int, l: Local, works: seq<WorkDuration>, r: Reading,
                         sid: int, vid: int, strict: bool)
    requires Quiet(b) && works != [] && To100us(l.d.targetNs) != 0
    ensures Reaches(At(b, l), At(b, ReportPid(p, id, l, works, r)), sid, vid, strict)
  {
    hide Reaches, SetPid, NextMin, Controlled;
    var c := Controlled(p, l.d, works);
    SetPidReaches(p, b, id, l.(d := l.d.(pidState := c.0)), NextMin(p, l.d, c.1), r, sid, vid, strict);
  }

  lemma ReportReaches(p: Profile, b: Protocol.State, id: int, l: Local, works: seq<WorkDuration>,
                      gpuFrequency: Option<int>, rs: Readings, sid: int, vid: int, strict: bool)
    requires Quiet(b) && ReportDefined(p, l.d, works, gpuFrequency)
    ensures Reaches(At(b, l), At(b, DoReport(p, id, l, works, gpuFrequency, rs).0), sid, vid, strict)
  {
    hide Reaches, SetPid, ReportPid, ReportGpu;
    var l1 := l.(m := AfterDisable(l.m, id));
    ReachesSelf(At(b, l), sid, vid, strict);
    DisableReaches(b, id, l, sid, vid, strict);
    if !p.pidOn {
      var v := ToInt32(p.uclampMinHigh);
      SetPidReaches(p, b, id, l1, v, rs.first, sid, vid, strict);
      ReachesTrans(At(b, l), At(b, l1), At(b, SetPid(p, id, l1, v, rs.first)), sid, vid, strict);
    } else if Accepts(l.d, works) {
      var l2 := l1.(d := Recorded(p, l.d, works));
      var l3 := ReportPid(p, id, l2, works, rs.first);
      ReportPidReaches(p, b, id, l2, works, rs.first, sid, vid, strict);
      ReportGpuReaches(p, b, id, l3, works, gpuFrequency, rs.second, sid, vid, strict);
      ReachesTrans(At(b, l), At(b, l2), At(b, l3), sid, vid, strict);
      ReachesTrans(At(b, l), At(b, l3), At(b, ReportGpu(p, id, l3, works, gpuFrequency, rs.second)), sid, vid, strict);
    }
  }

  /** Threads and activity are not part of the protocol. */
  lemma TablesSetThreads(m: Model, id: int, ids: seq<int>, dead: set<int>, on: bool)
    ensures TablesOf(AfterSetThreads(m, id, ids, dead, on)) == TablesOf(m)
  {
  }

  lemma SetThreadsReaches(p: Profile, b: Protocol.State, id: int, l: Local, ids: seq<int>, rs: Readings, sid: int,
                          vid: int, strict: bool)
    requires Quiet(b)
    ensures Reaches(At(b, l), At(b, DoSetThreads(p, id, l, ids, rs).0), sid, vid, strict)
  {
    hide Reaches, SetPid;
    ReachesSelf(At(b, l), sid, vid, strict);
    TablesSetThreads(l.m, id, ids, rs.second.dead, p.uclampMinOn);
    var l' := GiveThreads(p, id, l.(d := l.d.(threadIds := ids)), ids, rs);
    SetPidReaches(p, b, id, l', ToInt32(p.uclampMinInit), rs.third, sid, vid, strict);
  }

  lemma TablesActive(m: Model, id: int, active: bool, dead: set<int>, on: bool)
    ensures TablesOf(SweepModel(WithActive(m, id, active), id, dead, on)) == TablesOf(m)
  {
  }

  lemma QuietCalls(p: Profile, b: Protocol.State, id: int, l: Local, call: Call, rs: Readings)
    requires call.Pause? || call.Resume? || call.SetMode?
    ensures At(b, Do(p, id, l, call, rs).0) == At(b, l)
  {
    hide SweepModel, AfterSetThreads, WithActive, WithValue, ApplyBoth, ApplyTo, KernelAfterSetThreads;
    var on := p.uclampMinOn;
    if call.SetMode? {
      TablesEfficiency(l.m, id, call.enabled, rs.first.dead, on);
    } else {
      var ids, active := if call.Pause? then [] else l.d.threadIds, call.Resume?;
      TablesSetThreads(l.m, id, ids, rs.second.dead, on);
      TablesActive(AfterSetThreads(l.m, id, ids, rs.second.dead, on), id, active, rs.third.dead, on);
    }
  }

  lemma TablesEfficiency(m: Model, id: int, enabled: bool, dead: set<int>, on: bool)
    ensures id in m ==>
              TablesOf(SweepModel(WithValue(m, id, m[id].value.(isPowerEfficient := enabled)), id, dead, on)) ==
                  TablesOf(m)
  {
  }

  /** The call shortens the default vote of session `id` while it is active. */
  predicate ShortensDefault(p: Profile, id: int, l: Local, call: Call) {
    && call.UpdateTarget? && id in l.m && l.m[id].value.votes.IsActive(CPU_VOTE_DEFAULT)
    && p.scaleTarget(call.targetDurationNanos) < l.m[id].value.votes.Timing(CPU_VOTE_DEFAULT).value.durationNs
  }

  /** Right after a vote for the control variable, a new target shortens the vote exactly if it is less
      than the time the vote was cast for, which is usually longer than the target itself. */
  lemma TargetShortensIff(p: Profile, id: int, l: Local, v: int, r: Reading, ns: int)
    requires id in l.m
    ensures ShortensDefault(p, id, SetPid(p, id, l, v, r), UpdateTarget(ns)) <==>
            p.scaleTarget(ns) < PidVoteNs(p, l.d.targetNs)
  {
  }

  lemma TargetReaches(p: Profile, b: Protocol.State, id: int, l: Local, ns: int, sid: int, vid: int, strict: bool)
    requires Quiet(b)
    requires strict && sid == id && vid == CPU_VOTE_DEFAULT ==> !ShortensDefault(p, id, l, UpdateTarget(ns))
    ensures Reaches(At(b, l), At(b, DoUpdateTarget(p, id, l, ns).0), sid, vid, strict)
  {
    var target := p.scaleTarget(ns);
    ReachesSelf(At(b, l), sid, vid, strict);
    ReachesStep(At(b, l), Protocol.UpdateDuration(id, CPU_VOTE_DEFAULT, target), sid, vid, strict);
    if id in l.m {
      TablesWithVotes(l.m, id, l.m[id].value.votes.WithDuration(CPU_VOTE_DEFAULT, target));
    }
  }

  lemma CloseReaches(p: Profile, b: Protocol.State, id: int, l: Local, rs: Readings, sid: int, vid: int, strict: bool)
    requires Quiet(b)
    ensures Reaches(At(b, l), At(b, DoClose(p, id, l, rs).0), sid, vid, strict)
  {
    ReachesSelf(At(b, l), sid, vid, strict);
    ReachesStep(At(b, l), Protocol.RemoveSession(id), sid, vid, strict);
    assert TablesOf(l.m - {id}) == TablesOf(l.m) - {id};
  }

  lemma CallReaches(p: Profile, b: Protocol.State, id: int, l: Local, call: Call, rs: Readings, sid: int, vid: int,
                    strict: bool)
    requires Quiet(b) && Defined(p, l.d, call)
    requires strict && sid == id && vid == CPU_VOTE_DEFAULT ==> !ShortensDefault(p, id, l, call)
    ensures Reaches(At(b, l), At(b, Do(p, id, l, call, rs).0), sid, vid, strict)
  {
    hide Reaches, DoReport, DoSendHint, DoSetThreads, DoClose, DoUpdateTarget;
    match call
    case Close => CloseReaches(p, b, id, l, rs, sid, vid, strict);
    case UpdateTarget(ns) => TargetReaches(p, b, id, l, ns, sid, vid, strict);
    case ReportActual(works, gpuFrequency) => ReportReaches(p, b, id, l, works, gpuFrequency, rs, sid, vid, strict);
    case SendHint(hint) => HintReaches(p, b, id, l, hint, rs, sid, vid, strict);
    case SetThreads(ids) => SetThreadsReaches(p, b, id, l, ids, rs, sid, vid, strict);
    case _ =>
      QuietCalls(p, b, id, l, call, rs);
      ReachesSelf(At(b, l), sid, vid, strict);
  }

  // ---------------------------------------------------------------------------------------------
  // Whole runs
  // ---------------------------------------------------------------------------------------------

  /** The step does not shorten the active default vote of session `sid`. */
  predicate StepSpares(p: Profile, s: System, op: Op, sid: int) {
    op.Invoke? && op.id == sid && sid in s.desc ==>
      !ShortensDefault(p, sid, LocalOf(s, sid), op.call)
  }

  lemma CreateReaches(p: Profile, s: System, op: Op, sid: int, vid: int, strict: bool)
    requires op.Create? && s.lastId + 1 !in s.model
    ensures Reaches(Abs(s), Abs(SessionSystem.Next(p, s, op)), sid, vid, strict)
  {
    hide Reaches, SetCpuVote, KernelAfterSetThreads, ApplyBoth, Protocol.Legal, Protocol.Final, ToInt32;
    var id, rs := s.lastId + 1, op.readings;
    var sv := SessionValue(0, true, op.isAppSession, false, Protocol.NewTable(op.timeNow, op.targetNs));
    var added := AfterAdd(s.model, id, sv);
    var l0 := Local(added, s.queue, s.kernel,
                    Desc(false, true, op.threadIds, op.targetNs, 0, PidState(0, 0), false, []));
    var l := GiveThreads(p, id, l0, op.threadIds, Readings(op.first, rs.first, rs.first));
    var b := Abs(s).(lastSessionId := id);
    assert At(b, l) == Protocol.Next(Abs(s), Protocol.AddSession(op.timeNow, op.targetNs)) by {
      TablesSetThreads(added, id, op.threadIds, rs.first.dead, p.uclampMinOn);
      assert TablesOf(added) == TablesOf(s.model)[id := sv.votes];
    }
    hide Protocol.Next, TablesOf, AfterSetThreads;
    ReachesStep(Abs(s), Protocol.AddSession(op.timeNow, op.targetNs), sid, vid, strict);
    FirstVotesReach(p, b, id, l, rs, sid, vid, strict);
    ReachesTrans(Abs(s), At(b, l), Abs(SessionSystem.Next(p, s, op)), sid, vid, strict);
  }

  lemma FirstVotesReach(p: Profile, b: Protocol.State, id: int, l: Local, rs: Readings, sid: int, vid: int,
                        strict: bool)
    requires Quiet(b)
    ensures var target := l.d.targetNs;
            var l1 := SetCpuVote(p, id, l, CPU_LOAD_RESET, ToInt32(p.uclampMinLoadReset), rs.second,
                                 p.halfStaleNs(target));
            var l2 := SetCpuVote(p, id, l1, CPU_VOTE_DEFAULT, ToInt32(p.uclampMinInit), rs.third, target);
            Reaches(At(b, l), At(b, l2), sid, vid, strict)
  {
    hide Reaches, SetCpuVote;
    var target, v := l.d.targetNs, ToInt32(p.uclampMinLoadReset);
    var l1 := SetCpuVote(p, id, l, CPU_LOAD_RESET, v, rs.second, p.halfStaleNs(target));
    var l2 := SetCpuVote(p, id, l1, CPU_VOTE_DEFAULT, ToInt32(p.uclampMinInit), rs.third, target);
    SetCpuVoteReaches(p, b, id, l, CPU_LOAD_RESET, v, rs.second, p.halfStaleNs(target), sid, vid, strict);
    SetCpuVoteReaches(p, b, id, l1, CPU_VOTE_DEFAULT, ToInt32(p.uclampMinInit), rs.third, target, sid, vid, strict);
    ReachesTrans(At(b, l), At(b, l1), At(b, l2), sid, vid, strict);
  }

  lemma TimeoutReaches(p: Profile, s: System, op: Op, sid: int, vid: int, strict: bool)
    requires op.Timeout? && SessionSystem.Enabled(p, s, op)
    ensures Reaches(Abs(s), Abs(SessionSystem.Next(p, s, op)), sid, vid, strict)
  {
    hide Reaches;
    var a, k := Abs(s), op.index;
    RunNextRefines(a, s.model, k, op.dead, p.uclampMinOn);
    Protocol.WorkerRound(a, k);
    var a1 := Protocol.Next(a, Protocol.Pop(k));
    var a2 := Protocol.Next(a1, Protocol.Sample);
    ReachesStep(a, Protocol.Pop(k), sid, vid, strict);
    ReachesStep(a1, Protocol.Sample, sid, vid, strict);
    ReachesStep(a2, Protocol.Handle, sid, vid, strict);
    ReachesTrans(a, a1, a2, sid, vid, strict);
    ReachesTrans(a, a2, Protocol.Next(a2, Protocol.Handle), sid, vid, strict);
  }

  lemma InvokeReaches(p: Profile, s: System, op: Op, sid: int, vid: int, strict: bool)
    requires op.Invoke? && SessionSystem.Enabled(p, s, op)
    requires strict && vid == CPU_VOTE_DEFAULT ==> StepSpares(p, s, op, sid)
    ensures Reaches(Abs(s), Abs(SessionSystem.Next(p, s, op)), sid, vid, strict)
  {
    hide Reaches, Do, Defined;
    CallReaches(p, Abs(s), op.id, LocalOf(s, op.id), op.call, op.readings, sid, vid, strict);
  }

  lemma StepReaches(p: Profile, s: System, op: Op, sid: int, vid: int, strict: bool)
    requires Sound(p, s, false) && SessionSystem.Enabled(p, s, op)
    requires strict && vid == CPU_VOTE_DEFAULT ==> StepSpares(p, s, op, sid)
    ensures Reaches(Abs(s), Abs(SessionSystem.Next(p, s, op)), sid, vid, strict)
  {
    match op
    case Tick(time) => ReachesStep(Abs(s), Protocol.Tick(time), sid, vid, strict);
    case Create(_, _, _, _, _, _) =>
      assert s.lastId + 1 in s.desc ==> SoundAt(p, s, s.lastId + 1, false);
      CreateReaches(p, s, op, sid, vid, strict);
    case Invoke(_, _, _) => InvokeReaches(p, s, op, sid, vid, strict);
    case Timeout(_, _) => TimeoutReaches(p, s, op, sid, vid, strict);
  }

  /** Every run of the system is a run of the protocol. */
  lemma {:induction false} RunReaches(p: Profile, s: System, ops: seq<Op>, sid: int, vid: int)
    requires Sound(p, s, false) && SessionSystem.Legal(p, s, ops)
    ensures Reaches(Abs(s), Abs(SessionSystem.Final(p, s, ops)), sid, vid, false)
    decreases |ops|
  {
    hide Reaches;
    if ops == [] {
      ReachesSelf(Abs(s), sid, vid, false);
    } else {
      var s' := SessionSystem.Next(p, s, ops[0]);
      StepReaches(p, s, ops[0], sid, vid, false);
      StepSound(p, s, ops[0], false);
      RunReaches(p, s', ops[1..], sid, vid);
      ReachesTrans(Abs(s), Abs(s'), Abs(SessionSystem.Final(p, s', ops[1..])), sid, vid, false);
    }
  }

  /** The vote is in the manager's table of an open session and switched on. */
  predicate VoteActive(s: System, sid: int, vid: int) {
    sid in s.model && s.model[sid].value.votes.IsActive(vid)
  }

  ghost predicate EventQueued(s: System, sid: int, vid: int, bound: int) {
    exists ev :: ev in s.queue && Protocol.Covers(ev, sid, vid, bound)
  }

  function TimeoutIn(s: System, sid: int, vid: int): int {
    if sid in s.model then s.model[sid].value.votes.TimeoutOf(vid) else 0
  }

  // ---------------------------------------------------------------------------------------------
  // By when the event comes
  // ---------------------------------------------------------------------------------------------

  /** The step does not shorten the vote while it is active; only the default vote can be shortened. */
  predicate Spares(p: Profile, s: System, op: Op, sid: int, vid: int) {
    vid != CPU_VOTE_DEFAULT || StepSpares(p, s, op, sid)
  }

  /** By when a timeout event of the vote must come after the step, if it was `b` before: by the vote's
      timeout if the vote has been switched on or brought forward, and otherwise by the later of the
      old time and the timeout. */
  ghost function Due(p: Profile, s: System, op: Op, sid: int, vid: int, b: int): int
    requires SessionSystem.Enabled(p, s, op)
  {
    var s' := SessionSystem.Next(p, s, op);
    var timeout := TimeoutIn(s', sid, vid);
    if !VoteActive(s, sid, vid) || (timeout < TimeoutIn(s, sid, vid) && Spares(p, s, op, sid, vid)) then timeout
    else Max(b, timeout)
  }

  ghost function DueAfter(p: Profile, s: System, ops: seq<Op>, sid: int, vid: int, b: int): int
    requires SessionSystem.Legal(p, s, ops)
    decreases |ops|
  {
    if ops == [] then b
    else DueAfter(p, SessionSystem.Next(p, s, ops[0]), ops[1..], sid, vid, Due(p, s, ops[0], sid, vid, b))
  }

  ghost predicate DueBy(s: System, sid: int, vid: int, b: int) {
    VoteActive(s, sid, vid) ==> TimeoutIn(s, sid, vid) <= b && EventQueued(s, sid, vid, b)
  }

  lemma SameVotes(s: System, sid: int, vid: int)
    ensures VoteActive(s, sid, vid) <==> Protocol.ActiveAt(Abs(s), sid, vid)
    ensures TimeoutIn(s, sid, vid) == Protocol.TimeoutAt(Abs(s), sid, vid)
    ensures forall b :: EventQueued(s, sid, vid, b) <==> Protocol.HasEvent(Abs(s), sid, vid, b)
    ensures forall b :: DueBy(s, sid, vid, b) <==> Protocol.Covered(Abs(s), sid, vid, b)
  {
  }

  /** A step that spares the vote. */
  lemma DueSparedStep(p: Profile, s: System, op: Op, sid: int, vid: int, b: int)
    requires Sound(p, s, false) && SessionSystem.Enabled(p, s, op) && Spares(p, s, op, sid, vid) &&
             DueBy(s, sid, vid, b)
    ensures DueBy(SessionSystem.Next(p, s, op), sid, vid, Due(p, s, op, sid, vid, b))
  {
    hide SessionSystem.Next, SessionSystem.Enabled, Sound, Abs, VoteActive, TimeoutIn, EventQueued, Protocol.Legal,
         Protocol.Final, Protocol.Covered, Protocol.HasEvent;
    StepReaches(p, s, op, sid, vid, true);
    hide Spares;
    var s' := SessionSystem.Next(p, s, op);
    var due := Due(p, s, op, sid, vid, b);
    SameVotes(s, sid, vid);
    SameVotes(s', sid, vid);
    var a, a' := Abs(s), Abs(s');
    var steps :| Protocol.Legal(a, steps) && Protocol.Final(a, steps) == a' &&
        Protocol.NeverShortened(a, steps, sid, vid);
    Protocol.CoveredRun(a, steps, sid, vid, b);
    PromiseWithoutShortening(a, steps, sid, vid, b, b, Protocol.TimeoutAt(a, sid, vid));
    if !Protocol.ActiveAt(a, sid, vid) {
      Protocol.PromiseIsTimeout(a, steps, sid, vid, b);
    }
    if Protocol.ActiveAt(a', sid, vid) {
      Protocol.WiderBound(a', sid, vid, Protocol.PromiseAfter(a, steps, sid, vid, b), due);
    }
  }

  /** A step that shortens the vote: it is a single protocol step. */
  lemma DueShortenedStep(p: Profile, s: System, op: Op, sid: int, vid: int, b: int)
    requires Sound(p, s, false) && SessionSystem.Enabled(p, s, op) && !Spares(p, s, op, sid, vid) &&
             DueBy(s, sid, vid, b)
    ensures DueBy(SessionSystem.Next(p, s, op), sid, vid, Due(p, s, op, sid, vid, b))
  {
  }

  lemma {:induction false} DueRun(p: Profile, s: System, ops: seq<Op>, sid: int, vid: int, b: int)
    requires Sound(p, s, false) && SessionSystem.Legal(p, s, ops) && DueBy(s, sid, vid, b)
    ensures DueBy(SessionSystem.Final(p, s, ops), sid, vid, DueAfter(p, s, ops, sid, vid, b))
    decreases |ops|
  {
    hide DueBy, Due, Sound;
    if ops != [] {
      var op, s' := ops[0], SessionSystem.Next(p, s, ops[0]);
      if Spares(p, s, op, sid, vid) {
        DueSparedStep(p, s, op, sid, vid, b);
      } else {
        DueShortenedStep(p, s, op, sid, vid, b);
      }
      StepSound(p, s, op, false);
      DueRun(p, s', ops[1..], sid, vid, Due(p, s, op, sid, vid, b));
    }
  }

  /** The vote, as long as it is on, has not been shortened since it was last switched on or brought
      forward, given that this was `spared` before the run. */
  ghost predicate Unshortened(p: Profile, s: System, ops: seq<Op>, sid: int, vid: int, spared: bool)
    requires SessionSystem.Legal(p, s, ops)
    decreases |ops|
  {
    if ops == [] then spared
    else
      var op, s' := ops[0], SessionSystem.Next(p, s, ops[0]);
      var anew := !VoteActive(s, sid, vid) || (TimeoutIn(s', sid, vid) < TimeoutIn(s, sid, vid) &&
                                               Spares(p, s, op, sid, vid));
      Unshortened(p, s', ops[1..], sid, vid, anew || (spared && Spares(p, s, op, sid, vid)))
  }

  /** The time is the vote's own timeout in every run that leaves the vote unshortened. */
  lemma {:induction false} DueIsTimeout(p: Profile, s: System, ops: seq<Op>, sid: int, vid: int, b: int, spared: bool)
    requires SessionSystem.Legal(p, s, ops) && Unshortened(p, s, ops, sid, vid, spared)
    requires spared && VoteActive(s, sid, vid) ==> b == TimeoutIn(s, sid, vid)
    ensures var s' := SessionSystem.Final(p, s, ops);
            VoteActive(s', sid, vid) ==> DueAfter(p, s, ops, sid, vid, b) == TimeoutIn(s', sid, vid)
    decreases |ops|
  {
    hide VoteActive, TimeoutIn, Spares;
    if ops != [] {
      var op, s' := ops[0], SessionSystem.Next(p, s, ops[0]);
      var anew := !VoteActive(s, sid, vid) || (TimeoutIn(s', sid, vid) < TimeoutIn(s, sid, vid) &&
                                               Spares(p, s, op, sid, vid));
      DueIsTimeout(p, s', ops[1..], sid, vid, Due(p, s, op, sid, vid, b),
                   anew || (spared && Spares(p, s, op, sid, vid)));
    }
  }

  /** Votes other than the default vote are never shortened. */
  lemma {:induction false} OtherVotesUnshortened(p: Profile, s: System, ops: seq<Op>, sid: int, vid: int)
    requires SessionSystem.Legal(p, s, ops) && vid != CPU_VOTE_DEFAULT
    ensures Unshortened(p, s, ops, sid, vid, true)
    decreases |ops|
  {
    if ops != [] {
      OtherVotesUnshortened(p, SessionSystem.Next(p, s, ops[0]), ops[1..], sid, vid);
    }
  }

  /** A vote that is off at some point of a run is as good as new: what happened before does not count. */
  lemma OffIsForgotten(p: Profile, s: System, ops: seq<Op>, sid: int, vid: int, spared: bool)
    requires SessionSystem.Legal(p, s, ops) && ops != [] && !VoteActive(s, sid, vid)
    ensures Unshortened(p, s, ops, sid, vid, spared) == Unshortened(p, s, ops, sid, vid, true)
  {
  }

  /** In every run of the whole system an active vote of any session has a timeout event in the queue,
      due by a time that is computed along the run. The time is never before the vote's timeout, and
      is the timeout unless the vote is the default vote and has been shortened since it was last
      switched on or brought forward. */
  lemma ActiveVotesWillEnd(p: Profile, clock: int, ops: seq<Op>, sid: int, vid: int)
    requires SessionSystem.Legal(p, SessionSystem.Initial(clock), ops)
    requires VoteActive(SessionSystem.Final(p, SessionSystem.Initial(clock), ops), sid, vid)
    ensures var s0 := SessionSystem.Initial(clock);
            var s := SessionSystem.Final(p, s0, ops);
            var due := DueAfter(p, s0, ops, sid, vid, 0);
            && TimeoutIn(s, sid, vid) <= due && EventQueued(s, sid, vid, due)
            && (vid != CPU_VOTE_DEFAULT || Unshortened(p, s0, ops, sid, vid, true) ==> due == TimeoutIn(s, sid, vid))
  {
    var s0 := SessionSystem.Initial(clock);
    DueRun(p, s0, ops, sid, vid, 0);
    if vid != CPU_VOTE_DEFAULT {
      OtherVotesUnshortened(p, s0, ops, sid, vid);
    }
    if vid != CPU_VOTE_DEFAULT || Unshortened(p, s0, ops, sid, vid, true) {
      DueIsTimeout(p, s0, ops, sid, vid, 0, true);
    }
  }

  /** No event in the queue is due. */
  predicate NothingDue(s: System) {
    forall ev :: ev in s.queue ==> s.clock < ev.deadline
  }

  /** Once no event is due, no vote of any session is active past the computed time, and so none past
      its own timeout but a default vote that has been shortened since it was last switched on or
      brought forward. */
  lemma NoVoteOutlivesItsTime(p: Profile, clock: int, ops: seq<Op>, sid: int, vid: int)
    requires SessionSystem.Legal(p, SessionSystem.Initial(clock), ops)
    requires NothingDue(SessionSystem.Final(p, SessionSystem.Initial(clock), ops))
    ensures var s0 := SessionSystem.Initial(clock);
            var s := SessionSystem.Final(p, s0, ops);
            VoteActive(s, sid, vid) ==>
              && s.clock < DueAfter(p, s0, ops, sid, vid, 0)
              && (vid != CPU_VOTE_DEFAULT || Unshortened(p, s0, ops, sid, vid, true) ==>
                  s.clock < TimeoutIn(s, sid, vid))
  {
    if VoteActive(SessionSystem.Final(p, SessionSystem.Initial(clock), ops), sid, vid) {
      ActiveVotesWillEnd(p, clock, ops, sid, vid);
    }
  }

  /** Exactly which new targets let the default vote of an open session outlive its new timeout: those
      that end it, and find the clock, before the earliest of its events in the queue. */
  lemma NewTargetLeadsToOverdueIff(p: Profile, s: System, id: int, ns: int, rs: Readings)
    requires id in s.desc && !s.desc[id].closed && 0 < ns && VoteActive(s, id, CPU_VOTE_DEFAULT)
    ensures var s' := SessionSystem.Next(p, s, Invoke(id, UpdateTarget(ns), rs));
            var newTimeout := s.model[id].value.votes.Timing(CPU_VOTE_DEFAULT).value.startTime + p.scaleTarget(ns);
            CanBecomeOverdue(Abs(s'), id, CPU_VOTE_DEFAULT) <==>
            AllEventsAfter(Abs(s), id, CPU_VOTE_DEFAULT, Max(newTimeout, s.clock))
  {
    var s' := SessionSystem.Next(p, s, Invoke(id, UpdateTarget(ns), rs));
    var target := p.scaleTarget(ns);
    TablesWithVotes(s.model, id, s.model[id].value.votes.WithDuration(CPU_VOTE_DEFAULT, target));
    assert Abs(s') == Protocol.Next(Abs(s), Protocol.UpdateDuration(id, CPU_VOTE_DEFAULT, target));
    UpdateLeadsToOverdueIff(Abs(s), id, CPU_VOTE_DEFAULT, target);
  }
}
