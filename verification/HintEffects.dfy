/** What hints, new threads and reports do to a session's control variable and to what its threads are
    asked for. */
module HintEffects {
  import opened Arith
  import opened UclampVoter
  import ThreadSweep
  import opened SessionTaskMap
  import opened SessionRecords
  import opened PidControl
  import opened PidOutput
  import opened HeuristicBoost
  import opened SessionModel
  import opened ThreadFloors
  import opened HintSession
  import opened ManagerSteps
  import opened SessionSystem
  import opened ServedVotes

  // ---------------------------------------------------------------------------------------------
  // The control variable
  // ---------------------------------------------------------------------------------------------

  /** A value between the configured floor and the ceiling, which the heuristic boost moves. */
  function Cut(p: Profile, boosted: bool, x: int): int {
    var ceiling := if p.boost.Some? && boosted then p.boost.value.uclampMin else p.uclampMinHigh;
    Max(p.uclampMinLow, Min(ceiling, x))
  }

  /** The next control variable is the old one moved by the output, unless the sum leaves the 32-bit
      range: then it starts again from the other end. */
  lemma NextMinMoves(p: Profile, d: Desc, output: int)
    requires p.InRange() && 0 <= d.pidControlVariable <= UCLAMP_MAX && -0x8000_0000 <= output < 0x1_0000_0000
    ensures var pid := d.pidControlVariable;
            NextMin(p, d, output) ==
            Cut(p, d.boostActive, if pid + output < 0x8000_0000 then pid + output else pid + output - 0x1_0000_0000)
  {
  }

  /** So an output that is not negative never lowers the control variable below its old value, cut to floor
      and ceiling, and one that is not positive never raises it, as long as the sum is in range. */
  lemma OutputHasDirection(p: Profile, d: Desc, output: int)
    requires p.InRange() && 0 <= d.pidControlVariable <= UCLAMP_MAX
    requires -0x8000_0000 <= output && d.pidControlVariable + output < 0x8000_0000
    ensures 0 <= output ==> Cut(p, d.boostActive, d.pidControlVariable) <= NextMin(p, d, output)
    ensures output <= 0 ==> NextMin(p, d, output) <= Cut(p, d.boostActive, d.pidControlVariable)
  {
    NextMinMoves(p, d, output);
  }

  /** Out of range it may be lowered all the way: the least such output leads to the floor. */
  lemma HugeOutputLowers(p: Profile, d: Desc)
    requires p.InRange() && 0 <= d.pidControlVariable <= UCLAMP_MAX
    ensures NextMin(p, d, 0x8000_0000 - d.pidControlVariable) == p.uclampMinLow
  {
    NextMinMoves(p, d, 0x8000_0000 - d.pidControlVariable);
  }

  /** A boost changes the ceiling and the under-gain of the controller, and nothing else of it. */
  lemma BoostScalesGain(p: Profile, d: Desc, works: seq<WorkDuration>)
    requires works != [] && To100us(d.targetNs) != 0
    ensures var errs, dt := Errors(Durations(works), d.targetNs), To100us(d.targetNs);
            var gain := if p.boost.Some? && d.boostActive then Times(p.pidPu, p.boost.value.pidPuFactor)
                        else p.pidPu;
            Controlled(p, d, works) == (StateAfter(p.pid, errs, dt, d.pidState),
                                        OutputFor(p.pid, gain, errs, dt, d.pidState))
  {
    hide Times, StateAfter, TermsOf, Output, To100us;
  }

  /** A report of frames that all miss their target never lowers the control variable, with gains that are
      not negative, an integral that is not negative and an error that does not fall; a report of frames
      that all meet it, with the reverse, never raises it. Without the controller the variable is the
      configured maximum. */
  lemma LateReportKeepsBoost(p: Profile, d: Desc, works: seq<WorkDuration>)
    requires works != [] && ArithmeticDefined(p, d, works) && p.InRange() && 0 <= d.pidControlVariable <= UCLAMP_MAX
    ensures !p.pidOn ==> ReportedMin(p, d, works) == p.uclampMinHigh
    ensures p.pidOn ==>
              var d' := Recorded(p, d, works);
              var output := Controlled(p, d', works).1;
              var errs := Errors(Durations(works), d.targetNs);
              var derivative := TermsOf(p.pid, errs, d.pidState).derivativeSum;
              var late := forall i :: 0 <= i < |works| ==> d.targetNs <= works[i].durationNanos;
              var early := forall i :: 0 <= i < |works| ==> works[i].durationNanos <= d.targetNs;
              GainsFine(p.pid, PidPu(p, d'.boostActive)) && 0 < To100us(d.targetNs) &&
              p.pid.pidILowDivI <= 0 <= p.pid.pidIHighDivI && -0x8000_0000 <= output < 0x8000_0000 - UCLAMP_MAX ==>
                && (late && 0 <= d.pidState.integralError && 0 <= derivative ==>
                      Cut(p, d'.boostActive, d.pidControlVariable) <= ReportedMin(p, d, works))
                && (early && d.pidState.integralError <= 0 && derivative <= 0 ==>
                      ReportedMin(p, d, works) <= Cut(p, d'.boostActive, d.pidControlVariable))
  {
    hide Errors, StateAfter, TermsOf, Output, NextMin, Judge, History, To100us, Cut;
    if p.pidOn {
      var d' := Recorded(p, d, works);
      RecordedKeeps(p, d, works);
      BoostScalesGain(p, d', works);
      var output := Controlled(p, d', works).1;
      var gain := PidPu(p, d'.boostActive);
      if -0x8000_0000 <= output < 0x8000_0000 - UCLAMP_MAX {
        OutputHasDirection(p, d', output);
      }
      if GainsFine(p.pid, gain) && 0 < To100us(d.targetNs) && p.pid.pidILowDivI <= 0 <= p.pid.pidIHighDivI {
        LateFramesRaise(p.pid, gain, Durations(works), d.targetNs, To100us(d.targetNs), d.pidState);
      }
    }
  }

  lemma RecordedKeeps(p: Profile, d: Desc, works: seq<WorkDuration>)
    requires works != [] && p.pidOn && ArithmeticDefined(p, d, works)
    ensures var d' := Recorded(p, d, works);
            d'.targetNs == d.targetNs && d'.pidControlVariable == d.pidControlVariable && d'.pidState == d.pidState
  {
  }

  // ---------------------------------------------------------------------------------------------
  // Hints and new threads
  // ---------------------------------------------------------------------------------------------

  /** A CPU vote enters the session's table, and nothing else in it changes. */
  lemma CastMeans(p: Profile, id: int, l: Local, voteId: int, v: int, r: Reading, durationNs: int)
    requires id in l.m && !IsGpuVote(voteId)
    ensures var l' := SetCpuVote(p, id, l, voteId, v, r, durationNs);
            && id in l'.m && l'.d == l.d
            && l'.m[id].value.votes == l.m[id].value.votes.AddCpu(voteId, Vote(r.now, durationNs, v))
            && l'.m[id].value.isActive == l.m[id].value.isActive
  {
  }

  /** Some vote of the session asks for `level` at every time from `start` on for `durationNs`. */
  ghost predicate AsksDuring(m: Model, id: int, level: int, start: int, durationNs: int) {
    forall t, x :: start <= t <= start + durationNs && Speaks(m, id, x) ==> Level(level) <= FloorOf(m, x, t)
  }

  lemma VoteAsks(m: Model, id: int, v: int, level: int, start: int, durationNs: int)
    requires id in m && v in m[id].value.votes.cpu && m[id].value.votes.cpu[v] == Vote(start, durationNs, level)
    ensures AsksDuring(m, id, level, start, durationNs)
  {
    forall t, x | start <= t <= start + durationNs && Speaks(m, id, x)
      ensures Level(level) <= FloorOf(m, x, t)
    {
      var votes := m[id].value.votes;
      assert votes.cpu[v].timing.IsTimeInRange(t);
      assert level in votes.LiveMins(t);
      assert level in LiveAsked(m, x, t);
    }
  }

  /** What each hint asks for, and for how long: its vote ends when that time is over. The threads of the
      session are clamped at least that high whenever the votes are applied in that time. Of the CPU hints,
      lowering the load sets the control variable to the configured minimum and asks for that; a reset never
      lowers the control variable, and leaves it at least at its initial value. */
  lemma HintAsks(p: Profile, id: int, l: Local, hint: SessionHint, rs: Readings)
    requires p.InRange() && id in l.m && !l.d.closed && l.d.targetNs != 0
    requires 0 <= l.d.pidControlVariable <= UCLAMP_MAX
    ensures var (l', status) := DoSendHint(p, id, l, hint, rs);
            var target, pid, pid' := l.d.targetNs, l.d.pidControlVariable, l'.d.pidControlVariable;
            && id in l'.m && (status == Ok <==> hint != UnknownHint)
            && match hint
               case CpuLoadUp =>
                 && AsksDuring(l'.m, id, p.uclampMinLoadUp, rs.second.now, 2 * target) && pid' == pid
                 && l'.m[id].value.votes.TimeoutOf(CPU_LOAD_UP) == rs.second.now + 2 * target
                 && AsksDuring(l'.m, id, pid, rs.first.now, PidVoteNs(p, target))
               case CpuLoadDown =>
                 && pid' == p.uclampMinLow && CPU_VOTE_DEFAULT in l'.m[id].value.votes.cpu
                 && l'.m[id].value.votes.cpu[CPU_VOTE_DEFAULT] == Vote(rs.first.now, PidVoteNs(p, target), pid')
               case CpuLoadReset =>
                 && AsksDuring(l'.m, id, p.uclampMinLoadReset, rs.first.now, p.halfStaleNs(target))
                 && l'.m[id].value.votes.TimeoutOf(CPU_LOAD_RESET) == rs.first.now + p.halfStaleNs(target)
                 && pid <= pid' && p.uclampMinInit <= pid' && (pid' == pid || pid' == p.uclampMinInit)
               case CpuLoadResume =>
                 && AsksDuring(l'.m, id, pid, rs.first.now, p.halfStaleNs(target)) && pid' == pid
                 && l'.m[id].value.votes.TimeoutOf(CPU_LOAD_RESUME) == rs.first.now + p.halfStaleNs(target)
               case GpuLoadUp =>
                 && GPU_LOAD_UP in l'.m[id].value.votes.gpu && pid' == pid
                 && l'.m[id].value.votes.gpu[GPU_LOAD_UP] ==
                    GpuVote(VoteRange(true, rs.first.now, target), p.gpuLoadUpHeadroom)
               case _ => l' == l
  {
    hide SetCpuVote, AsksDuring, PidVoteNs;
    var target, pid := l.d.targetNs, l.d.pidControlVariable;
    match hint
    case CpuLoadUp =>
      var l1 := SetPid(p, id, l, pid, rs.first);
      CastMeans(p, id, l.(d := l.d.(pidControlVariable := pid)), CPU_VOTE_DEFAULT, pid, rs.first, PidVoteNs(p, target));
      CastMeans(p, id, l1, CPU_LOAD_UP, p.uclampMinLoadUp, rs.second, target * 2);
      var l2 := SetCpuVote(p, id, l1, CPU_LOAD_UP, p.uclampMinLoadUp, rs.second, target * 2);
      VoteAsks(l2.m, id, CPU_LOAD_UP, p.uclampMinLoadUp, rs.second.now, target * 2);
      VoteAsks(l2.m, id, CPU_VOTE_DEFAULT, pid, rs.first.now, PidVoteNs(p, target));
    case CpuLoadDown =>
      CastMeans(p, id, l.(d := l.d.(pidControlVariable := p.uclampMinLow)), CPU_VOTE_DEFAULT, p.uclampMinLow, rs.first,
                PidVoteNs(p, target));
    case CpuLoadReset =>
      var l1 := l.(d := l.d.(pidControlVariable := Max(p.uclampMinInit, pid)));
      CastMeans(p, id, l1, CPU_LOAD_RESET, p.uclampMinLoadReset, rs.first, p.halfStaleNs(target));
      VoteAsks(SetCpuVote(p, id, l1, CPU_LOAD_RESET, p.uclampMinLoadReset, rs.first, p.halfStaleNs(target)).m, id,
               CPU_LOAD_RESET, p.uclampMinLoadReset, rs.first.now, p.halfStaleNs(target));
    case CpuLoadResume =>
      CastMeans(p, id, l, CPU_LOAD_RESUME, pid, rs.first, p.halfStaleNs(target));
      VoteAsks(SetCpuVote(p, id, l, CPU_LOAD_RESUME, pid, rs.first, p.halfStaleNs(target)).m, id, CPU_LOAD_RESUME, pid,
               rs.first.now, p.halfStaleNs(target));
    case _ =>
  }

  /** New threads start with the configured initial control variable. */
  lemma NewThreadsStartAfresh(p: Profile, id: int, l: Local, ids: seq<int>, rs: Readings)
    requires p.InRange() && id in l.m && !l.d.closed && ids != []
    ensures var (l', status) := DoSetThreads(p, id, l, ids, rs);
            && status == Ok && id in l'.m && l'.d == l.d.(threadIds := ids, pidControlVariable := p.uclampMinInit)
            && AsksDuring(l'.m, id, p.uclampMinInit, rs.third.now, PidVoteNs(p, l.d.targetNs))
  {
    hide SetCpuVote, AsksDuring, PidVoteNs, KernelAfterSetThreads, ThreadSweep.Alive;
    var l1 := GiveThreads(p, id, l.(d := l.d.(threadIds := ids)), ids, rs);
    var l2 := l1.(d := l1.d.(pidControlVariable := p.uclampMinInit));
    CastMeans(p, id, l2, CPU_VOTE_DEFAULT, p.uclampMinInit, rs.third, PidVoteNs(p, l.d.targetNs));
    VoteAsks(SetCpuVote(p, id, l2, CPU_VOTE_DEFAULT, p.uclampMinInit, rs.third, PidVoteNs(p, l.d.targetNs)).m, id,
             CPU_VOTE_DEFAULT, p.uclampMinInit, rs.third.now, PidVoteNs(p, l.d.targetNs));
  }

  // ---------------------------------------------------------------------------------------------
  // Refused calls and new targets
  // ---------------------------------------------------------------------------------------------

  /** What a call needs of the session's state. */
  predicate StateAllows(d: Desc, call: Call) {
    match call
    case Pause => d.isActive
    case Resume => !d.isActive
    case ReportActual(works, _) => d.targetNs != 0 && (works != [] ==> d.isActive)
    case SendHint(_) => d.targetNs != 0
    case _ => true
  }

  /** What a call needs of its arguments. */
  predicate ArgumentsAllow(call: Call) {
    match call
    case UpdateTarget(ns) => ns > 0
    case ReportActual(works, _) => works != []
    case SendHint(hint) => hint != UnknownHint
    case SetThreads(ids) => ids != []
    case SetMode(mode, _) => mode != UnknownMode
    case _ => true
  }

  /** A call is refused exactly for a closed session, a state it is not for, or arguments that are not
      allowed, and then changes nothing. The session's state is looked at first, except that an empty report
      of a paused session is refused for its arguments. */
  lemma RefusedCallsChangeNothing(p: Profile, id: int, l: Local, call: Call, rs: Readings)
    requires Defined(p, l.d, call)
    ensures var (l', status) := Do(p, id, l, call, rs);
            && (status == IllegalState <==> l.d.closed || !StateAllows(l.d, call))
            && (status == IllegalArgument <==> !l.d.closed && StateAllows(l.d, call) && !ArgumentsAllow(call))
            && (status != Ok ==> l' == l)
  {
    hide GiveThreads, Activate, SetPid, SetCpuVote, SetGpuVote, ReportPid, ReportGpu, Recorded, Prefer,
         ArithmeticDefined, GpuDefined, ToInt32, AfterDisable, AfterDuration, ApplyBoth, WithActive;
  }

  /** A new target is the wanted one after scaling. It also becomes the length of the default vote, so that
      the vote now ends that long after its start, and everything else stays. */
  lemma NewTargetMovesDefaultVote(p: Profile, id: int, l: Local, ns: int)
    requires id in l.m && !l.d.closed && ns > 0 && CPU_VOTE_DEFAULT in l.m[id].value.votes.cpu
    ensures var (l', status) := DoUpdateTarget(p, id, l, ns);
            && status == Ok && l'.d == l.d.(targetNs := p.scaleTarget(ns)) && l'.m.Keys == l.m.Keys
            && l'.queue == l.queue && l'.kernel == l.kernel
            && (forall o :: o in l.m && o != id ==> l'.m[o] == l.m[o])
            && var sv, sv' := l.m[id].value, l'.m[id].value;
               && sv' == sv.(votes := sv'.votes) && sv'.votes.gpu == sv.votes.gpu
               && (forall v :: v in sv.votes.cpu && v != CPU_VOTE_DEFAULT ==>
                     v in sv'.votes.cpu && sv'.votes.cpu[v] == sv.votes.cpu[v])
               && CPU_VOTE_DEFAULT in sv'.votes.cpu
               && var t, t' := sv.votes.cpu[CPU_VOTE_DEFAULT].timing, sv'.votes.cpu[CPU_VOTE_DEFAULT].timing;
                  t'.startTime == t.startTime && t'.active == t.active && t'.durationNs == p.scaleTarget(ns)
  {
  }
}
