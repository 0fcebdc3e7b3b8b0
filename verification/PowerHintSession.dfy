/** A hint session as its client calls it (PowerHintSession.cpp): the calls, in the order of their
    steps, on the manager and on the session's own records. Each is proved to do what the plain
    description of the call in `HintSession` says. */
module PowerHintSession {
  import opened Arith
  import opened UclampVoter
  import opened SessionRecords
  import opened PidControl
  import opened GpuCapacity
  import opened HeuristicBoost
  import opened PowerSessionManager
  import opened SessionModel
  import opened ThreadFloors
  import opened HintSession
  import Protocol = TimeoutProtocol

  class PowerHintSession {
    const manager: PowerSessionManager
    const sessionId: int
    const profile: Profile
    const records: SessionRecords?

    var sessionClosed: bool
    var isActive: bool
    var threadIds: seq<int>
    var targetNs: int
    var pidControlVariable: int
    var integralError: int
    var previousError: int
    var heuristicBoostActive: bool

    /** The records are kept exactly if the heuristic boost is configured. */
    ghost predicate RecordsValid()
      reads records, if records == null then {} else {records.records}
    {
      if profile.boost.None? then records == null
      else records != null && records.Valid() && records.maxNumOfRecords == profile.boost.value.maxRecords &&
           records.isJank == profile.boost.value.isJank
    }

    ghost predicate Valid()
      reads manager, manager.sessionTaskMap, manager.worker, records,
               if records == null then {} else {records.records}
      ensures Valid() ==> manager.Valid() && RecordsValid()
    {
      && manager.Valid() && manager.config.uclampMinOn == profile.uclampMinOn && manager.GpuOn() == profile.gpuNodeOn
      && profile.Valid() && RecordsValid()
    }

    ghost function Reports(): seq<Report>
      reads records
    {
      if records == null then [] else records.reports
    }

    ghost function Descriptor(): Desc
      reads this, records
    {
      Desc(sessionClosed, isActive, threadIds, targetNs, pidControlVariable, PidState(integralError, previousError),
           heuristicBoostActive, Reports())
    }

    ghost function View(): Local
      requires manager.Valid()
      reads this, manager, manager.sessionTaskMap, manager.worker, records
    {
      Local(manager.GetModel(), manager.Events(), manager.GetKernel(), Descriptor())
    }

    constructor (manager: PowerSessionManager, sessionId: int, profile: Profile, jankCheckTimeFactor: real,
                 isAppSession: bool, threadIds: seq<int>, durationNs: int, timeNow: int, r: Reading, rs: Readings)
      requires manager.Valid() && profile.Valid()
      requires manager.config.uclampMinOn == profile.uclampMinOn && manager.GpuOn() == profile.gpuNodeOn
      requires profile.boost.Some? ==> profile.boost.value.isJank == JankTestFor(jankCheckTimeFactor)
      modifies manager, manager.sessionTaskMap, manager.worker
      ensures Valid() && this.manager == manager && this.sessionId == sessionId && this.profile == profile
      ensures View() ==
              Created(profile, sessionId, old(manager.GetModel()), old(manager.Events()), old(manager.GetKernel()),
                      threadIds, durationNs, isAppSession, timeNow, r, rs)
    {
      hide SessionRecords.Valid, JankTestFor, PowerSessionManager.Valid, PowerSessionManager.GetModel,
           PowerSessionManager.Events, PowerSessionManager.GetKernel, Created, ToInt32;
      this.manager := manager;
      this.sessionId := sessionId;
      this.profile := profile;
      sessionClosed, isActive, targetNs := false, true, durationNs;
      this.threadIds := threadIds;
      pidControlVariable, integralError, previousError, heuristicBoostActive := 0, 0, 0, false;
      var sessionRecords: SessionRecords? := null;
      if profile.boost.Some? {
        sessionRecords := new SessionRecords(profile.boost.value.maxRecords, jankCheckTimeFactor);
      }
      records := sessionRecords;
      new;
      assert RecordsValid();
      hide RecordsValid;
      Register(isAppSession, timeNow, r, rs);
    }

    /** The descriptor of a new session. */
    ghost predicate IsNew()
      reads this, records
    {
      Descriptor() == Desc(false, true, threadIds, targetNs, 0, PidState(0, 0), false, [])
    }

    /** Makes a new session known to the manager and casts its first votes. */
    method Register(isAppSession: bool, timeNow: int, r: Reading, rs: Readings)
      requires Valid() && IsNew()
      modifies manager, manager.sessionTaskMap, manager.worker
      ensures Valid()
      ensures View() ==
              Created(profile, sessionId, old(manager.GetModel()), old(manager.Events()), old(manager.GetKernel()),
                      threadIds, targetNs, isAppSession, timeNow, r, rs)
    {
      hide RecordsValid, PowerSessionManager.Valid, PowerSessionManager.GetModel, PowerSessionManager.Events,
           PowerSessionManager.GetKernel,
           PowerSessionManager.ClampsFollow, PowerSessionManager.GpuFollows, PowerSessionManager.Others,
           AfterSetThreads, KernelAfterSetThreads, AfterAdd, SetCpuVote, ToInt32, Protocol.NewTable;
      manager.AddPowerSession(sessionId, true, isAppSession, targetNs, threadIds, timeNow, r.now, rs.first.now, r.dead,
                              rs.first.dead);
      CastCpuVote(CPU_LOAD_RESET, ToInt32(profile.uclampMinLoadReset), rs.second, profile.halfStaleNs(targetNs));
      CastCpuVote(CPU_VOTE_DEFAULT, ToInt32(profile.uclampMinInit), rs.third, targetNs);
    }

    /** Sets one of the session's CPU votes, always with the highest upper clamp. */
    method CastCpuVote(voteId: int, uclampMin: int, r: Reading, durationNs: int)
      requires Valid()
      modifies manager, manager.sessionTaskMap, manager.worker
      ensures Valid()
      ensures View() == SetCpuVote(profile, sessionId, old(View()), voteId, uclampMin, r, durationNs)
    {
      hide RecordsValid, PowerSessionManager.Valid, PowerSessionManager.GetModel, PowerSessionManager.Events,
           PowerSessionManager.GetKernel,
           PowerSessionManager.ClampsFollow, SweepModel, ApplyTo, AfterVote, EventsOfVote;
      manager.VoteSet(sessionId, voteId, uclampMin, UCLAMP_MAX, r.now, durationNs, r.dead);
    }

    method CastGpuVote(voteId: int, capacity: int, r: Reading, durationNs: int)
      requires Valid()
      modifies manager, manager.sessionTaskMap, manager.worker
      ensures Valid()
      ensures View() == SetGpuVote(profile, sessionId, old(View()), voteId, capacity, r, durationNs)
    {
      hide RecordsValid, PowerSessionManager.Valid, PowerSessionManager.GetModel, PowerSessionManager.Events,
           PowerSessionManager.GetKernel, PowerSessionManager.GpuFollows, AfterVote, EventsOfVote;
      manager.GpuVoteSet(sessionId, voteId, capacity, r.now, durationNs);
    }

    /** Sets the control variable and, if `updateVote`, makes it the session's vote. */
    method UpdatePidControlVariable(v: int, updateVote: bool, r: Reading)
      requires Valid()
      modifies this`pidControlVariable, manager, manager.sessionTaskMap, manager.worker
      ensures Valid()
      ensures View() == if updateVote then SetPid(profile, sessionId, old(View()), v, r)
                        else old(View()).(d := old(View()).d.(pidControlVariable := v))
    {
      hide RecordsValid, PowerSessionManager.Valid, PowerSessionManager.GetModel, PowerSessionManager.Events,
           PowerSessionManager.GetKernel, SetCpuVote;
      pidControlVariable := v;
      if updateVote {
        CastCpuVote(CPU_VOTE_DEFAULT, v, r, Max(profile.staleNs(targetNs), profile.reportingRateLimitNs * 2));
      }
    }

    method Pause(rs: Readings) returns (status: Status)
      requires Valid()
      modifies this`isActive, manager, manager.sessionTaskMap
      ensures Valid()
      ensures (View(), status) == DoPause(profile, sessionId, old(View()), rs)
    {
      hide RecordsValid, PowerSessionManager.Valid, PowerSessionManager.GetModel, PowerSessionManager.Events,
           PowerSessionManager.GetKernel,
           PowerSessionManager.ClampsFollow, PowerSessionManager.GpuFollows, PowerSessionManager.Others,
           AfterSetThreads, KernelAfterSetThreads, ApplyBoth, ApplyTo, SweepModel, WithActive, WithVotes, SetVote;
      if sessionClosed {
        return IllegalState;
      }
      if !isActive {
        return IllegalState;
      }
      manager.SetThreadsFromPowerSession(sessionId, [], rs.first.now, rs.second.now, rs.first.dead, rs.second.dead);
      isActive := false;
      manager.Pause(sessionId, rs.third.now, rs.third.dead);
      return Ok;
    }

    method Resume(rs: Readings) returns (status: Status)
      requires Valid()
      modifies this`isActive, manager, manager.sessionTaskMap
      ensures Valid()
      ensures (View(), status) == DoResume(profile, sessionId, old(View()), rs)
    {
      hide RecordsValid, PowerSessionManager.Valid, PowerSessionManager.GetModel, PowerSessionManager.Events,
           PowerSessionManager.GetKernel,
           PowerSessionManager.ClampsFollow, PowerSessionManager.GpuFollows, PowerSessionManager.Others,
           AfterSetThreads, KernelAfterSetThreads, ApplyBoth, ApplyTo, SweepModel, WithActive, WithVotes, SetVote;
      if sessionClosed {
        return IllegalState;
      }
      if isActive {
        return IllegalState;
      }
      manager.SetThreadsFromPowerSession(sessionId, threadIds, rs.first.now, rs.second.now, rs.first.dead,
                                         rs.second.dead);
      isActive := true;
      manager.Resume(sessionId, rs.third.now, rs.third.dead);
      return Ok;
    }

    method Close(rs: Readings) returns (status: Status)
      requires Valid()
      modifies this`sessionClosed, this`isActive, manager, manager.sessionTaskMap
      ensures Valid()
      ensures (View(), status) == DoClose(profile, sessionId, old(View()), rs)
    {
      hide RecordsValid, PowerSessionManager.Valid, PowerSessionManager.GetModel, PowerSessionManager.Events,
           PowerSessionManager.GetKernel,
           PowerSessionManager.ClampsFollow, PowerSessionManager.GpuFollows, PowerSessionManager.Others,
           AfterSetThreads, KernelAfterSetThreads, ApplyBoth, ApplyTo, SweepModel, WithActive, WithVotes, SetVote;
      if sessionClosed {
        return IllegalState;
      }
      sessionClosed := true;
      manager.RemovePowerSession(sessionId, rs.first.now, rs.first.dead);
      isActive := false;
      return Ok;
    }

    method UpdateTargetWorkDuration(targetDurationNanos: int) returns (status: Status)
      requires Valid()
      modifies this`targetNs, manager.sessionTaskMap
      ensures Valid()
      ensures (View(), status) == DoUpdateTarget(profile, sessionId, old(View()), targetDurationNanos)
    {
      hide RecordsValid, PowerSessionManager.Valid, PowerSessionManager.GetModel, PowerSessionManager.Events,
           PowerSessionManager.GetKernel,
           PowerSessionManager.ClampsFollow, PowerSessionManager.GpuFollows, PowerSessionManager.Others,
           AfterSetThreads, KernelAfterSetThreads, ApplyBoth, ApplyTo, SweepModel, WithActive, WithVotes, SetVote;
      if sessionClosed {
        return IllegalState;
      }
      if targetDurationNanos <= 0 {
        return IllegalArgument;
      }
      targetNs := profile.scaleTarget(targetDurationNanos);
      manager.UpdateTargetWorkDuration(sessionId, CPU_VOTE_DEFAULT, targetNs);
      return Ok;
    }

    method SetThreads(ids: seq<int>, rs: Readings) returns (status: Status)
      requires Valid()
      modifies this`threadIds, this`pidControlVariable, manager, manager.sessionTaskMap, manager.worker
      ensures Valid()
      ensures (View(), status) == DoSetThreads(profile, sessionId, old(View()), ids, rs)
    {
      hide RecordsValid, PowerSessionManager.Valid, PowerSessionManager.GetModel, PowerSessionManager.Events,
           PowerSessionManager.GetKernel,
           PowerSessionManager.ClampsFollow, PowerSessionManager.GpuFollows, PowerSessionManager.Others,
           AfterSetThreads, KernelAfterSetThreads, ApplyBoth, ApplyTo, SweepModel, WithActive, WithVotes, SetVote;
      if sessionClosed {
        return IllegalState;
      }
      if ids == [] {
        return IllegalArgument;
      }
      threadIds := ids;
      manager.SetThreadsFromPowerSession(sessionId, ids, rs.first.now, rs.second.now, rs.first.dead, rs.second.dead);
      UpdatePidControlVariable(ToInt32(profile.uclampMinInit), true, rs.third);
      return Ok;
    }

    method SetMode(mode: SessionMode, enabled: bool, rs: Readings) returns (status: Status)
      requires Valid()
      modifies manager, manager.sessionTaskMap
      ensures Valid()
      ensures (View(), status) == DoSetMode(profile, sessionId, old(View()), mode, enabled, rs)
    {
      hide RecordsValid, PowerSessionManager.Valid, PowerSessionManager.GetModel, PowerSessionManager.Events,
           PowerSessionManager.GetKernel, PowerSessionManager.ClampsFollow, SweepModel, ApplyBoth, ApplyTo, WithValue;
      if sessionClosed {
        return IllegalState;
      }
      if mode == UnknownMode {
        return IllegalArgument;
      }
      manager.SetPreferPowerEfficiency(sessionId, enabled, rs.first.now, rs.first.dead);
      return Ok;
    }

    method SendHint(hint: SessionHint, rs: Readings) returns (status: Status)
      requires Valid()
      modifies this`pidControlVariable, manager, manager.sessionTaskMap, manager.worker
      ensures Valid()
      ensures (View(), status) == DoSendHint(profile, sessionId, old(View()), hint, rs)
    {
      hide RecordsValid, PowerSessionManager.Valid, PowerSessionManager.GetModel, PowerSessionManager.Events,
           PowerSessionManager.GetKernel, SetCpuVote, SetGpuVote, SetPid, ToInt32, ToUint32;
      if sessionClosed {
        return IllegalState;
      }
      if targetNs == 0 {
        return IllegalState;
      }
      match hint {
      case CpuLoadUp =>
        UpdatePidControlVariable(pidControlVariable, true, rs.first);
        CastCpuVote(CPU_LOAD_UP, ToInt32(profile.uclampMinLoadUp), rs.second, targetNs * 2);
      case CpuLoadDown =>
        UpdatePidControlVariable(ToInt32(profile.uclampMinLow), true, rs.first);
      case CpuLoadReset =>
        UpdatePidControlVariable(ToInt32(Max(profile.uclampMinInit, ToUint32(pidControlVariable))), false, rs.first);
        CastCpuVote(CPU_LOAD_RESET, ToInt32(profile.uclampMinLoadReset), rs.first, profile.halfStaleNs(targetNs));
      case CpuLoadResume =>
        CastCpuVote(CPU_LOAD_RESUME, pidControlVariable, rs.first, profile.halfStaleNs(targetNs));
      case GpuLoadUp =>
        CastGpuVote(GPU_LOAD_UP, profile.gpuLoadUpHeadroom, rs.first, targetNs);
      case GpuLoadDown =>
      case GpuLoadReset =>
      case UnknownHint =>
        return IllegalArgument;
      }
      return Ok;
    }

    /** The ratio of the longest to the average duration of the last reports. */
    method MaxToAvgRatio() returns (ratio: int)
      requires RecordsValid() && profile.boost.Some? && profile.Valid() && Reports() != []
      requires Average(records.Stats(), profile.boost.value.maxRecords) != 0
      ensures var h := records.Stats();
              ratio == TruncDiv(MaxUs(h, WindowStart(|h|, profile.boost.value.maxRecords), |h|),
                                Average(h, profile.boost.value.maxRecords))
    {
      hide MaxUs, SumUs, IsMaxDuration, TruncDiv, SessionRecords.Describes, SessionRecords.RecordsReports;
      var maxDurationUs := records.GetMaxDuration();
      var avgDurationUs := records.GetAvgDuration();
      ghost var h := records.Stats();
      records.StartOfWindow();
      TheMaximum(h, records.Start(), |h|, maxDurationUs.value);
      ratio := TruncDiv(maxDurationUs.value, avgDurationUs.value);
    }

    /** Turns the heuristic boost on or off by the statistics of the last reports. */
    method UpdateHeuristicBoost() returns (active: bool)
      requires RecordsValid() && profile.boost.Some? && profile.Valid() && Reports() != []
      requires Average(records.Stats(), profile.boost.value.maxRecords) != 0
      modifies this`heuristicBoostActive
      ensures active == heuristicBoostActive ==
              Apply(Judge(profile.boost.value, records.Stats()), old(heuristicBoostActive))
    {
      hide MaxUs, Average, CountMissed, LowFrameRate, TruncDiv, SessionRecords.Describes, SessionRecords.RecordsReports;
      var cfg := profile.boost.value;
      var maxToAvgRatio := MaxToAvgRatio();
      var numOfMissedCycles := records.GetNumOfMissedCycles();
      var lowFrameRate := records.IsLowFrameRate(cfg.lowFps);
      records.StartOfWindow();
      if lowFrameRate {
        heuristicBoostActive := false;
      } else if numOfMissedCycles >= cfg.onMissed {
        heuristicBoostActive := true;
      } else if numOfMissedCycles <= cfg.offMissed && maxToAvgRatio as real < cfg.offRatio {
        heuristicBoostActive := false;
      }
      return heuristicBoostActive;
    }

    /** Runs the controller over a batch. */
    method ConvertWorkDurationToBoostByPid(works: seq<WorkDuration>) returns (output: int)
      requires works != [] && To100us(targetNs) != 0
      modifies this`integralError, this`previousError
      ensures (PidState(integralError, previousError), output) == Controlled(profile, old(Descriptor()), works)
    {
      hide StateAfter, TermsOf, Output, Errors, To100us;
      ghost var d := Descriptor();
      var dt := To100us(targetNs);
      var st, terms := Accumulate(profile.pid, Durations(works), targetNs, dt, PidState(integralError, previousError));
      integralError, previousError := st.integralError, st.previousError;
      var pidPu := profile.pidPu;
      if profile.boost.Some? {
        pidPu := if heuristicBoostActive then profile.pidPu * profile.boost.value.pidPuFactor else profile.pidPu;
      }
      assert pidPu == PidPu(profile, d.boostActive);
      output := Output(profile.pid, pidPu, |works|, dt, terms, integralError);
      assert st == Controlled(profile, d, works).0;
    }

    /** Enters a batch into the records and lets them decide about the boost. */
    method Record(works: seq<WorkDuration>)
      requires Valid() && works != [] && profile.pidOn && ArithmeticDefined(profile, Descriptor(), works)
      modifies this`heuristicBoostActive, records, if records == null then {} else {records.records}
      ensures Valid() && Descriptor() == Recorded(profile, old(Descriptor()), works)
    {
      hide PowerSessionManager.Valid, SessionRecords.Valid, Average, Judge, History, To100us;
      if profile.boost.Some? {
        records.AddReportedDurations(works, targetNs);
        var _ := UpdateHeuristicBoost();
      }
    }

    /** Moves the control variable by the controller's output and votes for it. */
    method Control(works: seq<WorkDuration>, r: Reading)
      requires Valid() && works != [] && To100us(targetNs) != 0
      modifies this`pidControlVariable, this`integralError, this`previousError, manager, manager.sessionTaskMap,
               manager.worker
      ensures Valid()
      ensures View() == ReportPid(profile, sessionId, old(View()), works, r)
    {
      hide RecordsValid, PowerSessionManager.Valid, PowerSessionManager.GetModel, PowerSessionManager.Events,
           PowerSessionManager.GetKernel, SetPid, Controlled, ToInt32;
      ghost var d := Descriptor();
      var output := ConvertWorkDurationToBoostByPid(works);
      var uclampMinCeiling := profile.uclampMinHigh;
      if profile.boost.Some? {
        uclampMinCeiling := if heuristicBoostActive then profile.boost.value.uclampMin else profile.uclampMinHigh;
      }
      var nextMin := Min(ToInt32(uclampMinCeiling), ToInt32(pidControlVariable + ToInt32(output)));
      nextMin := Max(ToInt32(profile.uclampMinLow), nextMin);
      assert nextMin == NextMin(profile, d, output);
      UpdatePidControlVariable(nextMin, true, r);
    }

    /** Records a batch and lets it move the control variable. */
    method RecordAndControl(works: seq<WorkDuration>, r: Reading)
      requires Valid() && works != [] && profile.pidOn && ArithmeticDefined(profile, Descriptor(), works)
      modifies this`heuristicBoostActive, this`pidControlVariable, this`integralError, this`previousError, manager,
               manager.sessionTaskMap, manager.worker, records, if records == null then {} else {records.records}
      ensures Valid()
      ensures var l := old(View());
              View() == ReportPid(profile, sessionId, l.(d := Recorded(profile, l.d, works)), works, r)
    {
      hide RecordsValid, PowerSessionManager.Valid, PowerSessionManager.GetModel, PowerSessionManager.Events,
           PowerSessionManager.GetKernel, Recorded, ReportPid, ArithmeticDefined, To100us;
      Record(works);
      Control(works, r);
    }

    /** Votes for the GPU capacity that the last frame of the batch calls for. */
    method VoteForGpu(works: seq<WorkDuration>, gpuFrequency: Option<int>, r: Reading)
      requires Valid() && works != [] && GpuDefined(profile, works, targetNs, gpuFrequency)
      modifies manager, manager.sessionTaskMap, manager.worker
      ensures Valid()
      ensures View() == ReportGpu(profile, sessionId, old(View()), works, gpuFrequency, r)
    {
      hide RecordsValid, PowerSessionManager.Valid, PowerSessionManager.GetModel, PowerSessionManager.Events,
           PowerSessionManager.GetKernel, SetGpuVote, CalculateCapacity;
      var last := works[|works| - 1];
      if !profile.gpuBoostOn || profile.gpuCapacityMax.None? || last.gpuDurationNanos == 0 {
        return;
      }
      if gpuFrequency.None? {
        return;
      }
      var additional := CalculateCapacity(last.durationNanos, last.cpuDurationNanos, last.gpuDurationNanos, targetNs,
                                          gpuFrequency.value);
      var clamped := Max(0, Min(profile.gpuCapacityMax.value, additional));
      CastGpuVote(GPU_CAPACITY, clamped, r, profile.staleNs(targetNs));
    }

    method DisableBoosts()
      requires Valid()
      modifies manager.sessionTaskMap
      ensures Valid() && View() == old(View()).(m := AfterDisable(old(View()).m, sessionId))
    {
      hide RecordsValid, PowerSessionManager.Valid, PowerSessionManager.GetModel, PowerSessionManager.Events,
           PowerSessionManager.GetKernel, WithVotes;
      manager.DisableBoosts(sessionId);
    }

    method ReportActualWorkDuration(works: seq<WorkDuration>, gpuFrequency: Option<int>, rs: Readings)
        returns (status: Status)
      requires Valid() && ReportDefined(profile, Descriptor(), works, gpuFrequency)
      modifies this, manager, manager.sessionTaskMap, manager.worker, records,
               if records == null then {} else {records.records}
      ensures Valid()
      ensures (View(), status) == DoReport(profile, sessionId, old(View()), works, gpuFrequency, rs)
    {
      hide RecordsValid, PowerSessionManager.Valid, PowerSessionManager.GetModel, PowerSessionManager.Events,
           PowerSessionManager.GetKernel, Recorded, ReportPid, ReportGpu, SetPid, AfterDisable, ToInt32,
           ArithmeticDefined, GpuDefined, To100us;
      if sessionClosed {
        return IllegalState;
      }
      if targetNs == 0 {
        return IllegalState;
      }
      if works == [] {
        return IllegalArgument;
      }
      if !isActive {
        return IllegalState;
      }
      DisableBoosts();
      if !profile.pidOn {
        UpdatePidControlVariable(ToInt32(profile.uclampMinHigh), true, rs.first);
        return Ok;
      }
      RecordAndControl(works, rs.first);
      VoteForGpu(works, gpuFrequency, rs.second);
      return Ok;
    }
  }
}
