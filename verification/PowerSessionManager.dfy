/** The manager that owns the sessions, their votes and their timeouts (PowerSessionManager.cpp).

    Calls take the clock readings they make and the set of threads the scheduler reports as dead
    as parameters. */
module PowerSessionManager {
  import opened Arith
  import opened UclampVoter
  import opened TaskVoteRange
  import opened TaskIndex
  import opened SessionTaskMap
  import opened ThreadSweep
  import opened BackgroundWorker
  import opened SessionModel
  import opened ThreadFloors
  import OtherSessions
  import Protocol = TimeoutProtocol

  /** The settings of the ADPF profile that the manager reads. It only asks whether the GPU boost
      setting is present, not what it says. */
  datatype Config = Config(uclampMinOn: bool, cap: Option<EfficiencyCap>, gpuBoostPresent: bool)

  class PowerSessionManager {
    const sessionTaskMap: SessionTaskMap
    const worker: PriorityQueueWorker<SessionTimeout>
    const config: Config
    const hasGpuNode: bool

    // Effects on the system: the clamp in force for each thread, the threads in the
    // ResetUclampGrp profile, and the value last written to the GPU capacity node.
    var kernelClamp: map<int, UclampRange>
    var resetGroup: set<int>
    var gpuCapacity: int

    /** Threads that the scheduler has ever reported as dead. */
    ghost var everDead: set<int>

    constructor (config: Config, hasGpuNode: bool)
      ensures Valid() && GetModel() == map[] && Events() == [] && GetKernel() == Kernel(map[], {}, 0)
      ensures fresh(sessionTaskMap) && fresh(worker)
    {
      sessionTaskMap := new SessionTaskMap();
      worker := new PriorityQueueWorker<SessionTimeout>();
      this.config := config;
      this.hasGpuNode := hasGpuNode;
      kernelClamp := map[];
      resetGroup := {};
      gpuCapacity := 0;
      everDead := {};
    }

    /** The index is consistent, the worker sound, and a thread that has never been reported dead is
        in the ResetUclampGrp profile exactly when some session lists it. */
    ghost predicate Valid()
      reads this`resetGroup, this`everDead, sessionTaskMap, worker
      ensures Valid() ==> sessionTaskMap.Valid() && worker.Valid()
    {
      && sessionTaskMap.Valid() && worker.Valid()
      && forall t :: t !in everDead ==> (t in resetGroup <==> t in sessionTaskMap.mTasks)
    }

    ghost function GetModel(): (m: Model)
      requires sessionTaskMap.Valid()
      reads sessionTaskMap
      ensures forall id :: id in m <==> id in sessionTaskMap.mSessions
    {
      ModelOf(sessionTaskMap.mSessions, sessionTaskMap.values)
    }

    /** The lower clamps in force, the threads reported dead so far, and the value of the GPU node. */
    ghost function GetKernel(): Kernel
      reads this`kernelClamp, this`everDead, this`gpuCapacity
    {
      Kernel(FloorsOf(kernelClamp), everDead, gpuCapacity)
    }

    /** GPU votes are written to the node. */
    predicate GpuOn() {
      hasGpuNode && config.gpuBoostPresent
    }

    ghost function Events(): seq<Protocol.Event>
      requires worker.Valid()
      reads worker
    {
      ToEvents(worker.Pending())
    }

    /** Every thread of the session carries the clamp that all votes in force at time `t` ask for. */
    ghost predicate ClampsFollow(sessionId: int, t: int)
      reads this`kernelClamp, sessionTaskMap
    {
      sessionId in sessionTaskMap.mSessions && config.uclampMinOn ==>
        ClampsWanted(kernelClamp, sessionTaskMap.mSessions[sessionId].linkedTasks, sessionTaskMap.mTasks,
                     sessionTaskMap.values, t, config.cap)
    }

    /** The GPU node holds the largest request of any session at time `t`. */
    ghost predicate GpuFollows(t: int)
      requires sessionTaskMap.Valid()
      reads this`gpuCapacity, sessionTaskMap
    {
      GpuOn() ==> IsHighest(gpuCapacity, 0, GpuDemands(GetModel(), t))
    }

    /** What the threads see of the sessions other than `sessionId`. */
    ghost function Others(sessionId: int): imap<int, seq<SessionView>>
      reads sessionTaskMap
    {
      OtherSessions.OthersOf(sessionTaskMap.mSessions, sessionTaskMap.mTasks, sessionTaskMap.values, sessionId)
    }

    /** One round of the loop over the session's threads: sets the clamp of thread `k`, or drops the
        thread from both maps if it is dead. */
    method ApplyToThread(sessionId: int, k: nat, t: int, dead: set<int>) returns (alive: bool)
      requires sessionId in sessionTaskMap.mSessions && k < |sessionTaskMap.mSessions[sessionId].linkedTasks|
      requires var e := sessionTaskMap.mSessions[sessionId];
               var list := ListOf(sessionTaskMap.mTasks, e.linkedTasks[k]);
               e.val in list && forall j :: 0 <= j < |list| ==> list[j] in sessionTaskMap.values
      modifies this`kernelClamp, sessionTaskMap`mSessions, sessionTaskMap`mTasks
      ensures var e := old(sessionTaskMap.mSessions[sessionId]);
              var tid := e.linkedTasks[k];
              && alive == (tid !in dead)
              && (alive ==> unchanged(sessionTaskMap) &&
                            kernelClamp == old(kernelClamp)[tid :=
                              WantedClamp(sessionTaskMap.mTasks, sessionTaskMap.values, tid, t, config.cap)])
              && (!alive ==>
                    && sessionTaskMap.mSessions ==
                       old(sessionTaskMap.mSessions)[sessionId := e.(linkedTasks := RemoveAt(e.linkedTasks, k))]
                    && sessionTaskMap.mTasks == UnlinkOne(old(sessionTaskMap.mTasks), tid, e.val)
                    && kernelClamp == old(kernelClamp))
    {
      var entry := sessionTaskMap.mSessions[sessionId];
      var tid := entry.linkedTasks[k];
      var range := sessionTaskMap.GetTaskVoteRange(tid, t, DEFAULT_RANGE, config.cap);
      alive := tid !in dead;
      if alive {
        kernelClamp := kernelClamp[tid := ClampForScheduler(range)];
      } else {
        var removed := sessionTaskMap.RemoveDeadTaskSessionMap(sessionId, tid);
        sessionTaskMap.mSessions :=
          sessionTaskMap.mSessions[sessionId := entry.(linkedTasks := RemoveAt(entry.linkedTasks, k))];
      }
    }

    /** The state of the loop over the threads of session `id`, which began with `sessions0`. */
    ghost predicate AtProgress(sessions0: Sessions, id: int, p: Progress)
      requires id in sessions0
      reads this`kernelClamp, sessionTaskMap`mSessions, sessionTaskMap`mTasks
    {
      && sessionTaskMap.mSessions == sessions0[id := ValEntry(sessions0[id].val, p.linked)]
      && sessionTaskMap.mTasks == p.tasks && kernelClamp == p.clamps
    }

    /** One round of the loop, from progress `p` to progress `q`. */
    method VisitThread(sessionId: int, k: nat, t: int, dead: set<int>, ghost sessions0: Sessions, ghost p: Progress,
                       ghost q: Progress)
      returns (k': nat)
      requires sessionId in sessions0 && AtProgress(sessions0, sessionId, p) && k == p.k
      requires RoundTakes(p, q, sessions0[sessionId].val, dead, sessionTaskMap.values, t, config.cap)
      modifies this`kernelClamp, sessionTaskMap`mSessions, sessionTaskMap`mTasks
      ensures AtProgress(sessions0, sessionId, q) && k' == q.k
    {
      hide WantedClamp, UnlinkOne;
      ghost var e := sessions0[sessionId];
      UpdateTwice(sessions0, sessionId, ValEntry(e.val, p.linked), ValEntry(e.val, q.linked));
      var alive := ApplyToThread(sessionId, k, t, dead);
      k' := if alive then k + 1 else k;
    }

    /** Sets the clamp of every thread of the session, and drops the threads found dead from both maps. */
    method ApplyToThreads(sessionId: int, t: int, dead: set<int>)
      requires sessionId in sessionTaskMap.mSessions
      requires SweepReady(sessionTaskMap.mTasks, sessionTaskMap.mSessions[sessionId], dead, sessionTaskMap.values)
      modifies this`kernelClamp, sessionTaskMap`mSessions, sessionTaskMap`mTasks
      ensures var e := old(sessionTaskMap.mSessions[sessionId]);
              AtProgress(old(sessionTaskMap.mSessions), sessionId,
                         ProgressAt(old(sessionTaskMap.mTasks), old(kernelClamp), e, |e.linkedTasks|, dead,
                                    sessionTaskMap.values, t, config.cap))
    {
      hide ProgressAt, RoundTakes, SweepReady;
      ghost var e := sessionTaskMap.mSessions[sessionId];
      ghost var tasks0, sessions0 := sessionTaskMap.mTasks, sessionTaskMap.mSessions;
      ghost var values, clamps0 := sessionTaskMap.values, kernelClamp;
      var k := 0;
      ghost var i, p := 0, ProgressAt(tasks0, clamps0, e, 0, dead, values, t, config.cap);
      ProgressStart(tasks0, clamps0, e, dead, values, t, config.cap);
      assert sessions0 == sessions0[sessionId := ValEntry(e.val, e.linkedTasks)];
      while k < |sessionTaskMap.mSessions[sessionId].linkedTasks|
        invariant 0 <= i <= |e.linkedTasks| && p == ProgressAt(tasks0, clamps0, e, i, dead, values, t, config.cap)
        invariant AtProgress(sessions0, sessionId, p) && k == p.k
        invariant k < |p.linked| <==> i < |e.linkedTasks|
        decreases |e.linkedTasks| - i
        modifies this`kernelClamp, sessionTaskMap`mSessions, sessionTaskMap`mTasks
      {
        ghost var q := ProgressAt(tasks0, clamps0, e, i + 1, dead, values, t, config.cap);
        ProgressStep(tasks0, clamps0, e, i, dead, values, t, config.cap);
        ProgressGuard(tasks0, clamps0, e, i + 1, dead, values, t, config.cap);
        k := VisitThread(sessionId, k, t, dead, sessions0, p, q);
        i, p := i + 1, q;
      }
    }

    /** The whole loop, and what it means for the session and for the others. */
    method SweepThreads(sessionId: int, t: int, dead: set<int>)
      requires sessionTaskMap.Valid() && sessionId in sessionTaskMap.mSessions && config.uclampMinOn
      modifies this`kernelClamp, sessionTaskMap`mSessions, sessionTaskMap`mTasks
      ensures sessionTaskMap.Valid()
      ensures SweptTo(old(sessionTaskMap.mSessions), old(sessionTaskMap.mTasks), old(kernelClamp),
                      sessionTaskMap.mSessions, sessionTaskMap.mTasks, kernelClamp,
                      sessionTaskMap.values, sessionId, dead, everDead, gpuCapacity, t, config.cap)
    {
      hide MapsValid, ModelOf, SweepModel, SweepReady, ProgressAt, ClampsWanted, SameElsewhere, OtherSessions.OthersOf,
           ApplyTo, FloorsOf;
      ghost var sessions0, tasks0, values := sessionTaskMap.mSessions, sessionTaskMap.mTasks, sessionTaskMap.values;
      SweepBegins(sessions0, tasks0, values, sessionId, dead);
      SweepOutcome(sessions0, tasks0, kernelClamp, values, sessionId, dead, everDead, gpuCapacity, t, config.cap);
      ApplyToThreads(sessionId, t, dead);
    }

    method ApplyUclampLocked(sessionId: int, t: int, dead: set<int>)
      requires Valid()
      modifies this`kernelClamp, this`everDead, sessionTaskMap`mSessions, sessionTaskMap`mTasks
      ensures Valid()
      ensures GetModel() == SweepModel(old(GetModel()), sessionId, dead, config.uclampMinOn)
      ensures GetKernel() == ApplyTo(old(GetKernel()), old(GetModel()), sessionId, t, dead, config.uclampMinOn)
      ensures ClampsFollow(sessionId, t)
      ensures SameElsewhere(kernelClamp, old(kernelClamp), ThreadsOf(old(GetModel()), sessionId))
      ensures Others(sessionId) == old(Others(sessionId))
    {
      hide ClampsWanted, OtherSessions.OthersOf, ModelOf, MapsValid, PriorityQueueWorker.Valid, FloorOf, FloorsOf;
      if sessionId in sessionTaskMap.mSessions && config.uclampMinOn {
        SweepThreads(sessionId, t, dead);
        everDead := everDead + dead;
      }
    }

    /** Writes the largest request of any session to the GPU capacity node. */
    method ApplyGpuVotesLocked(sessionId: int, t: int)
      requires sessionTaskMap.Valid()
      modifies this`gpuCapacity
      ensures GetKernel() == ApplyGpu(old(GetKernel()), GetModel(), sessionId, t, GpuOn())
      ensures sessionId in sessionTaskMap.mSessions ==> GpuFollows(t)
    {
      if sessionId !in sessionTaskMap.mSessions {
        return;
      }
      if GpuOn() {
        gpuCapacity := sessionTaskMap.GetSessionsGpuCapacity(t);
        SameDemands(sessionTaskMap.mSessions, sessionTaskMap.values, t);
      }
    }

    method ApplyCpuAndGpuVotes(sessionId: int, t: int, dead: set<int>)
      requires Valid()
      modifies this`kernelClamp, this`everDead, this`gpuCapacity, sessionTaskMap`mSessions, sessionTaskMap`mTasks
      ensures Valid()
      ensures GetModel() == SweepModel(old(GetModel()), sessionId, dead, config.uclampMinOn)
      ensures GetKernel() ==
              ApplyBoth(old(GetKernel()), old(GetModel()), sessionId, t, dead, config.uclampMinOn, GpuOn())
      ensures ClampsFollow(sessionId, t) && (sessionId in GetModel() ==> GpuFollows(t))
      ensures SameElsewhere(kernelClamp, old(kernelClamp), ThreadsOf(old(GetModel()), sessionId))
      ensures Others(sessionId) == old(Others(sessionId))
    {
      hide *;
      ghost var m, k := GetModel(), GetKernel();
      ApplyUclampLocked(sessionId, t, dead);
      ApplyGpuVotesLocked(sessionId, t);
      BothApplied(k, m, sessionId, t, dead, config.uclampMinOn, GpuOn());
    }

    method FindSession(sessionId: int) returns (session: Option<SessionValue>)
      requires Valid()
      ensures session == if sessionId in GetModel() then Some(GetModel()[sessionId].value) else None
      ensures session.Some? ==> session.value.sessionId == sessionId
    {
      if sessionId !in sessionTaskMap.mSessions {
        return None;
      }
      return Some(sessionTaskMap.values[sessionTaskMap.mSessions[sessionId].val]);
    }

    /** Changes the value of a live session. */
    method UpdateValue(sessionId: int, v: SessionValue)
      requires Valid() && sessionId in sessionTaskMap.mSessions && v.sessionId == sessionId
      modifies sessionTaskMap`values
      ensures Valid()
      ensures GetModel() == WithValue(old(GetModel()), sessionId, v)
      ensures Others(sessionId) == old(Others(sessionId))
    {
      OtherSessions.ValueChange(sessionTaskMap.mSessions, sessionTaskMap.mTasks, sessionTaskMap.values, sessionId, v);
      ModelWithValue(sessionTaskMap.mSessions, sessionTaskMap.mTasks, sessionTaskMap.values, sessionId, v);
      sessionTaskMap.values := sessionTaskMap.values[sessionTaskMap.mSessions[sessionId].val := v];
    }

    method ScheduleTimeout(sessionId: int, voteId: int, deadline: int)
      requires Valid()
      modifies worker
      ensures Valid()
      ensures Events() == old(Events()) + [Protocol.Event(sessionId, voteId, deadline)]
    {
      worker.Schedule(SessionTimeout(sessionId, voteId), deadline);
    }

    /** The part of `VoteSet` under the session lock: the vote is stored and the session's threads get
        the clamp that all votes in force now ask for. */
    method AddVoteLocked(sessionId: int, voteId: int, vote: CpuVote, dead: set<int>)
      requires Valid() && sessionId in sessionTaskMap.mSessions
      modifies this`kernelClamp, this`everDead, sessionTaskMap`mSessions, sessionTaskMap`mTasks, sessionTaskMap`values
      ensures Valid()
      ensures GetModel() == SweepModel(AfterVote(old(GetModel()), sessionId, voteId, Protocol.Cpu(vote)), sessionId,
                                       dead, config.uclampMinOn)
      ensures GetKernel() ==
              ApplyTo(old(GetKernel()), AfterVote(old(GetModel()), sessionId, voteId, Protocol.Cpu(vote)), sessionId,
                      vote.timing.startTime, dead, config.uclampMinOn)
      ensures ClampsFollow(sessionId, vote.timing.startTime)
    {
      hide Valid, ModelOf;
      var found := FindSession(sessionId);
      UpdateValue(sessionId, found.value.(votes := found.value.votes.AddCpu(voteId, vote)));
      ApplyUclampLocked(sessionId, vote.timing.startTime, dead);
    }

    /** Sets a CPU vote for the given time and makes sure that a timeout event will end it. */
    method VoteSet(sessionId: int, voteId: int, uclampMin: int, uclampMax: int, startTime: int, durationNs: int,
                   dead: set<int>)
      requires Valid()
      modifies this`kernelClamp, this`everDead, sessionTaskMap`mSessions, sessionTaskMap`mTasks, sessionTaskMap`values,
               worker
      ensures Valid()
      ensures var vote := Protocol.Cpu(CpuVote(VoteRange(true, startTime, durationNs),
                                               UclampRange(uclampMin, uclampMax)));
              && Events() == old(Events()) + EventsOfVote(old(GetModel()), sessionId, voteId, vote)
              && GetModel() ==
                 SweepModel(AfterVote(old(GetModel()), sessionId, voteId, vote), sessionId, dead, config.uclampMinOn)
              && GetKernel() ==
                 ApplyTo(old(GetKernel()), AfterVote(old(GetModel()), sessionId, voteId, vote), sessionId, startTime,
                         dead, config.uclampMinOn)
      ensures ClampsFollow(sessionId, startTime)
    {
      hide Valid, ModelOf, ClampsWanted, Events;
      var timeoutDeadline := startTime + durationNs;
      var session := FindSession(sessionId);
      if session.None? {
        return;
      }
      var vote := CpuVote(VoteRange(true, startTime, durationNs), UclampRange(uclampMin, uclampMax));
      AddVoteLocked(sessionId, voteId, vote, dead);
      if Protocol.ShouldScheduleTimeout(session.value.votes, voteId, timeoutDeadline) {
        ScheduleTimeout(sessionId, voteId, timeoutDeadline);
      }
    }

    /** The part of `GpuVoteSet` under the session lock. */
    method AddGpuVoteLocked(sessionId: int, voteId: int, vote: GpuVote)
      requires Valid() && sessionId in sessionTaskMap.mSessions
      modifies this`gpuCapacity, sessionTaskMap`values
      ensures Valid()
      ensures GetModel() == AfterVote(old(GetModel()), sessionId, voteId, Protocol.Gpu(vote))
      ensures GetKernel() == ApplyGpu(old(GetKernel()), GetModel(), sessionId, vote.timing.startTime, GpuOn())
      ensures GpuFollows(vote.timing.startTime)
    {
      hide Valid, ModelOf, GpuFollows;
      var found := FindSession(sessionId);
      UpdateValue(sessionId, found.value.(votes := found.value.votes.AddGpu(voteId, vote)));
      ApplyGpuVotesLocked(sessionId, vote.timing.startTime);
    }

    /** Sets a GPU vote; it is applied through the GPU capacity node instead of the threads. */
    method GpuVoteSet(sessionId: int, voteId: int, capacity: int, startTime: int, durationNs: int)
      requires Valid()
      modifies this`gpuCapacity, sessionTaskMap`values, worker
      ensures Valid()
      ensures var vote := Protocol.Gpu(GpuVote(VoteRange(true, startTime, durationNs), capacity));
              && Events() == old(Events()) + EventsOfVote(old(GetModel()), sessionId, voteId, vote)
              && GetModel() == AfterVote(old(GetModel()), sessionId, voteId, vote)
              && GetKernel() == ApplyGpu(old(GetKernel()), GetModel(), sessionId, startTime, GpuOn())
      ensures sessionId in GetModel() ==> GpuFollows(startTime)
    {
      hide Valid, ModelOf, GpuFollows, Events;
      var timeoutDeadline := startTime + durationNs;
      var session := FindSession(sessionId);
      if session.None? {
        return;
      }
      AddGpuVoteLocked(sessionId, voteId, GpuVote(VoteRange(true, startTime, durationNs), capacity));
      if Protocol.ShouldScheduleTimeout(session.value.votes, voteId, timeoutDeadline) {
        ScheduleTimeout(sessionId, voteId, timeoutDeadline);
      }
    }

    /** Switches a vote off and applies what is left. */
    method EndVoteLocked(sessionId: int, voteId: int, tNow: int, dead: set<int>)
      requires Valid() && sessionId in sessionTaskMap.mSessions
      modifies this`kernelClamp, this`everDead, this`gpuCapacity,
               sessionTaskMap`mSessions, sessionTaskMap`mTasks, sessionTaskMap`values
      ensures Valid()
      ensures var ended := WithVotes(old(GetModel()), sessionId,
                                     old(GetModel())[sessionId].value.votes.SetUse(voteId, false));
              && GetModel() == SweepModel(ended, sessionId, dead, config.uclampMinOn)
              && GetKernel() == ApplyBoth(old(GetKernel()), ended, sessionId, tNow, dead, config.uclampMinOn, GpuOn())
      ensures ClampsFollow(sessionId, tNow) && GpuFollows(tNow)
    {
      hide Valid, ModelOf, ClampsFollow, GpuFollows;
      var found := FindSession(sessionId);
      UpdateValue(sessionId, found.value.(votes := found.value.votes.SetUse(voteId, false)));
      ApplyCpuAndGpuVotes(sessionId, tNow, dead);
    }

    /** Handles a timeout event: ends the vote if it has run out, queues the event again if the vote
        has been renewed, and otherwise does nothing. */
    method HandleEvent(ev: SessionTimeout, tNow: int, dead: set<int>)
      requires Valid()
      modifies this`kernelClamp, this`everDead, this`gpuCapacity,
               sessionTaskMap`mSessions, sessionTaskMap`mTasks, sessionTaskMap`values, worker
      ensures Valid()
      ensures GetModel() == AfterEvent(old(GetModel()), ev, tNow, dead, config.uclampMinOn)
      ensures GetKernel() ==
              KernelAfterEvent(old(GetKernel()), old(GetModel()), ev, tNow, dead, config.uclampMinOn, GpuOn())
      ensures Events() == old(Events()) + EventsOfEvent(old(GetModel()), ev, tNow)
      ensures var m := GetModel();
              var on := ev.sessionId in m && m[ev.sessionId].value.votes.IsActive(ev.voteId);
              Events() == old(Events()) +
                          if on then [Protocol.Event(ev.sessionId, ev.voteId,
                                                     m[ev.sessionId].value.votes.TimeoutOf(ev.voteId))]
                          else []
      ensures ev.sessionId in GetModel() &&
              GetModel()[ev.sessionId].value.votes != old(GetModel())[ev.sessionId].value.votes ==>
                ClampsFollow(ev.sessionId, tNow) && GpuFollows(tNow)
    {
      hide Valid, ModelOf, ClampsFollow, GpuFollows, Events;
      var found := FindSession(ev.sessionId);
      if found.None? {
        return;
      }
      var session := found.value;
      var voteIsActive := session.votes.IsActive(ev.voteId);
      var voteTimeout := session.votes.TimeoutOf(ev.voteId);
      if voteIsActive {
        if voteTimeout <= tNow {
          EndVoteLocked(ev.sessionId, ev.voteId, tNow, dead);
        } else {
          ScheduleTimeout(ev.sessionId, ev.voteId, voteTimeout);
        }
      }
    }

    /** One round of the background worker at time `now`. */
    method RunNext(now: int, dead: set<int>) returns (ran: bool, ghost k: nat)
      requires Valid()
      modifies this`kernelClamp, this`everDead, this`gpuCapacity,
               sessionTaskMap`mSessions, sessionTaskMap`mTasks, sessionTaskMap`values, worker
      ensures Valid()
      ensures !ran ==> GetModel() == old(GetModel()) && Events() == old(Events()) &&
                       forall i :: 0 <= i < |Events()| ==> now < Events()[i].deadline
      ensures ran ==>
                var events := old(Events());
                && Protocol.IsEarliest(events, k) && events[k].deadline <= now
                && GetModel() == AfterEvent(old(GetModel()), Package(events[k]), now, dead, config.uclampMinOn)
                && GetKernel() == KernelAfterEvent(old(GetKernel()), old(GetModel()), Package(events[k]), now, dead,
                                                   config.uclampMinOn, GpuOn())
                && Events() == RemoveAt(events, k) + EventsOfEvent(old(GetModel()), Package(events[k]), now)
    {
      hide AfterEvent, EventsOfEvent, MapsValid, ModelOf;
      ghost var events := Events();
      var taken;
      taken, k := worker.RunNext(now);
      ran := taken.Some?;
      if ran {
        assert Events() == RemoveAt(events, k);
        HandleEvent(taken.value, now, dead);
      }
    }

    /** The votes and events as a state of the protocol, with the worker idle and no call under way. */
    ghost function AsState(clock: int): Protocol.State
      requires sessionTaskMap.Valid() && worker.Valid()
      reads sessionTaskMap, worker
    {
      Protocol.State(clock, 0, TablesOf(GetModel()), Events(), [], Protocol.Idle)
    }

    /** Runs the worker at time `now` until nothing is due. `ops` are the protocol steps it took. */
    method Drain(now: int, dead: set<int>) returns (ghost ops: seq<Protocol.Op>)
      requires Valid()
      modifies this`kernelClamp, this`everDead, this`gpuCapacity,
               sessionTaskMap`mSessions, sessionTaskMap`mTasks, sessionTaskMap`values, worker
      ensures Valid()
      ensures Protocol.Drained(AsState(now))
      ensures forall op :: op in ops ==> Protocol.WorkerStep(op)
      ensures Protocol.Legal(old(AsState(now)), ops) && Protocol.Final(old(AsState(now)), ops) == AsState(now)
    {
      hide AfterEvent, EventsOfEvent, MapsValid, ModelOf, TablesOf, Protocol.Legal, Protocol.Final;
      ghost var s0 := AsState(now);
      Protocol.NoSteps(s0);
      ops := [];
      var ran := true;
      while ran
        invariant Valid()
        invariant forall op :: op in ops ==> Protocol.WorkerStep(op)
        invariant Protocol.Legal(s0, ops) && Protocol.Final(s0, ops) == AsState(now)
        invariant !ran ==> Protocol.Drained(AsState(now))
        decreases Protocol.WorkLeft(AsState(now)), ran
      {
        ghost var s, m := AsState(now), GetModel();
        ghost var k;
        ran, k := RunNext(now, dead);
        if ran {
          ghost var round := [Protocol.Pop(k), Protocol.Sample, Protocol.Handle];
          RunNextRefines(s, m, k, dead, config.uclampMinOn);
          Protocol.LegalConcat(s0, ops, round);
          Protocol.DrainTerminates(s, round);
          ops := ops + round;
        }
      }
    }

    method DisableBoosts(sessionId: int)
      requires Valid()
      modifies sessionTaskMap`values
      ensures Valid()
      ensures var m := old(GetModel());
              GetModel() == if sessionId in m
                            then WithVotes(m, sessionId, m[sessionId].value.votes.DisableAll(BOOST_VOTES)) else m
      ensures var m, m' := old(GetModel()), GetModel();
              sessionId in m ==>
                forall v :: CPU_VOTE_DEFAULT <= v <= GPU_CAPACITY ==>
                  (m'[sessionId].value.votes.IsActive(v) <==>
                   m[sessionId].value.votes.IsActive(v) &&
                   (v == CPU_VOTE_DEFAULT || v == GPU_LOAD_DOWN || v == GPU_CAPACITY))
    {
      hide Valid, ModelOf;
      var found := FindSession(sessionId);
      if found.None? {
        return;
      }
      var session := found.value;
      var votes := session.votes;
      for i := 0 to |BOOST_VOTES|
        invariant votes == session.votes.DisableAll(BOOST_VOTES[..i])
      {
        assert BOOST_VOTES[..i + 1][..i] == BOOST_VOTES[..i];
        votes := votes.SetUse(BOOST_VOTES[i], false);
      }
      assert BOOST_VOTES[..|BOOST_VOTES|] == BOOST_VOTES;
      hide VoteTable.IsActive;
      BoostsOff(session.votes);
      UpdateValue(sessionId, session.(votes := votes));
    }

    /** Changes the duration of a vote; neither the threads nor the queue hear of it. */
    method UpdateTargetWorkDuration(sessionId: int, voteId: int, durationNs: int)
      requires Valid()
      modifies sessionTaskMap`values
      ensures Valid()
      ensures var m := old(GetModel());
              GetModel() == if sessionId in m
                            then WithVotes(m, sessionId, m[sessionId].value.votes.WithDuration(voteId, durationNs))
                            else m
    {
      hide Valid, ModelOf;
      var found := FindSession(sessionId);
      if found.None? {
        return;
      }
      var session := found.value;
      UpdateValue(sessionId, session.(votes := session.votes.WithDuration(voteId, durationNs)));
    }

    /** The session makes itself heard on its threads or, if `isActive` is false, leaves them to the
        other sessions. */
    method ForceSessionActive(sessionId: int, isActive: bool, t: int, dead: set<int>)
      requires Valid()
      modifies this`kernelClamp, this`everDead, this`gpuCapacity,
               sessionTaskMap`mSessions, sessionTaskMap`mTasks, sessionTaskMap`values
      ensures Valid()
      ensures GetModel() ==
              SweepModel(WithActive(old(GetModel()), sessionId, isActive), sessionId, dead, config.uclampMinOn)
      ensures GetKernel() ==
              ApplyBoth(old(GetKernel()), WithActive(old(GetModel()), sessionId, isActive), sessionId, t, dead,
                        config.uclampMinOn, GpuOn())
      ensures ClampsFollow(sessionId, t) && (sessionId in GetModel() ==> GpuFollows(t))
      ensures SameElsewhere(kernelClamp, old(kernelClamp), ThreadsOf(old(GetModel()), sessionId))
      ensures Others(sessionId) == old(Others(sessionId))
      ensures !isActive && config.uclampMinOn ==>
              OtherSessions.ClampedBy(kernelClamp, Others(sessionId), ThreadsOf(GetModel(), sessionId), t, config.cap)
    {
      hide Valid, ModelOf, GpuFollows, OtherSessions.OthersOf, ClampsWanted;
      var found := FindSession(sessionId);
      if found.None? {
        return;
      }
      UpdateValue(sessionId, found.value.(isActive := isActive));
      ApplyCpuAndGpuVotes(sessionId, t, dead);
      hide SameElsewhere, OtherSessions.ClampedBy;
      if !isActive && config.uclampMinOn {
        InactiveLeaves(sessionId, t);
      }
    }

    lemma InactiveLeaves(sessionId: int, t: int)
      requires sessionTaskMap.Valid() && sessionId in sessionTaskMap.mSessions && !GetModel()[sessionId].value.isActive
      requires ClampsFollow(sessionId, t) && config.uclampMinOn
      ensures OtherSessions.ClampedBy(kernelClamp, Others(sessionId), ThreadsOf(GetModel(), sessionId), t, config.cap)
    {
      OtherSessions.InactiveClamps(kernelClamp, ThreadsOf(GetModel(), sessionId), sessionTaskMap.mSessions,
                                   sessionTaskMap.mTasks, sessionTaskMap.values, sessionId, t, config.cap);
    }

    method Pause(sessionId: int, t: int, dead: set<int>)
      requires Valid()
      modifies this`kernelClamp, this`everDead, this`gpuCapacity,
               sessionTaskMap`mSessions, sessionTaskMap`mTasks, sessionTaskMap`values
      ensures Valid()
      ensures var m := old(GetModel());
              GetModel() == if sessionId in m && m[sessionId].value.isActive
                            then SweepModel(WithActive(m, sessionId, false), sessionId, dead, config.uclampMinOn) else m
      ensures var m := old(GetModel());
              sessionId in m && m[sessionId].value.isActive ==> ClampsFollow(sessionId, t) && GpuFollows(t)
      ensures var m := old(GetModel());
              GetKernel() == if sessionId in m && m[sessionId].value.isActive
                             then ApplyBoth(old(GetKernel()), WithActive(m, sessionId, false), sessionId, t, dead,
                                            config.uclampMinOn, GpuOn())
                             else old(GetKernel())
    {
      hide Valid, ModelOf;
      var found := FindSession(sessionId);
      if found.None? {
        return;
      }
      var session := found.value;
      if !session.isActive {
        return;
      }
      UpdateValue(sessionId, session.(isActive := false));
      ApplyCpuAndGpuVotes(sessionId, t, dead);
    }

    method Resume(sessionId: int, t: int, dead: set<int>)
      requires Valid()
      modifies this`kernelClamp, this`everDead, this`gpuCapacity,
               sessionTaskMap`mSessions, sessionTaskMap`mTasks, sessionTaskMap`values
      ensures Valid()
      ensures var m := old(GetModel());
              GetModel() == if sessionId in m && !m[sessionId].value.isActive
                            then SweepModel(WithActive(m, sessionId, true), sessionId, dead, config.uclampMinOn) else m
      ensures var m := old(GetModel());
              sessionId in m && !m[sessionId].value.isActive ==> ClampsFollow(sessionId, t) && GpuFollows(t)
      ensures var m := old(GetModel());
              GetKernel() == if sessionId in m && !m[sessionId].value.isActive
                             then ApplyBoth(old(GetKernel()), WithActive(m, sessionId, true), sessionId, t, dead,
                                            config.uclampMinOn, GpuOn())
                             else old(GetKernel())
    {
      hide Valid, ModelOf;
      var found := FindSession(sessionId);
      if found.None? {
        return;
      }
      var session := found.value;
      if session.isActive {
        return;
      }
      UpdateValue(sessionId, session.(isActive := true));
      ApplyCpuAndGpuVotes(sessionId, t, dead);
    }

    method SetPreferPowerEfficiency(sessionId: int, enabled: bool, t: int, dead: set<int>)
      requires Valid()
      modifies this`kernelClamp, this`everDead, sessionTaskMap`mSessions, sessionTaskMap`mTasks, sessionTaskMap`values
      ensures Valid()
      ensures var m := old(GetModel());
              GetModel() == if sessionId in m && m[sessionId].value.isPowerEfficient != enabled
                            then SweepModel(WithValue(m, sessionId, m[sessionId].value.(isPowerEfficient := enabled)),
                                            sessionId, dead, config.uclampMinOn)
                            else m
      ensures var m := old(GetModel());
              sessionId in m && m[sessionId].value.isPowerEfficient != enabled ==> ClampsFollow(sessionId, t)
      ensures var m := old(GetModel());
              GetKernel() == if sessionId in m && m[sessionId].value.isPowerEfficient != enabled
                             then ApplyTo(old(GetKernel()),
                                          WithValue(m, sessionId, m[sessionId].value.(isPowerEfficient := enabled)),
                                          sessionId, t, dead, config.uclampMinOn)
                             else old(GetKernel())
    {
      hide Valid, ModelOf;
      var found := FindSession(sessionId);
      if found.None? {
        return;
      }
      var session := found.value;
      if enabled != session.isPowerEfficient {
        UpdateValue(sessionId, session.(isPowerEfficient := enabled));
        ApplyUclampLocked(sessionId, t, dead);
      }
    }

    /** Puts threads into the ResetUclampGrp profile or takes them out. */
    method SetTaskProfiles(tids: seq<int>, reset: bool)
      modifies this`resetGroup
      ensures forall t :: t in resetGroup <==> if t in tids then reset else t in old(resetGroup)
    {
      for i := 0 to |tids|
        invariant forall t :: t in resetGroup <==> if t in tids[..i] then reset else t in old(resetGroup)
      {
        assert tids[..i + 1] == tids[..i] + [tids[i]];
        resetGroup := if reset then resetGroup + {tids[i]} else resetGroup - {tids[i]};
      }
      assert tids[..|tids|] == tids;
    }

    method ReplaceInIndex(sessionId: int, threadIds: seq<int>) returns (added: seq<int>, removed: seq<int>)
      requires sessionTaskMap.Valid()
      modifies sessionTaskMap
      ensures sessionTaskMap.Valid()
      ensures GetModel() == WithTasks(old(GetModel()), sessionId, threadIds)
      ensures Others(sessionId) == old(Others(sessionId))
      ensures forall t :: t in added <==> t in sessionTaskMap.mTasks && t !in old(sessionTaskMap.mTasks)
      ensures forall t :: t in removed <==> t in old(sessionTaskMap.mTasks) && t !in sessionTaskMap.mTasks
    {
      ghost var sessions0, tasks0, values0 := sessionTaskMap.mSessions, sessionTaskMap.mTasks, sessionTaskMap.values;
      ghost var v := sessionTaskMap.nextRef;
      var replaced;
      replaced, added, removed := sessionTaskMap.Replace(sessionId, threadIds);
      if replaced {
        ModelReplaced(sessions0, tasks0, values0, sessionId, v, threadIds);
        OtherSessions.Replaced(sessions0, tasks0, sessionTaskMap.mTasks, values0, sessionId, v, threadIds);
      }
    }

    /** Replaces the thread list and moves the threads that enter or leave the thread map into or out
        of the ResetUclampGrp profile. */
    method ReplaceThreads(sessionId: int, threadIds: seq<int>)
      requires Valid()
      modifies this`resetGroup, sessionTaskMap
      ensures Valid()
      ensures GetModel() == WithTasks(old(GetModel()), sessionId, threadIds)
      ensures Others(sessionId) == old(Others(sessionId))
      ensures forall t :: t in sessionTaskMap.mTasks && t !in old(sessionTaskMap.mTasks) ==> t in resetGroup
      ensures forall t :: t !in sessionTaskMap.mTasks && t in old(sessionTaskMap.mTasks) ==> t !in resetGroup
      ensures forall t :: (t in sessionTaskMap.mTasks <==> t in old(sessionTaskMap.mTasks)) ==>
                          (t in resetGroup <==> t in old(resetGroup))
    {
      hide WithTasks, Others, GetModel, MapsValid, PriorityQueueWorker.Valid;
      var added, removed := ReplaceInIndex(sessionId, threadIds);
      SetTaskProfiles(added, true);
      SetTaskProfiles(removed, false);
    }

    /** Gives the session new threads. The session is made inactive while its old threads are left to
        the other sessions, and active, whatever it was before, once the new ones are in place. */
    method SetThreadsFromPowerSession(sessionId: int, threadIds: seq<int>, t: int, t': int, dead: set<int>,
                                      dead': set<int>)
      requires Valid()
      modifies this, sessionTaskMap
      ensures Valid()
      ensures GetModel() == AfterSetThreads(old(GetModel()), sessionId, threadIds, dead', config.uclampMinOn)
      ensures GetKernel() ==
              KernelAfterSetThreads(old(GetKernel()), old(GetModel()), sessionId, threadIds, t, t', dead, dead',
                                    config.uclampMinOn, GpuOn())
      ensures ClampsFollow(sessionId, t') && (sessionId in GetModel() ==> GpuFollows(t'))
      ensures config.uclampMinOn ==>
                OtherSessions.ClampedBy(kernelClamp, Others(sessionId),
                                        Dropped(ThreadsOf(old(GetModel()), sessionId), threadIds, dead), t, config.cap)
      ensures Others(sessionId) == old(Others(sessionId))
    {
      hide *;
      ghost var m, k := GetModel(), GetKernel();
      ForceSessionActive(sessionId, false, t, dead);
      ghost var m1, clamps1 := GetModel(), kernelClamp;
      ReplaceThreads(sessionId, threadIds);
      ghost var m2 := GetModel();
      ForceSessionActive(sessionId, true, t', dead');
      SetThreadsModel(m, sessionId, threadIds, dead, dead', config.uclampMinOn);
      KernelOfSetThreads(k, m, sessionId, threadIds, t, t', dead, dead', config.uclampMinOn, GpuOn());
      if config.uclampMinOn {
        DroppedThreads(m, sessionId, threadIds, dead);
        OtherSessions.ClampedElsewhere(clamps1, kernelClamp, Others(sessionId), ThreadsOf(m1, sessionId),
                                       ThreadsOf(m2, sessionId),
                                       Dropped(ThreadsOf(m, sessionId), threadIds, dead), t, config.cap);
      }
    }

    method AddToIndex(sessionId: int, sv: SessionValue)
      requires Valid()
      modifies sessionTaskMap
      ensures Valid()
      ensures GetModel() == AfterAdd(old(GetModel()), sessionId, sv)
    {
      ghost var sessions0, tasks0, values0 := sessionTaskMap.mSessions, sessionTaskMap.mTasks, sessionTaskMap.values;
      ghost var v := sessionTaskMap.nextRef;
      var added := sessionTaskMap.Add(sessionId, sv, []);
      if added {
        ModelAdded(sessions0, tasks0, values0, sessionId, v, sv.(sessionId := sessionId), []);
      }
    }

    /** Adds a session with an inactive default vote and gives it its threads. */
    method AddPowerSession(sessionId: int, isActive: bool, isAppSession: bool, targetNs: int, threadIds: seq<int>,
                           timeNow: int, t: int, t': int, dead: set<int>, dead': set<int>)
      requires Valid()
      modifies this, sessionTaskMap
      ensures Valid()
      ensures var sv := SessionValue(0, isActive, isAppSession, false, Protocol.NewTable(timeNow, targetNs));
              && GetModel() == AfterSetThreads(AfterAdd(old(GetModel()), sessionId, sv), sessionId, threadIds, dead',
                                               config.uclampMinOn)
              && GetKernel() ==
                 KernelAfterSetThreads(old(GetKernel()), AfterAdd(old(GetModel()), sessionId, sv), sessionId, threadIds,
                                       t, t', dead, dead', config.uclampMinOn, GpuOn())
      ensures ClampsFollow(sessionId, t') && GpuFollows(t')
    {
      var vote := CpuVote(VoteRange(false, timeNow, targetNs), UclampRange(UCLAMP_MIN, UCLAMP_MAX));
      var votes := VoteTable(map[], map[]).AddCpu(CPU_VOTE_DEFAULT, vote);
      AddToIndex(sessionId, SessionValue(0, isActive, isAppSession, false, votes));
      SetThreadsFromPowerSession(sessionId, threadIds, t, t', dead, dead');
    }

    method RemoveFromIndex(sessionId: int)
      requires Valid()
      requires ThreadsOf(GetModel(), sessionId) == []
      modifies sessionTaskMap
      ensures Valid()
      ensures GetModel() == old(GetModel()) - {sessionId}
      ensures Others(sessionId) == old(Others(sessionId))
    {
      hide OtherSessions.OthersOf, PriorityQueueWorker.Valid, MapsValid, ModelOf;
      ghost var sessions0, tasks0, values0 := sessionTaskMap.mSessions, sessionTaskMap.mTasks, sessionTaskMap.values;
      var removed := sessionTaskMap.Remove(sessionId);
      if removed {
        RemovedEmpty(sessions0, tasks0, values0, sessionId);
      } else {
        assert old(GetModel()) - {sessionId} == old(GetModel());
      }
    }

    method RemovePowerSession(sessionId: int, t: int, dead: set<int>)
      requires Valid()
      modifies this, sessionTaskMap
      ensures Valid()
      ensures GetModel() == old(GetModel()) - {sessionId}
      ensures GetKernel() ==
              ApplyBoth(old(GetKernel()), WithActive(old(GetModel()), sessionId, false), sessionId, t, dead,
                        config.uclampMinOn, GpuOn())
      ensures config.uclampMinOn ==>
                OtherSessions.ClampedBy(kernelClamp, Others(sessionId),
                                        Dropped(ThreadsOf(old(GetModel()), sessionId), [], dead), t, config.cap)
      ensures Others(sessionId) == old(Others(sessionId))
    {
      hide *;
      ghost var m := GetModel();
      ForceSessionActive(sessionId, false, t, dead);
      ghost var m1 := GetModel();
      ReplaceThreads(sessionId, []);
      EmptyTasks(m1, sessionId);
      RemoveFromIndex(sessionId);
      RemoveModel(m, sessionId, dead, config.uclampMinOn);
      DroppedThreads(m, sessionId, [], dead);
    }
  }
}
