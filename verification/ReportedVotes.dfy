/** What an accepted report leaves behind: the boosts that hints have asked for are over, and the
    session's threads follow the control variable that the report has set. */
module ReportedVotes {
  import opened Arith
  import opened UclampVoter
  import opened GpuCapacity
  import opened SessionTaskMap
  import opened SessionRecords
  import opened SessionModel
  import opened ThreadFloors
  import opened HintSession
  import opened ManagerSteps
  import opened SessionSystem
  import opened SystemTimeouts
  import opened BoostedThreads
  import opened GpuNode
  import opened ServedVotes

  // ---------------------------------------------------------------------------------------------
  // Which votes are ever on
  // ---------------------------------------------------------------------------------------------

  ghost predicate OnlyCastVotes(m: Model) {
    forall id, v :: id in m && m[id].value.votes.IsActive(v) ==> IsCpuCast(v) || IsGpuCast(v)
  }

  /** The vote that an operation casts, if any. */
  predicate Casts(act: Act, v: int) {
    || (act.CastCpu? && v == act.voteId) || (act.CastGpu? && v == act.voteId)
    || (act.Recast? && v == CPU_VOTE_DEFAULT)
  }

  /** A vote that is on after an operation was on before or has been cast by it. */
  lemma OnBeforeOrCast(m: Model, act: Act, id: int, v: int)
    requires var m' := Changed(m, act); id in m' && m'[id].value.votes.IsActive(v)
    requires act.Add? ==> act.sv.votes.gpu == map[] && forall j :: j in act.sv.votes.cpu ==>
                                                                     !act.sv.votes.cpu[j].timing.active
    ensures Casts(act, v) || (id in m && m[id].value.votes.IsActive(v))
  {
  }

  lemma OnlyCastAct(p: Profile, c: Core, act: Act)
    requires OnlyCastVotes(c.m) && ManagerSteps.Enabled(p, c, act)
    ensures OnlyCastVotes(Perform(p, c, act).m)
  {
    hide Changed, VoteTable.IsActive;
    var m, c' := Changed(c.m, act), Perform(p, c, act);
    assert forall id :: id in c'.m ==> id in m && c'.m[id].value == m[id].value;
    forall id, v | id in m && m[id].value.votes.IsActive(v) ensures IsCpuCast(v) || IsGpuCast(v) {
      OnBeforeOrCast(c.m, act, id, v);
    }
  }

  lemma {:induction false} OnlyCastActs(p: Profile, c: Core, acts: seq<Act>)
    requires OnlyCastVotes(c.m) && ManagerSteps.Legal(p, c, acts)
    ensures OnlyCastVotes(ManagerSteps.Final(p, c, acts).m)
    decreases |acts|
  {
    hide OnlyCastVotes, Perform;
    if acts != [] {
      OnlyCastAct(p, c, acts[0]);
      OnlyCastActs(p, Perform(p, c, acts[0]), acts[1..]);
    }
  }

  lemma OnlyCastRun(p: Profile, clock: int, ops: seq<Op>)
    requires SessionSystem.Legal(p, SessionSystem.Initial(clock), ops)
    ensures OnlyCastVotes(SessionSystem.Final(p, SessionSystem.Initial(clock), ops).model)
  {
    assert OnlyCastVotes(SessionSystem.Initial(clock).model);
    hide OnlyCastVotes, ManagerSteps.Legal, ManagerSteps.Final, SessionSystem.Final, ActsIn;
    RunDoes(p, SessionSystem.Initial(clock), ops);
    OnlyCastActs(p, CoreAt(SessionSystem.Initial(clock)), ActsIn(p, SessionSystem.Initial(clock), ops));
  }

  // ---------------------------------------------------------------------------------------------
  // After a report
  // ---------------------------------------------------------------------------------------------

  predicate IsReport(s: System, op: Op) {
    op.Invoke? && op.call.ReportActual? && op.id in s.desc && Accepts(s.desc[op.id], op.call.works)
  }

  function RecastOf(p: Profile, s: System, op: Op): Act
    requires SessionSystem.Enabled(p, s, op) && IsReport(s, op)
  {
    var d := s.desc[op.id];
    Recast(op.id, Vote(op.readings.first.now, PidVoteNs(p, d.targetNs), ReportedMin(p, d, op.call.works)),
           op.readings.first.dead)
  }

  /** What a report does to CPU votes and clamps, it does with its vote for the control variable. */
  lemma ReportRecasts(p: Profile, s: System, op: Op)
    requires SessionSystem.Enabled(p, s, op) && IsReport(s, op)
    ensures var s', c := SessionSystem.Next(p, s, op), Perform(p, CoreAt(s), RecastOf(p, s, op));
            && s'.kernel.floors == c.k.floors && s'.kernel.dead == c.k.dead && s'.model.Keys == c.m.Keys
            && forall j :: j in c.m ==>
                 && s'.model[j].tasks == c.m[j].tasks && s'.model[j].value.isActive == c.m[j].value.isActive
                 && s'.model[j].value.votes.cpu == c.m[j].value.votes.cpu
                 && forall v :: v != GPU_CAPACITY ==>
                      s'.model[j].value.votes.Timing(v) == c.m[j].value.votes.Timing(v)
  {
    assert ActsOf(p, s, op)[0] == RecastOf(p, s, op) by {
      hide ReportedMin, GpuVoteOf, CapacityDefined, ArithmeticDefined;
    }
    hide Does, ActsOf, SessionSystem.Next, RecastOf, SessionSystem.Enabled;
    var c, c', acts := CoreAt(s), CoreAt(SessionSystem.Next(p, s, op)), ActsOf(p, s, op);
    StepDoes(p, s, op);
    ReportShape(p, s, op);
    if CastsGpu(p, op.call.works, op.call.gpuFrequency) {
      TwoDone(p, c, acts[0], acts[1], c');
      GpuCastOnly(p, Perform(p, c, acts[0]), acts[1]);
    } else {
      OneDone(p, c, acts[0], c');
    }
  }

  /** A GPU vote changes the session's GPU votes and the node only. */
  lemma GpuCastOnly(p: Profile, c: Core, act: Act)
    requires act.CastGpu?
    ensures var c' := Perform(p, c, act);
            && c'.k.floors == c.k.floors && c'.k.dead == c.k.dead && c'.m.Keys == c.m.Keys
            && forall j :: j in c.m ==>
                 && c'.m[j].tasks == c.m[j].tasks && c'.m[j].value.isActive == c.m[j].value.isActive
                 && c'.m[j].value.votes.cpu == c.m[j].value.votes.cpu
                 && forall v :: v != act.voteId ==>
                      c'.m[j].value.votes.Timing(v) == c.m[j].value.votes.Timing(v)
  {
  }

  /** After the boosts are off and the default vote is cast, no other vote is on but the capacity vote. */
  lemma RecastLeaves(p: Profile, c: Core, act: Act, v: int)
    requires act.Recast? && act.id in c.m && OnlyCastVotes(c.m)
    ensures var c' := Perform(p, c, act);
            && act.id in c'.m && c'.m[act.id].value.votes.Timing(CPU_VOTE_DEFAULT) == Some(act.cpu.timing)
            && (c'.m[act.id].value.votes.IsActive(v) ==> v == CPU_VOTE_DEFAULT || v == GPU_CAPACITY)
  {
    var votes := c.m[act.id].value.votes;
    assert votes.IsActive(v) ==> IsCpuCast(v) || IsGpuCast(v);
    LeftOn(votes, act.cpu, v);
    assert Perform(p, c, act).m[act.id].value.votes == votes.DisableAll(BOOST_VOTES).AddCpu(CPU_VOTE_DEFAULT, act.cpu);
  }

  lemma LeftOn(votes: VoteTable, vote: CpuVote, v: int)
    requires votes.IsActive(v) ==> IsCpuCast(v) || IsGpuCast(v)
    ensures votes.DisableAll(BOOST_VOTES).AddCpu(CPU_VOTE_DEFAULT, vote).IsActive(v) ==>
              v == CPU_VOTE_DEFAULT || v == GPU_CAPACITY
  {
    var off := votes.DisableAll(BOOST_VOTES);
    assert off.IsActive(v) ==> votes.IsActive(v);
    BoostsOff(votes);
    assert off.IsActive(v) ==> v == CPU_VOTE_DEFAULT || v == GPU_CAPACITY;
  }

  /** In every run, right after an accepted report the votes of its session that are on are the default
      vote and perhaps the capacity vote: whatever hints have asked for is over. */
  lemma ReportLeavesOwnVotes(p: Profile, clock: int, ops: seq<Op>, op: Op, v: int)
    requires SessionSystem.Legal(p, SessionSystem.Initial(clock), ops)
    requires var s := SessionSystem.Final(p, SessionSystem.Initial(clock), ops);
             SessionSystem.Enabled(p, s, op) && IsReport(s, op)
    ensures var s' := SessionSystem.Next(p, SessionSystem.Final(p, SessionSystem.Initial(clock), ops), op);
            VoteActive(s', op.id, v) ==> v == CPU_VOTE_DEFAULT || v == GPU_CAPACITY
  {
    hide SessionSystem.Next, SessionSystem.Final, SessionSystem.Legal, OnlyCastVotes, Perform, RecastOf;
    var s := SessionSystem.Final(p, SessionSystem.Initial(clock), ops);
    OnlyCastRun(p, clock, ops);
    ReportRecasts(p, s, op);
    RecastKnown(p, s, op);
    if op.id in s.model {
      RecastLeaves(p, CoreAt(s), RecastOf(p, s, op), v);
    }
  }

  lemma RecastKnown(p: Profile, s: System, op: Op)
    requires SessionSystem.Enabled(p, s, op) && IsReport(s, op)
    ensures var act := RecastOf(p, s, op);
            act.Recast? && act.id == op.id && Perform(p, CoreAt(s), act).m.Keys == s.model.Keys
  {
  }

  /** The control variable that a report sets. */
  lemma ReportedVariable(p: Profile, s: System, op: Op)
    requires SessionSystem.Enabled(p, s, op) && IsReport(s, op)
    ensures var s' := SessionSystem.Next(p, s, op);
            op.id in s'.desc && s'.desc[op.id].pidControlVariable == ReportedMin(p, s.desc[op.id], op.call.works)
  {
    hide SetPid, ApplyBoth, SweepModel, Controlled, NextMin, ArithmeticDefined, AfterDisable, GpuVoteOf,
         CapacityDefined;
  }

  /** Session `id` alone speaks for thread `x`. */
  ghost predicate SpeaksAlone(m: Model, id: int, x: int) {
    Speaks(m, id, x) && forall j :: Speaks(m, j, x) ==> j == id
  }

  /** In every run, right after an accepted report, a thread that the session has for itself is asked for
      exactly the control variable as long as the vote for it lasts, and for nothing after that; and if it
      lives, that is the clamp it has. */
  lemma ReportSetsClamp(p: Profile, clock: int, ops: seq<Op>, op: Op, x: int, t: int)
    requires SessionSystem.Legal(p, SessionSystem.Initial(clock), ops)
    requires var s := SessionSystem.Final(p, SessionSystem.Initial(clock), ops);
             && SessionSystem.Enabled(p, s, op) && IsReport(s, op)
             && SpeaksAlone(SessionSystem.Next(p, s, op).model, op.id, x)
    ensures var s := SessionSystem.Final(p, SessionSystem.Initial(clock), ops);
            var s', start := SessionSystem.Next(p, s, op), op.readings.first.now;
            var level := Level(s'.desc[op.id].pidControlVariable);
            var lasts := PidVoteNs(p, s.desc[op.id].targetNs);
            && FloorOf(s'.model, x, t) == (if start <= t <= start + lasts then level else UCLAMP_MIN)
            && (p.uclampMinOn && x !in op.readings.first.dead && 0 <= lasts ==>
                  x in s'.kernel.floors && s'.kernel.floors[x] == level)
  {
    hide SessionSystem.Next, SessionSystem.Final, SessionSystem.Legal, OnlyCastVotes, Perform, FloorOf, ReportedMin,
         ArithmeticDefined, PidVoteNs;
    var s := SessionSystem.Final(p, SessionSystem.Initial(clock), ops);
    var s', act := SessionSystem.Next(p, s, op), RecastOf(p, s, op);
    var c := Perform(p, CoreAt(s), act);
    RunSound(p, SessionSystem.Initial(clock), ops, false);
    OnlyCastRun(p, clock, ops);
    ReportRecasts(p, s, op);
    ReportedVariable(p, s, op);
    SameFloors(c.m, s'.model, x, t);
    SameFloors(c.m, s'.model, x, TimeOf(act));
    assert SpeaksAlone(c.m, op.id, x) by {
      assert forall j :: Speaks(s'.model, j, x) <==> Speaks(c.m, j, x);
    }
    AloneClamp(p, s, act, x, t);
    AloneClamp(p, s, act, x, TimeOf(act));
    if p.uclampMinOn && x !in act.dead {
      FloorApplied(p, CoreAt(s), act, x);
    }
  }

  /** Thread `x` hears the same sessions with the same CPU votes. */
  ghost predicate HeardAlike(m: Model, m': Model) {
    m'.Keys == m.Keys &&
    forall j :: j in m ==> m'[j].tasks == m[j].tasks && m'[j].value.isActive == m[j].value.isActive &&
                           m'[j].value.votes.cpu == m[j].value.votes.cpu
  }

  lemma SameFloors(m: Model, m': Model, x: int, t: int)
    requires HeardAlike(m, m')
    ensures FloorOf(m', x, t) == FloorOf(m, x, t)
  {
    assert forall j :: j in m ==> m'[j].value.votes.LiveMins(t) == m[j].value.votes.LiveMins(t);
    assert forall j :: Speaks(m', j, x) <==> Speaks(m, j, x);
    assert LiveAsked(m', x, t) == LiveAsked(m, x, t);
  }

  /** What the vote that a report casts asks of a thread that the session has for itself. */
  lemma AloneClamp(p: Profile, s: System, act: Act, x: int, t: int)
    requires Sound(p, s, false) && OnlyCastVotes(s.model) && act.Recast? && act.cpu.timing.active
    requires var m := Perform(p, CoreAt(s), act).m; SpeaksAlone(m, act.id, x)
    ensures FloorOf(Perform(p, CoreAt(s), act).m, x, t) ==
            if act.cpu.timing.IsTimeInRange(t) then Level(act.cpu.range.uclampMin) else UCLAMP_MIN
  {
    var m := Perform(p, CoreAt(s), act).m;
    var votes := m[act.id].value.votes;
    OnlyDefaultCpu(p, s, act, t);
    assert LiveAsked(m, x, t) == votes.LiveMins(t);
  }

  lemma OnlyDefaultCpu(p: Profile, s: System, act: Act, t: int)
    requires Sound(p, s, false) && OnlyCastVotes(s.model) && act.Recast? && act.cpu.timing.active
    requires act.id in s.model
    ensures act.id in Perform(p, CoreAt(s), act).m
    ensures Perform(p, CoreAt(s), act).m[act.id].value.votes.LiveMins(t) ==
            if act.cpu.timing.IsTimeInRange(t) then {act.cpu.range.uclampMin} else {}
  {
    var votes := Perform(p, CoreAt(s), act).m[act.id].value.votes;
    assert votes.cpu[CPU_VOTE_DEFAULT] == act.cpu;
    forall v | v in votes.cpu && votes.cpu[v].timing.active ensures v == CPU_VOTE_DEFAULT {
      assert SoundAt(p, s, act.id, false);
      RecastLeaves(p, CoreAt(s), act, v);
    }
  }

  lemma FloorApplied(p: Profile, c: Core, act: Act, x: int)
    requires p.uclampMinOn && act.Recast? && act.id in Perform(p, c, act).m
    requires x in Perform(p, c, act).m[act.id].tasks && x !in act.dead
    ensures var c' := Perform(p, c, act);
            x in c'.k.floors && c'.k.floors[x] == FloorOf(c'.m, x, TimeOf(act))
  {
    hide Changed, LiveAsked;
    var m := Changed(c.m, act);
    SweptTasks(m, act.id, act.dead, x);
    FloorSwept(m, act.id, act.dead, x, TimeOf(act));
  }

  lemma FloorSwept(m: Model, id: int, dead: set<int>, x: int, t: int)
    requires id in m && x !in dead
    ensures FloorOf(SweepModel(m, id, dead, true), x, t) == FloorOf(m, x, t)
  {
    var m' := SweepModel(m, id, dead, true);
    SweptTasks(m, id, dead, x);
    assert forall j :: Speaks(m', j, x) <==> Speaks(m, j, x);
    assert forall j :: j in m ==> m'[j].value == m[j].value;
    assert LiveAsked(m', x, t) == LiveAsked(m, x, t);
  }

  // ---------------------------------------------------------------------------------------------
  // The GPU vote of a report
  // ---------------------------------------------------------------------------------------------

  /** The capacity vote that a report casts: what its last frame calls for, cut to what is configured. */
  function CapacityVote(p: Profile, s: System, op: Op): GpuVote
    requires SessionSystem.Enabled(p, s, op) && IsReport(s, op)
    requires CastsGpu(p, op.call.works, op.call.gpuFrequency)
  {
    var last, target := op.call.works[|op.call.works| - 1], s.desc[op.id].targetNs;
    var capacity := CalculateCapacity(last.durationNanos, last.cpuDurationNanos, last.gpuDurationNanos, target,
                                      op.call.gpuFrequency.value);
    GpuVote(VoteRange(true, op.readings.second.now, p.staleNs(target)), Max(0, Min(p.gpuCapacityMax.value, capacity)))
  }

  /** An accepted report that comes to vote for the GPU leaves that vote behind, and one that does not
      leaves the capacity vote as it was. */
  lemma ReportGpuVote(p: Profile, s: System, op: Op)
    requires SessionSystem.Enabled(p, s, op) && IsReport(s, op) && op.id in s.model
    ensures var s' := SessionSystem.Next(p, s, op);
            && op.id in s'.model
            && var votes, votes' := s.model[op.id].value.votes, s'.model[op.id].value.votes;
               var last := op.call.works[|op.call.works| - 1];
               if p.pidOn && p.gpuBoostOn && p.gpuCapacityMax.Some? && op.call.gpuFrequency.Some? &&
                  last.gpuDurationNanos != 0
               then GPU_CAPACITY in votes'.gpu && votes'.gpu[GPU_CAPACITY] == CapacityVote(p, s, op)
               else votes'.Timing(GPU_CAPACITY) == votes.Timing(GPU_CAPACITY) &&
                    (GPU_CAPACITY in votes.gpu ==>
                       GPU_CAPACITY in votes'.gpu &&
                           votes'.gpu[GPU_CAPACITY].capacity == votes.gpu[GPU_CAPACITY].capacity)
  {
    var acts := ActsOf(p, s, op);
    assert CastsGpu(p, op.call.works, op.call.gpuFrequency) ==>
             |acts| == 2 && acts[1] == CastGpu(op.id, GPU_CAPACITY, CapacityVote(p, s, op)) by {
      hide ReportedMin, PidAct, ArithmeticDefined, CalculateCapacity;
    }
    hide Does, ActsOf, SessionSystem.Next, SessionSystem.Enabled, CapacityVote, Perform;
    var c, c' := CoreAt(s), CoreAt(SessionSystem.Next(p, s, op));
    StepDoes(p, s, op);
    ReportShape(p, s, op);
    RecastCapacity(p, c, acts[0]);
    if CastsGpu(p, op.call.works, op.call.gpuFrequency) {
      TwoDone(p, c, acts[0], acts[1], c');
      CapacityCast(p, Perform(p, c, acts[0]), acts[1]);
    } else {
      OneDone(p, c, acts[0], c');
    }
  }

  lemma CapacityCast(p: Profile, c: Core, act: Act)
    requires act.CastGpu? && act.voteId == GPU_CAPACITY && act.id in c.m
    ensures var c' := Perform(p, c, act);
            act.id in c'.m && GPU_CAPACITY in c'.m[act.id].value.votes.gpu &&
            c'.m[act.id].value.votes.gpu[GPU_CAPACITY] == act.gpu
  {
  }

  lemma RecastCapacity(p: Profile, c: Core, act: Act)
    requires act.Recast? && act.id in c.m
    ensures var c' := Perform(p, c, act);
            && act.id in c'.m
            && var votes, votes' := c.m[act.id].value.votes, c'.m[act.id].value.votes;
               && votes'.Timing(GPU_CAPACITY) == votes.Timing(GPU_CAPACITY)
               && (GPU_CAPACITY in votes.gpu ==> GPU_CAPACITY in votes'.gpu &&
                                                 votes'.gpu[GPU_CAPACITY].capacity == votes.gpu[GPU_CAPACITY].capacity)
  {
    assert GPU_CAPACITY !in BOOST_VOTES;
  }
}
