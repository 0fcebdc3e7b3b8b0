/** What the GPU capacity node holds in the runs of the system. Some operations take GPU votes away
    without writing the node, and then it keeps a value that nothing asks for. */
module GpuNode {
  import opened Arith
  import opened UclampVoter
  import opened SessionTaskMap
  import opened SessionRecords
  import opened SessionModel
  import opened ThreadFloors
  import opened HintSession
  import opened ManagerSteps
  import opened SessionSystem
  import opened SystemTimeouts

  /** What a GPU vote asks for as long as it is on. */
  function OnDemand(votes: VoteTable, voteId: int): int {
    if voteId in votes.gpu && votes.gpu[voteId].timing.active then votes.gpu[voteId].capacity else 0
  }

  /** What the GPU votes of a session that are on ask for together. */
  function OnRequest(votes: VoteTable): int {
    OnDemand(votes, GPU_CAPACITY) + OnDemand(votes, GPU_LOAD_UP)
  }

  /** Session `id` asks for at least `g`. */
  predicate Asks(m: Model, id: int, g: int) {
    id in m && g <= OnRequest(m[id].value.votes)
  }

  /** The node's value is zero, or some session's votes that are on ask for it. */
  ghost predicate NodeBacked(m: Model, g: int) {
    g <= 0 || exists id :: Asks(m, id, g)
  }

  /** The node's value is asked for even if session `id` has no boost on. */
  ghost predicate BackedWithoutBoosts(m: Model, id: int, g: int) {
    || g <= 0 || (exists j :: j != id && Asks(m, j, g))
    || (id in m && g <= OnDemand(m[id].value.votes, GPU_CAPACITY))
  }

  /** The node's value is asked for even without session `id`. */
  ghost predicate BackedWithout(m: Model, id: int, g: int) {
    g <= 0 || exists j :: j != id && Asks(m, j, g)
  }

  predicate InLimits(p: Profile, g: int) {
    0 <= g <= p.GpuLimit() + p.gpuLoadUpHeadroom
  }

  /** GPU votes and node are within their limits, and a node that is not used has never been written. */
  ghost predicate GpuFine(p: Profile, c: Core) {
    VotesFine(p, c.m) && InLimits(p, c.k.gpu) && (!p.gpuNodeOn ==> c.k.gpu == 0)
  }

  // ---------------------------------------------------------------------------------------------
  // Operations of the manager
  // ---------------------------------------------------------------------------------------------

  /** What is written is within the limits and asked for. */
  lemma Written(p: Profile, m: Model, t: int)
    requires VotesFine(p, m)
    ensures var g := Highest(0, GpuDemands(m, t)); InLimits(p, g) && NodeBacked(m, g)
  {
    var g := Highest(0, GpuDemands(m, t));
    if 0 < g {
      var id :| id in m && m[id].value.votes.GpuRequest(t) == g;
      assert GpuRangeOf(p, m, id) && Asks(m, id, g);
    }
  }

  /** Every session's GPU votes are within their limits. */
  ghost predicate VotesFine(p: Profile, m: Model) {
    forall id :: id in m ==> GpuRangeOf(p, m, id)
  }

  lemma ChangedFine(p: Profile, c: Core, act: Act)
    requires VotesFine(p, c.m) && ManagerSteps.Enabled(p, c, act)
    ensures VotesFine(p, Changed(c.m, act))
  {
    var m := Changed(c.m, act);
    forall id | id in m ensures GpuRangeOf(p, m, id) {
      assert id in c.m ==> GpuRangeOf(p, c.m, id);
    }
  }

  lemma SweptFine(p: Profile, m: Model, id: int, dead: set<int>, on: bool)
    requires VotesFine(p, m)
    ensures VotesFine(p, SweepModel(m, id, dead, on))
  {
    var m' := SweepModel(m, id, dead, on);
    assert forall j :: j in m' ==> j in m && m'[j].value == m[j].value && GpuRangeOf(p, m, j);
  }

  lemma GpuFineAct(p: Profile, c: Core, act: Act)
    requires GpuFine(p, c) && ManagerSteps.Enabled(p, c, act)
    ensures GpuFine(p, Perform(p, c, act))
  {
    hide Changed, SweepModel, GpuRangeOf, VotesFine, InLimits, GpuDemands, ApplyTo;
    var m := Changed(c.m, act);
    ChangedFine(p, c, act);
    SweptFine(p, m, SessionOf(act), DeadOf(act), p.uclampMinOn && OnCpu(act));
    Written(p, m, TimeOf(act));
    UclampOnly(c.k, m, SessionOf(act), TimeOf(act), DeadOf(act), p.uclampMinOn && OnCpu(act));
  }

  lemma UclampOnly(k: Kernel, m: Model, id: int, t: int, dead: set<int>, on: bool)
    ensures ApplyTo(k, m, id, t, dead, on).gpu == k.gpu
  {
  }

  lemma {:induction false} GpuFineActs(p: Profile, c: Core, acts: seq<Act>)
    requires GpuFine(p, c) && ManagerSteps.Legal(p, c, acts)
    ensures GpuFine(p, ManagerSteps.Final(p, c, acts))
    decreases |acts|
  {
    hide GpuFine, Perform;
    if acts != [] {
      GpuFineAct(p, c, acts[0]);
      GpuFineActs(p, Perform(p, c, acts[0]), acts[1..]);
    }
  }

  /** Every session asks for as much as before. */
  ghost predicate AsksKept(m: Model, m': Model) {
    forall id :: id in m ==> id in m' && OnRequest(m[id].value.votes) <= OnRequest(m'[id].value.votes)
  }

  lemma BackingKept(m: Model, m': Model, g: int)
    requires AsksKept(m, m') && NodeBacked(m, g)
    ensures NodeBacked(m', g)
  {
    if 0 < g {
      var id :| Asks(m, id, g);
      assert Asks(m', id, g);
    }
  }

  /** Operations that leave GPU votes and node alone. */
  lemma UnrelatedBacked(p: Profile, c: Core, act: Act)
    requires NodeBacked(c.m, c.k.gpu) && !OnGpu(act) && !act.Recast? && !act.Drop?
    ensures var c' := Perform(p, c, act); NodeBacked(c'.m, c'.k.gpu)
  {
    var m := Changed(c.m, act);
    assert AsksKept(c.m, m);
    hide Changed, ApplyTo, NodeBacked, AsksKept;
    BackingKept(c.m, m, c.k.gpu);
    SweptAsks(m, SessionOf(act), DeadOf(act), p.uclampMinOn && OnCpu(act), c.k.gpu);
    UclampOnly(c.k, m, SessionOf(act), TimeOf(act), DeadOf(act), p.uclampMinOn && OnCpu(act));
  }

  /** Operations that write the node. */
  lemma WrittenBacked(p: Profile, c: Core, act: Act)
    requires GpuFine(p, c) && ManagerSteps.Enabled(p, c, act) && OnGpu(act)
    requires act.id in c.m || NodeBacked(c.m, c.k.gpu)
    ensures var c' := Perform(p, c, act); NodeBacked(c'.m, c'.k.gpu)
  {
    var m, c' := Changed(c.m, act), Perform(p, c, act);
    assert (act.id in c.m <==> act.id in m) && (act.id !in c.m ==> m == c.m);
    hide Changed, GpuRangeOf, VotesFine, InLimits, GpuDemands, ApplyTo, NodeBacked;
    ChangedFine(p, c, act);
    Written(p, m, TimeOf(act));
    SweptAsks(m, act.id, DeadOf(act), p.uclampMinOn && OnCpu(act), c'.k.gpu);
    UclampOnly(c.k, m, act.id, TimeOf(act), DeadOf(act), p.uclampMinOn && OnCpu(act));
    ZeroBacked(c'.m);
  }

  lemma SweptAsks(m: Model, id: int, dead: set<int>, on: bool, g: int)
    ensures NodeBacked(m, g) ==> NodeBacked(SweepModel(m, id, dead, on), g)
  {
    if NodeBacked(m, g) {
      BackingKept(m, SweepModel(m, id, dead, on), g);
    }
  }

  lemma ZeroBacked(m: Model)
    ensures NodeBacked(m, 0)
  {
  }

  lemma DropBackedIff(p: Profile, c: Core, id: int)
    ensures var c' := Perform(p, c, Drop(id));
            c'.k.gpu == c.k.gpu && (NodeBacked(c'.m, c.k.gpu) <==> BackedWithout(c.m, id, c.k.gpu))
  {
    var c', g := Perform(p, c, Drop(id)), c.k.gpu;
    assert forall j :: Asks(c'.m, j, g) <==> j != id && Asks(c.m, j, g);
  }

  lemma RecastBackedIff(p: Profile, c: Core, act: Act)
    requires act.Recast? && NodeBacked(c.m, c.k.gpu)
    ensures var c' := Perform(p, c, act);
            c'.k.gpu == c.k.gpu && (NodeBacked(c'.m, c.k.gpu) <==> BackedWithoutBoosts(c.m, act.id, c.k.gpu))
  {
    var c', g, id := Perform(p, c, act), c.k.gpu, act.id;
    RecastVotes(p, c, act);
    hide Perform;
    assert forall j :: j != id ==> (Asks(c'.m, j, g) <==> Asks(c.m, j, g));
    assert Asks(c'.m, id, g) <==> id in c.m && g <= OnDemand(c.m[id].value.votes, GPU_CAPACITY);
  }

  /** Switching the boosts off leaves only the capacity vote of the session's GPU votes on. */
  lemma RecastVotes(p: Profile, c: Core, act: Act)
    requires act.Recast?
    ensures var c' := Perform(p, c, act);
            && c'.k.gpu == c.k.gpu && (forall j :: j in c'.m <==> j in c.m)
            && (forall j :: j in c.m && j != act.id ==> c'.m[j].value.votes == c.m[j].value.votes)
            && (act.id in c.m ==>
                  OnRequest(c'.m[act.id].value.votes) == OnDemand(c.m[act.id].value.votes, GPU_CAPACITY))
  {
    if act.id in c.m {
      var votes := c.m[act.id].value.votes;
      var off := votes.DisableAll(BOOST_VOTES);
      assert GPU_LOAD_UP in BOOST_VOTES && GPU_CAPACITY !in BOOST_VOTES;
      assert off.Timing(GPU_CAPACITY) == votes.Timing(GPU_CAPACITY);
      assert !off.IsActive(GPU_LOAD_UP);
    }
  }

  /** Only switching boosts off and dropping a session can take the node's backing away. */
  lemma BackedAct(p: Profile, c: Core, act: Act)
    requires GpuFine(p, c) && ManagerSteps.Enabled(p, c, act) && NodeBacked(c.m, c.k.gpu)
    ensures var c' := Perform(p, c, act);
            NodeBacked(c'.m, c'.k.gpu) <==>
            && (act.Recast? ==> BackedWithoutBoosts(c.m, act.id, c.k.gpu))
            && (act.Drop? ==> BackedWithout(c.m, act.id, c.k.gpu))
  {
    hide Perform, NodeBacked, BackedWithout, BackedWithoutBoosts, GpuFine;
    if OnGpu(act) {
      WrittenBacked(p, c, act);
    } else if act.Drop? {
      DropBackedIff(p, c, act.id);
    } else if act.Recast? {
      RecastBackedIff(p, c, act);
    } else {
      UnrelatedBacked(p, c, act);
    }
  }

  lemma {:induction false} BackedActs(p: Profile, c: Core, acts: seq<Act>)
    requires GpuFine(p, c) && ManagerSteps.Legal(p, c, acts) && NodeBacked(c.m, c.k.gpu)
    requires forall i :: 0 <= i < |acts| ==> !acts[i].Recast? && !acts[i].Drop?
    ensures var c' := ManagerSteps.Final(p, c, acts); NodeBacked(c'.m, c'.k.gpu)
    decreases |acts|
  {
    hide GpuFine, Perform, NodeBacked;
    if acts != [] {
      GpuFineAct(p, c, acts[0]);
      BackedAct(p, c, acts[0]);
      BackedActs(p, Perform(p, c, acts[0]), acts[1..]);
    }
  }

  // ---------------------------------------------------------------------------------------------
  // Steps of the system
  // ---------------------------------------------------------------------------------------------

  ghost predicate Backed(s: System) { NodeBacked(s.model, s.kernel.gpu) }

  /** The value of the node when session `id` closes, just before the session is dropped. */
  ghost function NodeAtClose(p: Profile, s: System, id: int, t: int): int {
    if p.gpuNodeOn && id in s.model then Highest(0, GpuDemands(s.model, t)) else s.kernel.gpu
  }

  /** The step leaves the node with a value that no vote asks for: an accepted report without a GPU vote
      of its own switches off the load-up boost behind it, or a session closes whose votes are behind it. */
  ghost predicate LeavesNodeStale(p: Profile, s: System, op: Op) {
    op.Invoke? && op.id in s.desc &&
    match op.call
    case ReportActual(works, gpuFrequency) =>
      && Accepts(s.desc[op.id], works) && !CastsGpu(p, works, gpuFrequency)
      && !BackedWithoutBoosts(s.model, op.id, s.kernel.gpu)
    case Close =>
      && !s.desc[op.id].closed
      && !BackedWithout(s.model, op.id, NodeAtClose(p, s, op.id, op.readings.first.now))
    case _ => false
  }

  /** The operations of a report: none, the recast vote, or that and a GPU vote. */
  lemma ReportShape(p: Profile, s: System, op: Op)
    requires SessionSystem.Enabled(p, s, op) && op.Invoke? && op.call.ReportActual?
    ensures var acts := ActsOf(p, s, op);
            if !Accepts(s.desc[op.id], op.call.works) then acts == []
            else if !CastsGpu(p, op.call.works, op.call.gpuFrequency)
            then acts == [acts[0]] && acts[0].Recast? && acts[0].id == op.id
            else
              && acts == [acts[0], acts[1]] && acts[0].Recast? && acts[1].CastGpu?
              && acts[0].id == acts[1].id == op.id && acts[1].voteId == GPU_CAPACITY
  {
    hide PidAct, ReportedMin, GpuVoteOf, CapacityDefined, ArithmeticDefined;
  }

  lemma ReportBackedIff(p: Profile, s: System, op: Op)
    requires GpuFine(p, CoreAt(s)) && SessionSystem.Enabled(p, s, op) && Backed(s)
    requires op.Invoke? && op.call.ReportActual?
    ensures Backed(SessionSystem.Next(p, s, op)) <==> !LeavesNodeStale(p, s, op)
  {
    assert op.id in s.desc;
    hide Does, ActsOf, SessionSystem.Next, SessionSystem.Enabled, ManagerSteps.Enabled, Perform, NodeBacked,
         BackedWithoutBoosts, GpuFine, Accepts, CastsGpu;
    var c, acts, c' := CoreAt(s), ActsOf(p, s, op), CoreAt(SessionSystem.Next(p, s, op));
    StepDoes(p, s, op);
    ReportShape(p, s, op);
    if acts == [] {
      NothingDone(p, c, c');
    } else {
      var c1 := Perform(p, c, acts[0]);
      RecastBackedIff(p, c, acts[0]);
      if CastsGpu(p, op.call.works, op.call.gpuFrequency) {
        TwoDone(p, c, acts[0], acts[1], c');
        GpuFineAct(p, c, acts[0]);
        UnknownBacked(p, c, acts[0]);
        WrittenBacked(p, c1, acts[1]);
      } else {
        OneDone(p, c, acts[0], c');
      }
    }
  }

  lemma UnknownBacked(p: Profile, c: Core, act: Act)
    requires act.Recast? && NodeBacked(c.m, c.k.gpu)
    ensures var c' := Perform(p, c, act); act.id in c'.m || NodeBacked(c'.m, c'.k.gpu)
  {
  }

  lemma CloseBackedIff(p: Profile, s: System, op: Op)
    requires GpuFine(p, CoreAt(s)) && SessionSystem.Enabled(p, s, op) && Backed(s)
    requires op.Invoke? && op.call.Close?
    ensures Backed(SessionSystem.Next(p, s, op)) <==> !LeavesNodeStale(p, s, op)
  {
    var c, id, r, c' := CoreAt(s), op.id, op.readings.first, CoreAt(SessionSystem.Next(p, s, op));
    var act := SetActive(id, false, r.now, r.dead);
    hide Does, SessionSystem.Next, Perform, NodeBacked, BackedWithout, GpuFine, NodeAtClose;
    StepDoes(p, s, op);
    if s.desc[id].closed {
      NothingDone(p, c, c');
    } else {
      TwoDone(p, c, act, Drop(id), c');
      NodeWrittenAtClose(p, s, id, r);
      DropBackedIff(p, Perform(p, c, act), id);
    }
  }

  lemma NodeWrittenAtClose(p: Profile, s: System, id: int, r: Reading)
    ensures var c1 := Perform(p, CoreAt(s), SetActive(id, false, r.now, r.dead));
            && c1.k.gpu == NodeAtClose(p, s, id, r.now)
            && (BackedWithout(c1.m, id, c1.k.gpu) <==> BackedWithout(s.model, id, c1.k.gpu))
  {
    var act := SetActive(id, false, r.now, r.dead);
    var m, c1 := Changed(s.model, act), Perform(p, CoreAt(s), act);
    assert SameRequests(s.model, m);
    SameRequestsDemands(s.model, m, r.now);
    assert SameRequests(s.model, c1.m);
    BackedWithoutSame(s.model, c1.m, id, c1.k.gpu);
  }

  ghost predicate SameRequests(m: Model, m': Model) {
    m.Keys == m'.Keys && forall id :: id in m ==> m'[id].value.votes == m[id].value.votes
  }

  lemma SameRequestsDemands(m: Model, m': Model, t: int)
    requires SameRequests(m, m')
    ensures GpuDemands(m, t) == GpuDemands(m', t)
  {
  }

  lemma BackedWithoutSame(m: Model, m': Model, id: int, g: int)
    requires SameRequests(m, m')
    ensures BackedWithout(m, id, g) <==> BackedWithout(m', id, g)
  {
    assert forall j :: Asks(m, j, g) <==> Asks(m', j, g);
  }

  /** Exactly which steps of the system leave the node stale. */
  lemma NodeStaleIff(p: Profile, s: System, op: Op)
    requires GpuFine(p, CoreAt(s)) && SessionSystem.Enabled(p, s, op) && Backed(s)
    ensures Backed(SessionSystem.Next(p, s, op)) <==> !LeavesNodeStale(p, s, op)
  {
    if op.Invoke? && op.call.ReportActual? {
      ReportBackedIff(p, s, op);
    } else if op.Invoke? && op.call.Close? {
      CloseBackedIff(p, s, op);
    } else {
      OtherStepBacked(p, s, op);
    }
  }

  lemma OtherStepBacked(p: Profile, s: System, op: Op)
    requires GpuFine(p, CoreAt(s)) && SessionSystem.Enabled(p, s, op) && Backed(s)
    requires op.Invoke? ==> !op.call.ReportActual? && !op.call.Close?
    ensures Backed(SessionSystem.Next(p, s, op))
  {
    hide ActsOf, GpuFine, NodeBacked, ManagerSteps.Legal, ManagerSteps.Final, SessionSystem.Next;
    StepDoes(p, s, op);
    OtherShape(p, s, op);
    BackedActs(p, CoreAt(s), ActsOf(p, s, op));
  }

  lemma OtherShape(p: Profile, s: System, op: Op)
    requires SessionSystem.Enabled(p, s, op)
    requires op.Invoke? ==> !op.call.ReportActual? && !op.call.Close?
    ensures var acts := ActsOf(p, s, op); forall i :: 0 <= i < |acts| ==> !acts[i].Recast? && !acts[i].Drop?
  {
  }

  // ---------------------------------------------------------------------------------------------
  // Whole runs
  // ---------------------------------------------------------------------------------------------

  lemma GpuFineRun(p: Profile, s: System, ops: seq<Op>)
    requires GpuFine(p, CoreAt(s)) && SessionSystem.Legal(p, s, ops)
    ensures GpuFine(p, CoreAt(SessionSystem.Final(p, s, ops)))
  {
    hide GpuFine, ManagerSteps.Legal, ManagerSteps.Final, SessionSystem.Final, ActsIn;
    RunDoes(p, s, ops);
    GpuFineActs(p, CoreAt(s), ActsIn(p, s, ops));
  }

  /** In every run the node, and what would be written to it at any time, is at most the configured
      maximum and the headroom of the load-up hint together. */
  lemma GpuCapacityBounded(p: Profile, clock: int, ops: seq<Op>)
    requires SessionSystem.Legal(p, SessionSystem.Initial(clock), ops)
    ensures var s := SessionSystem.Final(p, SessionSystem.Initial(clock), ops);
            InLimits(p, s.kernel.gpu) && forall t :: InLimits(p, Highest(0, GpuDemands(s.model, t)))
  {
    GpuFineRun(p, SessionSystem.Initial(clock), ops);
    forall t {
      Written(p, SessionSystem.Final(p, SessionSystem.Initial(clock), ops).model, t);
    }
  }

  ghost predicate AlwaysBacked(p: Profile, s: System, ops: seq<Op>)
    requires SessionSystem.Legal(p, s, ops)
    decreases |ops|
  {
    Backed(s) && (ops == [] || AlwaysBacked(p, SessionSystem.Next(p, s, ops[0]), ops[1..]))
  }

  ghost predicate NeverStale(p: Profile, s: System, ops: seq<Op>)
    requires SessionSystem.Legal(p, s, ops)
    decreases |ops|
  {
    ops == [] || (!LeavesNodeStale(p, s, ops[0]) && NeverStale(p, SessionSystem.Next(p, s, ops[0]), ops[1..]))
  }

  /** The node's value is asked for at every point of exactly the runs without such a step. */
  lemma {:induction false} AlwaysBackedIff(p: Profile, s: System, ops: seq<Op>)
    requires GpuFine(p, CoreAt(s)) && Backed(s) && SessionSystem.Legal(p, s, ops)
    ensures AlwaysBacked(p, s, ops) <==> NeverStale(p, s, ops)
    ensures NeverStale(p, s, ops) ==> Backed(SessionSystem.Final(p, s, ops))
    decreases |ops|
  {
    hide GpuFine, Backed, LeavesNodeStale, SessionSystem.Next;
    if ops != [] {
      var s' := SessionSystem.Next(p, s, ops[0]);
      NodeStaleIff(p, s, ops[0]);
      if Backed(s') {
        OneStep(p, s, ops);
        GpuFineRun(p, s, [ops[0]]);
        AlwaysBackedIff(p, s', ops[1..]);
      }
    }
  }

  lemma OneStep(p: Profile, s: System, ops: seq<Op>)
    requires SessionSystem.Legal(p, s, ops) && ops != []
    ensures SessionSystem.Legal(p, s, [ops[0]])
    ensures SessionSystem.Final(p, s, [ops[0]]) == SessionSystem.Next(p, s, ops[0])
  {
    hide SessionSystem.Next;
    assert [ops[0]][1..] == [];
  }

  /** The GPU is not held up either: once no event is due, in every run that has left the node alone
      since it was last asked for, the node's value is zero or asked for by votes that are all before
      their timeouts. */
  lemma NoGpuBoostStays(p: Profile, clock: int, a: seq<Op>, b: seq<Op>)
    requires SessionSystem.Legal(p, SessionSystem.Initial(clock), a)
    requires var s := SessionSystem.Final(p, SessionSystem.Initial(clock), a);
             SessionSystem.Legal(p, s, b) && Backed(s) && NeverStale(p, s, b) &&
             NothingDue(SessionSystem.Final(p, s, b))
    ensures var s := SessionSystem.Final(p, SessionSystem.Final(p, SessionSystem.Initial(clock), a), b);
            s.kernel.gpu <= 0 ||
            exists id :: Asks(s.model, id, s.kernel.gpu) &&
                         forall v :: IsGpuVote(v) && VoteActive(s, id, v) ==> s.clock < TimeoutIn(s, id, v)
  {
    var s0 := SessionSystem.Initial(clock);
    var s1 := SessionSystem.Final(p, s0, a);
    var s := SessionSystem.Final(p, s1, b);
    GpuFineRun(p, s0, a);
    AlwaysBackedIff(p, s1, b);
    LegalConcat(p, s0, a, b);
    if 0 < s.kernel.gpu {
      var id :| Asks(s.model, id, s.kernel.gpu);
      forall v | IsGpuVote(v) && VoteActive(s, id, v) ensures s.clock < TimeoutIn(s, id, v) {
        NoVoteOutlivesItsTime(p, clock, a + b, id, v);
      }
    }
  }

  /** A session that has just been created has no GPU votes. */
  lemma NewSession(p: Profile, rs: Readings)
    ensures var s := SessionSystem.Next(p, SessionSystem.Initial(0), Create([], 1, true, 0, rs.first, rs));
            && s.model.Keys == {1} && s.model[1].value.votes.gpu == map[]
            && s.desc.Keys == {1} && Accepts(s.desc[1], [WorkDuration(0, 0, 0, 0)]) && s.desc[1].targetNs == 1
  {
    hide ApplyBoth, KernelAfterSetThreads, EventsOfVote;
  }

  /** Session 1, alone and ready for reports, has asked for the load-up headroom, and the node has it. */
  predicate Hinted(p: Profile, s: System, rs: Readings) {
    && s.model.Keys == {1}
    && s.model[1].value.votes.gpu ==
       map[GPU_LOAD_UP := GpuVote(VoteRange(true, rs.first.now, 1), p.gpuLoadUpHeadroom)]
    && s.kernel.gpu == p.gpuLoadUpHeadroom
    && s.desc.Keys == {1} && Accepts(s.desc[1], [WorkDuration(0, 0, 0, 0)])
  }

  lemma HintedSession(p: Profile, s: System, rs: Readings)
    requires p.gpuNodeOn && s.model.Keys == {1} && s.model[1].value.votes.gpu == map[]
    requires s.desc.Keys == {1} && Accepts(s.desc[1], [WorkDuration(0, 0, 0, 0)]) && s.desc[1].targetNs == 1
    ensures Hinted(p, SessionSystem.Next(p, s, Invoke(1, SendHint(GpuLoadUp), rs)), rs)
  {
    var s' := SessionSystem.Next(p, s, Invoke(1, SendHint(GpuLoadUp), rs));
    var t := rs.first.now;
    assert s'.model[1].value.votes.GpuRequest(t) == p.gpuLoadUpHeadroom;
    assert GpuDemands(s'.model, t) == {p.gpuLoadUpHeadroom};
  }

  lemma StaleAfterReport(p: Profile, s: System, rs: Readings)
    requires Hinted(p, s, rs) && 0 < p.gpuLoadUpHeadroom && !p.pidOn
    ensures var op := Invoke(1, ReportActual([WorkDuration(0, 0, 0, 0)], None), rs);
            && SessionSystem.Enabled(p, s, op)
            && var s' := SessionSystem.Next(p, s, op); s'.kernel.gpu == p.gpuLoadUpHeadroom && !Backed(s')
  {
    var op := Invoke(1, ReportActual([WorkDuration(0, 0, 0, 0)], None), rs);
    var act := ActsOf(p, s, op)[0];
    ReportShape(p, s, op);
    hide Does, ActsOf, SessionSystem.Next, Perform;
    StepDoes(p, s, op);
    OneDone(p, CoreAt(s), act, CoreAt(SessionSystem.Next(p, s, op)));
    RecastVotes(p, CoreAt(s), act);
  }

  lemma StaleAfterClose(p: Profile, s: System, rs: Readings)
    requires Hinted(p, s, rs) && 0 < p.gpuLoadUpHeadroom && p.gpuNodeOn
    ensures var op := Invoke(1, Close, rs);
            && SessionSystem.Enabled(p, s, op)
            && var s' := SessionSystem.Next(p, s, op); s'.kernel.gpu == p.gpuLoadUpHeadroom && s'.model == map[]
  {
    var op, r := Invoke(1, Close, rs), rs.first;
    var act := SetActive(1, false, r.now, r.dead);
    assert SessionSystem.Next(p, s, op).model == s.model - {1};
    assert s.model[1].value.votes.GpuRequest(r.now) == p.gpuLoadUpHeadroom;
    assert GpuDemands(s.model, r.now) == {p.gpuLoadUpHeadroom};
    hide Does, SessionSystem.Next, Perform;
    StepDoes(p, s, op);
    TwoDone(p, CoreAt(s), act, Drop(1), CoreAt(SessionSystem.Next(p, s, op)));
    NodeWrittenAtClose(p, s, 1, r);
    DropBackedIff(p, Perform(p, CoreAt(s), act), 1);
  }

  /** Both kinds of step occur: after a load-up hint, a report without a GPU vote leaves the headroom on
      the node although no session asks for it, and closing the session does so although there is no
      session left at all. */
  lemma StaleNodeReachable(p: Profile, rs: Readings) returns (s: System, reported: System, closed: System)
    requires p.gpuNodeOn && 0 < p.gpuLoadUpHeadroom && !p.pidOn
    ensures Reachable(p, s) && Backed(s)
    ensures var op := Invoke(1, ReportActual([WorkDuration(0, 0, 0, 0)], None), rs);
            SessionSystem.Enabled(p, s, op) && reported == SessionSystem.Next(p, s, op)
    ensures reported.kernel.gpu == p.gpuLoadUpHeadroom && !Backed(reported)
    ensures SessionSystem.Enabled(p, s, Invoke(1, Close, rs)) &&
            closed == SessionSystem.Next(p, s, Invoke(1, Close, rs))
    ensures closed.kernel.gpu == p.gpuLoadUpHeadroom && closed.model == map[]
  {
    hide SessionSystem.Next, Reachable;
    var create, hint := Create([], 1, true, 0, rs.first, rs), Invoke(1, SendHint(GpuLoadUp), rs);
    var s0 := SessionSystem.Initial(0);
    var s1 := SessionSystem.Next(p, s0, create);
    NewSession(p, rs);
    StartReachable(p, 0);
    NextReachable(p, s0, create);
    HintedSession(p, s1, rs);
    NextReachable(p, s1, hint);
    s := SessionSystem.Next(p, s1, hint);
    assert Asks(s.model, 1, s.kernel.gpu);
    hide Hinted, Backed;
    StaleAfterReport(p, s, rs);
    StaleAfterClose(p, s, rs);
    reported := SessionSystem.Next(p, s, Invoke(1, ReportActual([WorkDuration(0, 0, 0, 0)], None), rs));
    closed := SessionSystem.Next(p, s, Invoke(1, Close, rs));
  }
}
