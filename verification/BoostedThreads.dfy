/** What the timeouts are for: in every run of the system, a living thread is clamped no higher than
    some vote that is still on asks for, so no thread stays boosted when the votes have ended. */
module BoostedThreads {
  import opened Arith
  import opened UclampVoter
  import opened ThreadSweep
  import opened SessionTaskMap
  import opened SessionModel
  import opened ThreadFloors
  import opened HintSession
  import opened ManagerSteps
  import opened SessionSystem
  import opened SystemTimeouts

  /** Vote `v` of session `id` is on, asks for at least `f`, and speaks for thread `x`. */
  predicate Backs(m: Model, id: int, v: int, x: int, f: int) {
    Speaks(m, id, x) && v in m[id].value.votes.cpu && m[id].value.votes.cpu[v].timing.active &&
    f <= m[id].value.votes.cpu[v].range.uclampMin
  }

  /** The lower clamp `f` of thread `x` is no boost, or some vote that is on asks for it. */
  ghost predicate Backed(m: Model, x: int, f: int) {
    f <= UCLAMP_MIN || exists id, v :: Backs(m, id, v, x, f)
  }

  /** Every living thread outside `skip` has a clamp that is backed. */
  ghost predicate Justified(m: Model, k: Kernel, skip: seq<int>) {
    forall x :: x in k.floors && x !in k.dead && x !in skip ==> Backed(m, x, k.floors[x])
  }

  /** Clamps are in force only if the feature is on, and then they are justified. */
  ghost predicate Good(p: Profile, m: Model, k: Kernel, skip: seq<int>) {
    Justified(m, k, skip) && (!p.uclampMinOn ==> k.floors == map[])
  }

  // ---------------------------------------------------------------------------------------------
  // Applying the votes of a session
  // ---------------------------------------------------------------------------------------------

  lemma FloorBacked(m: Model, x: int, t: int)
    ensures Backed(m, x, FloorOf(m, x, t))
  {
    var h := Highest(UCLAMP_MIN, LiveAsked(m, x, t));
    if h in LiveAsked(m, x, t) {
      var id :| id in m && Speaks(m, id, x) && h in m[id].value.votes.LiveMins(t);
      var votes := m[id].value.votes;
      var v :| v in votes.cpu && votes.cpu[v].timing.IsTimeInRange(t) && votes.cpu[v].range.uclampMin == h;
      assert FloorOf(m, x, t) > UCLAMP_MIN ==> Backs(m, id, v, x, FloorOf(m, x, t));
    }
  }

  lemma SweptTasks(m: Model, id: int, dead: set<int>, x: int)
    requires id in m && x !in dead
    ensures x in SweepModel(m, id, dead, true)[id].tasks <==> x in m[id].tasks
  {
    var tasks := m[id].tasks;
    AliveMember(tasks, |tasks|, dead, x);
    assert tasks[..|tasks|] == tasks;
  }

  /** The sweep takes no living thread's backing away. */
  lemma SweepBacked(m: Model, id: int, dead: set<int>, x: int, f: int)
    requires id in m && x !in dead && Backed(m, x, f)
    ensures Backed(SweepModel(m, id, dead, true), x, f)
  {
    var m' := SweepModel(m, id, dead, true);
    SweptTasks(m, id, dead, x);
    if UCLAMP_MIN < f {
      var j, v :| Backs(m, j, v, x, f);
      assert Backs(m', j, v, x, f);
    }
  }

  /** Whatever was wrong with the session's own threads is right once its votes have been applied. */
  lemma ApplyJustifies(p: Profile, k: Kernel, m: Model, id: int, t: int, dead: set<int>, gpuOn: bool)
    requires Good(p, m, k, ThreadsOf(m, id))
    ensures Good(p, SweepModel(m, id, dead, p.uclampMinOn), ApplyBoth(k, m, id, t, dead, p.uclampMinOn, gpuOn), [])
  {
    if p.uclampMinOn && id in m {
      var m', k' := SweepModel(m, id, dead, true), ApplyTo(k, m, id, t, dead, true);
      forall x | x in k'.floors && x !in k'.dead ensures Backed(m', x, k'.floors[x]) {
        SweptTasks(m, id, dead, x);
        if x in m[id].tasks {
          FloorBacked(m, x, t);
        }
        SweepBacked(m, id, dead, x, k'.floors[x]);
      }
    }
  }

  // ---------------------------------------------------------------------------------------------
  // Changing a session
  // ---------------------------------------------------------------------------------------------

  /** Session `id` keeps its threads, and all other sessions are the same. */
  ghost predicate SameThreads(m: Model, m': Model, id: int) {
    SameBut(m, m', id) && (id in m <==> id in m') && ThreadsOf(m, id) == ThreadsOf(m', id)
  }

  /** A change of a session can only matter to its own threads. */
  lemma ChangeElsewhere(p: Profile, m: Model, m': Model, k: Kernel, id: int)
    requires SameThreads(m, m', id) && Good(p, m, k, ThreadsOf(m, id))
    ensures Good(p, m', k, ThreadsOf(m', id))
  {
    forall x | x in k.floors && x !in k.dead && x !in ThreadsOf(m', id)
      ensures Backed(m', x, k.floors[x])
    {
      if UCLAMP_MIN < k.floors[x] {
        var i, v :| Backs(m, i, v, x, k.floors[x]);
        assert Backs(m', i, v, x, k.floors[x]);
      }
    }
  }

  /** The CPU votes of session `id` ask for the same, as far as they are on, or for more. */
  ghost predicate AsksNoLess(m: Model, m': Model, id: int) {
    SameThreads(m, m', id) &&
    (id in m ==>
       && (m[id].value.isActive ==> m'[id].value.isActive)
       && forall v :: v in m[id].value.votes.cpu ==>
            && v in m'[id].value.votes.cpu
            && m'[id].value.votes.cpu[v].range == m[id].value.votes.cpu[v].range
            && m'[id].value.votes.cpu[v].timing.active == m[id].value.votes.cpu[v].timing.active)
  }

  lemma AsksNoLessGood(p: Profile, m: Model, m': Model, k: Kernel, id: int)
    requires AsksNoLess(m, m', id) && Good(p, m, k, [])
    ensures Good(p, m', k, [])
  {
    forall x | x in k.floors && x !in k.dead ensures Backed(m', x, k.floors[x]) {
      if UCLAMP_MIN < k.floors[x] {
        var i, v :| Backs(m, i, v, x, k.floors[x]);
        assert Backs(m', i, v, x, k.floors[x]);
      }
    }
  }

  /** An inactive session can change its threads, or go, without taking any backing away. */
  lemma InactiveTasks(p: Profile, m: Model, k: Kernel, id: int, ids: seq<int>)
    requires Good(p, m, k, []) && (id in m ==> !m[id].value.isActive)
    ensures Good(p, WithTasks(m, id, ids), k, []) && Good(p, m - {id}, k, [])
  {
    var m1, m2 := WithTasks(m, id, ids), m - {id};
    forall x | x in k.floors && x !in k.dead
      ensures Backed(m1, x, k.floors[x]) && Backed(m2, x, k.floors[x])
    {
      if UCLAMP_MIN < k.floors[x] {
        var i, v :| Backs(m, i, v, x, k.floors[x]);
        assert Backs(m1, i, v, x, k.floors[x]) && Backs(m2, i, v, x, k.floors[x]);
      }
    }
  }

  lemma AddedGood(p: Profile, m: Model, k: Kernel, id: int, sv: SessionValue)
    requires Good(p, m, k, [])
    ensures Good(p, AfterAdd(m, id, sv), k, [])
  {
    var m' := AfterAdd(m, id, sv);
    forall x | x in k.floors && x !in k.dead ensures Backed(m', x, k.floors[x]) {
      if UCLAMP_MIN < k.floors[x] {
        var i, v :| Backs(m, i, v, x, k.floors[x]);
        assert Backs(m', i, v, x, k.floors[x]);
      }
    }
  }

  lemma LessSkipped(p: Profile, m: Model, k: Kernel, skip: seq<int>)
    requires Good(p, m, k, [])
    ensures Good(p, m, k, skip)
  {
  }

  // ---------------------------------------------------------------------------------------------
  // Whole runs
  // ---------------------------------------------------------------------------------------------

  /** Every operation of the manager leaves the clamps justified. */
  lemma ActGood(p: Profile, c: Core, act: Act)
    requires Good(p, c.m, c.k, []) && ManagerSteps.Enabled(p, c, act)
    ensures var c' := Perform(p, c, act); Good(p, c'.m, c'.k, [])
  {
    if OnCpu(act) {
      AppliedGood(p, c, act);
    } else {
      hide Good;
      match act
      case Advance(_) =>
      case Add(id, sv) => AddedGood(p, c.m, c.k, id, sv);
      case SetTasks(id, ids) => InactiveTasks(p, c.m, c.k, id, ids);
      case Drop(id) => InactiveTasks(p, c.m, c.k, id, []);
      case CastGpu(id, _, _) =>
        AsksNoLessGood(p, c.m, Changed(c.m, act), c.k, id);
        GpuIsNoClamp(p, Changed(c.m, act), c.k, Perform(p, c, act).k.gpu);
      case Retime(id, _) => AsksNoLessGood(p, c.m, Changed(c.m, act), c.k, id);
    }
  }

  lemma GpuIsNoClamp(p: Profile, m: Model, k: Kernel, gpu: int)
    requires Good(p, m, k, [])
    ensures Good(p, m, k.(gpu := gpu), [])
  {
  }

  lemma AppliedGood(p: Profile, c: Core, act: Act)
    requires Good(p, c.m, c.k, []) && OnCpu(act)
    ensures var c' := Perform(p, c, act); Good(p, c'.m, c'.k, [])
  {
    var m := Changed(c.m, act);
    assert SameThreads(c.m, m, act.id);
    hide Good, Changed, ApplyBoth;
    LessSkipped(p, c.m, c.k, ThreadsOf(c.m, act.id));
    ChangeElsewhere(p, c.m, m, c.k, act.id);
    ApplyJustifies(p, c.k, m, act.id, TimeOf(act), act.dead, p.gpuNodeOn && OnGpu(act));
  }

  lemma {:induction false} ActsGood(p: Profile, c: Core, acts: seq<Act>)
    requires Good(p, c.m, c.k, []) && ManagerSteps.Legal(p, c, acts)
    ensures var c' := ManagerSteps.Final(p, c, acts); Good(p, c'.m, c'.k, [])
    decreases |acts|
  {
    hide Good, Perform;
    if acts != [] {
      ActGood(p, c, acts[0]);
      ActsGood(p, Perform(p, c, acts[0]), acts[1..]);
    }
  }

  lemma RunGood(p: Profile, s: System, ops: seq<Op>)
    requires Good(p, s.model, s.kernel, []) && SessionSystem.Legal(p, s, ops)
    ensures var s' := SessionSystem.Final(p, s, ops); Good(p, s'.model, s'.kernel, [])
  {
    hide Good, ManagerSteps.Legal, ManagerSteps.Final, SessionSystem.Final, ActsIn;
    RunDoes(p, s, ops);
    ActsGood(p, CoreAt(s), ActsIn(p, s, ops));
  }

  /** In every run, between calls, the lower clamp in force on a living thread, listed by a session or
      not, is no boost, or some vote that is on, of an active session that lists the thread, asks for it. */
  lemma ClampsAreBacked(p: Profile, clock: int, ops: seq<Op>, x: int)
    requires SessionSystem.Legal(p, SessionSystem.Initial(clock), ops)
    requires var s := SessionSystem.Final(p, SessionSystem.Initial(clock), ops);
             x in s.kernel.floors && x !in s.kernel.dead
    ensures var s := SessionSystem.Final(p, SessionSystem.Initial(clock), ops);
            Backed(s.model, x, s.kernel.floors[x])
  {
    RunGood(p, SessionSystem.Initial(clock), ops);
  }

  /** The vote's time is not over: it is before its timeout, or before the time computed for it if it is
      a default vote that has been shortened since it was last switched on or brought forward. */
  ghost predicate NotOver(p: Profile, clock: int, ops: seq<Op>, id: int, v: int)
    requires SessionSystem.Legal(p, SessionSystem.Initial(clock), ops)
  {
    var s0 := SessionSystem.Initial(clock);
    var s := SessionSystem.Final(p, s0, ops);
    && s.clock < DueAfter(p, s0, ops, id, v, 0)
    && (v != CPU_VOTE_DEFAULT || Unshortened(p, s0, ops, id, v, true) ==> s.clock < TimeoutIn(s, id, v))
  }

  /** No thread stays boosted: in every run, once no event is due, the lower clamp in force on a
      living thread is no boost, or a vote whose time is not over asks for it. */
  lemma NoThreadStaysBoosted(p: Profile, clock: int, ops: seq<Op>, x: int)
    requires SessionSystem.Legal(p, SessionSystem.Initial(clock), ops)
    requires var s := SessionSystem.Final(p, SessionSystem.Initial(clock), ops);
             NothingDue(s) && x in s.kernel.floors && x !in s.kernel.dead
    ensures var s := SessionSystem.Final(p, SessionSystem.Initial(clock), ops);
            var floor := s.kernel.floors[x];
            floor <= UCLAMP_MIN || exists id, v :: Backs(s.model, id, v, x, floor) && NotOver(p, clock, ops, id, v)
  {
    var s := SessionSystem.Final(p, SessionSystem.Initial(clock), ops);
    var floor := s.kernel.floors[x];
    ClampsAreBacked(p, clock, ops, x);
    if UCLAMP_MIN < floor {
      var id, v :| Backs(s.model, id, v, x, floor);
      RunSound(p, SessionSystem.Initial(clock), ops, false);
      assert SoundAt(p, s, id, false);
      NoVoteOutlivesItsTime(p, clock, ops, id, v);
      assert Backs(s.model, id, v, x, floor) && NotOver(p, clock, ops, id, v);
    }
  }
}
