/** The other half of what the votes are for: while a vote has time left, every living thread that its
    session speaks for is clamped at least as high as the vote asks. This depends on the clock readings
    that calls make before they take the manager's lock. */
module ServedVotes {
  import opened Arith
  import opened UclampVoter
  import opened ThreadSweep
  import opened SessionTaskMap
  import opened PidControl
  import opened SessionModel
  import opened ThreadFloors
  import opened HintSession
  import opened ManagerSteps
  import opened SessionSystem
  import opened SystemTimeouts
  import opened BoostedThreads
  import Protocol = TimeoutProtocol

  /** A lower clamp as the scheduler takes it. */
  function Level(a: int): int { Min(Max(UCLAMP_MIN, a), UCLAMP_MAX) }

  function AskOf(m: Model, id: int, v: int): int {
    if id in m && v in m[id].value.votes.cpu then m[id].value.votes.cpu[v].range.uclampMin else UCLAMP_MIN
  }

  /** Vote `v` of session `id` is on, speaks for thread `x`, and has not run out. */
  predicate Owed(m: Model, id: int, v: int, x: int, clock: int) {
    Speaks(m, id, x) && v in m[id].value.votes.cpu &&
    var timing := m[id].value.votes.cpu[v].timing;
    timing.active && timing.startTime <= timing.Timeout() && clock <= timing.Timeout()
  }

  predicate Reached(k: Kernel, x: int, a: int) {
    x in k.floors && Level(a) <= k.floors[x]
  }

  /** The vote is owed to a living thread that is not clamped as high. */
  ghost predicate LetDown(c: Core, id: int, v: int, x: int) {
    Owed(c.m, id, v, x, c.clock) && x !in c.k.dead && !Reached(c.k, x, AskOf(c.m, id, v))
  }

  /** Every living thread has the clamp that each vote owed to it asks for, or a higher one. */
  ghost predicate Served(p: Profile, c: Core) {
    p.uclampMinOn ==> forall id, v, x :: !LetDown(c, id, v, x)
  }

  // ---------------------------------------------------------------------------------------------
  // Which operations let a vote down
  // ---------------------------------------------------------------------------------------------

  /** The vote has not run out by the clock, but the reading `t` is outside its time, and no vote that is
      in force at `t` asks as much of the thread. */
  ghost predicate Overlooked(m: Model, id: int, v: int, x: int, t: int, clock: int) {
    && Owed(m, id, v, x, clock) && !m[id].value.votes.cpu[v].timing.IsTimeInRange(t)
    && UCLAMP_MIN < Level(AskOf(m, id, v))
    && forall y :: y in LiveAsked(m, x, t) ==> Level(y) < Level(AskOf(m, id, v))
  }

  /** A new duration gives a vote time again that had run out, and the thread's clamp is too low for it. */
  ghost predicate Revived(c: Core, act: Act, x: int)
    requires act.Retime?
  {
    && !Owed(c.m, act.id, CPU_VOTE_DEFAULT, x, c.clock)
    && Owed(Changed(c.m, act), act.id, CPU_VOTE_DEFAULT, x, c.clock)
    && x !in c.k.dead && !Reached(c.k, x, AskOf(c.m, act.id, CPU_VOTE_DEFAULT))
  }

  /** The vote is overlooked when the votes of a session are applied to thread `x`. */
  ghost predicate Lapses(c: Core, act: Act, id: int, v: int, x: int)
    requires OnCpu(act)
  {
    var m := Changed(c.m, act);
    x in ThreadsOf(m, act.id) && x !in act.dead && x !in c.k.dead && Overlooked(m, id, v, x, TimeOf(act), c.clock)
  }

  ghost predicate Misses(p: Profile, c: Core, act: Act) {
    p.uclampMinOn &&
    if OnCpu(act) then exists id, v, x :: Lapses(c, act, id, v, x)
    else act.Retime? && exists x :: Revived(c, act, x)
  }

  lemma FloorReachesIff(m: Model, id: int, v: int, x: int, t: int, clock: int)
    requires Owed(m, id, v, x, clock)
    ensures Level(AskOf(m, id, v)) <= FloorOf(m, x, t) <==> !Overlooked(m, id, v, x, t, clock)
  {
    var ask, h := AskOf(m, id, v), Highest(UCLAMP_MIN, LiveAsked(m, x, t));
    var votes := m[id].value.votes;
    if votes.cpu[v].timing.IsTimeInRange(t) {
      assert ask in votes.LiveMins(t);
      assert ask in LiveAsked(m, x, t);
    }
  }

  lemma SweptOwed(m: Model, id0: int, dead: set<int>, id: int, v: int, x: int, clock: int)
    requires x !in dead
    ensures Owed(SweepModel(m, id0, dead, true), id, v, x, clock) <==> Owed(m, id, v, x, clock)
    ensures AskOf(SweepModel(m, id0, dead, true), id, v) == AskOf(m, id, v)
  {
    if id0 in m {
      SweptTasks(m, id0, dead, x);
    }
  }

  lemma ApplyLetsDown(clock: int, k: Kernel, m0: Model, m: Model, id0: int, t: int, dead: set<int>, gpuOn: bool,
                      id: int, v: int, x: int)
    requires SameThreads(m0, m, id0) && id0 in m && !LetDown(Core(clock, m0, k), id, v, x)
    ensures var c := Core(clock, SweepModel(m, id0, dead, true), ApplyBoth(k, m, id0, t, dead, true, gpuOn));
            LetDown(c, id, v, x) <==>
            x in m[id0].tasks && x !in dead && x !in k.dead && Overlooked(m, id, v, x, t, clock)
  {
    var k' := ApplyBoth(k, m, id0, t, dead, true, gpuOn);
    if x !in dead {
      SweptOwed(m, id0, dead, id, v, x, clock);
      hide Overlooked, SweepModel, FloorOf;
      if x in m[id0].tasks {
        assert k'.floors[x] == FloorOf(m, x, t);
        if Owed(m, id, v, x, clock) {
          FloorReachesIff(m, id, v, x, t, clock);
        } else {
          NotOwedNotOverlooked(m, id, v, x, t, clock);
        }
      } else {
        assert Owed(m, id, v, x, clock) ==> Owed(m0, id, v, x, clock) && AskOf(m0, id, v) == AskOf(m, id, v);
        assert x in k.floors ==> x in k'.floors && k'.floors[x] == k.floors[x];
      }
    }
  }

  lemma NotOwedNotOverlooked(m: Model, id: int, v: int, x: int, t: int, clock: int)
    requires !Owed(m, id, v, x, clock)
    ensures !Overlooked(m, id, v, x, t, clock)
  {
  }

  /** Applying the votes of a session lets down exactly the votes that it overlooks. */
  lemma AppliedAt(p: Profile, c: Core, act: Act, id: int, v: int, x: int)
    requires p.uclampMinOn && OnCpu(act) && !LetDown(c, id, v, x)
    ensures LetDown(Perform(p, c, act), id, v, x) <==> Lapses(c, act, id, v, x)
  {
    var m := Changed(c.m, act);
    assert SameThreads(c.m, m, act.id) && (act.id !in c.m ==> m == c.m);
    hide Changed, ApplyBoth, LetDown, Overlooked;
    if act.id in m {
      ApplyLetsDown(c.clock, c.k, c.m, m, act.id, TimeOf(act), act.dead, p.gpuNodeOn && OnGpu(act), id, v, x);
    } else {
      UnknownApply(c.k, m, act.id, TimeOf(act), act.dead, p.gpuNodeOn && OnGpu(act));
    }
  }

  lemma UnknownApply(k: Kernel, m: Model, id: int, t: int, dead: set<int>, gpuOn: bool)
    requires id !in m
    ensures ApplyBoth(k, m, id, t, dead, true, gpuOn) == k && SweepModel(m, id, dead, true) == m
  {
  }

  /** What a new duration lets down. */
  lemma RetimedAt(p: Profile, c: Core, act: Act, id: int, v: int, x: int)
    requires p.uclampMinOn && act.Retime? && !LetDown(c, id, v, x)
    ensures LetDown(Perform(p, c, act), id, v, x) <==> id == act.id && v == CPU_VOTE_DEFAULT && Revived(c, act, x)
  {
    var m := Changed(c.m, act);
    assert AskOf(m, id, v) == AskOf(c.m, id, v);
    if id != act.id || v != CPU_VOTE_DEFAULT {
      assert Owed(m, id, v, x, c.clock) <==> Owed(c.m, id, v, x, c.clock);
    }
  }

  /** The remaining operations let nothing down. */
  lemma UnrelatedAt(p: Profile, c: Core, act: Act, id: int, v: int, x: int)
    requires !OnCpu(act) && !act.Retime? && ManagerSteps.Enabled(p, c, act) && !LetDown(c, id, v, x)
    ensures !LetDown(Perform(p, c, act), id, v, x)
  {
    var c' := Perform(p, c, act);
    assert Owed(c'.m, id, v, x, c'.clock) ==> Owed(c.m, id, v, x, c.clock) && AskOf(c.m, id, v) == AskOf(c'.m, id, v);
    assert c'.k == c.k.(gpu := c'.k.gpu);
  }

  /** Exactly which operations let a vote down. */
  lemma ServedKeptIff(p: Profile, c: Core, act: Act)
    requires ManagerSteps.Enabled(p, c, act) && Served(p, c)
    ensures Served(p, Perform(p, c, act)) <==> !Misses(p, c, act)
  {
    if p.uclampMinOn {
      hide LetDown, Lapses, Revived, Perform, Changed;
      var c' := Perform(p, c, act);
      forall id, v, x
        ensures LetDown(c', id, v, x) <==>
                || (OnCpu(act) && Lapses(c, act, id, v, x))
                || (act.Retime? && id == act.id && v == CPU_VOTE_DEFAULT && Revived(c, act, x))
      {
        if OnCpu(act) {
          AppliedAt(p, c, act, id, v, x);
        } else if act.Retime? {
          RetimedAt(p, c, act, id, v, x);
        } else {
          UnrelatedAt(p, c, act, id, v, x);
        }
      }
      if act.Retime? && Misses(p, c, act) {
        var x :| Revived(c, act, x);
        assert LetDown(c', act.id, CPU_VOTE_DEFAULT, x);
      }
    }
  }

  ghost predicate AlwaysServed(p: Profile, c: Core, acts: seq<Act>)
    requires ManagerSteps.Legal(p, c, acts)
    decreases |acts|
  {
    Served(p, c) && (acts == [] || AlwaysServed(p, Perform(p, c, acts[0]), acts[1..]))
  }

  ghost predicate NeverMisses(p: Profile, c: Core, acts: seq<Act>)
    requires ManagerSteps.Legal(p, c, acts)
    decreases |acts|
  {
    acts == [] || (!Misses(p, c, acts[0]) && NeverMisses(p, Perform(p, c, acts[0]), acts[1..]))
  }

  /** All votes are served at every point of exactly the runs in which no operation misses one. */
  lemma {:induction false} AlwaysServedIff(p: Profile, c: Core, acts: seq<Act>)
    requires ManagerSteps.Legal(p, c, acts) && Served(p, c)
    ensures AlwaysServed(p, c, acts) <==> NeverMisses(p, c, acts)
    decreases |acts|
  {
    hide Served, Misses, Perform;
    if acts != [] {
      ServedKeptIff(p, c, acts[0]);
      if !Misses(p, c, acts[0]) {
        AlwaysServedIff(p, Perform(p, c, acts[0]), acts[1..]);
      }
    }
  }

  // ---------------------------------------------------------------------------------------------
  // Prompt runs
  // ---------------------------------------------------------------------------------------------

  /** No vote that is on starts after `t`. */
  ghost predicate StartedBy(m: Model, t: int) {
    forall id, v :: id in m && v in m[id].value.votes.cpu && m[id].value.votes.cpu[v].timing.active ==>
                      m[id].value.votes.cpu[v].timing.startTime <= t
  }

  /** The new duration gives the default vote time again although it had run out. */
  predicate Lengthens(c: Core, act: Act)
    requires act.Retime?
  {
    act.id in c.m && c.m[act.id].value.votes.IsActive(CPU_VOTE_DEFAULT) &&
    var timing := c.m[act.id].value.votes.Timing(CPU_VOTE_DEFAULT).value;
    timing.Timeout() < c.clock <= timing.startTime + act.durationNs
  }

  /** The reading is neither before the last one, `t`, nor ahead of the clock, and no vote that has run
      out is lengthened. */
  predicate Prompt(c: Core, act: Act, t: int) {
    (OnCpu(act) ==> t <= TimeOf(act) <= c.clock) && (act.Retime? ==> !Lengthens(c, act))
  }

  function LastReading(act: Act, t: int): int {
    if OnCpu(act) then TimeOf(act) else t
  }

  /** Every operation of the run is prompt, the first after the reading `t`. */
  ghost predicate PromptRun(p: Profile, c: Core, acts: seq<Act>, t: int)
    decreases |acts|
  {
    acts == [] ||
    (Prompt(c, acts[0], t) && PromptRun(p, Perform(p, c, acts[0]), acts[1..], LastReading(acts[0], t)))
  }

  lemma StartedByNext(p: Profile, c: Core, act: Act, t: int)
    requires ManagerSteps.Enabled(p, c, act) && StartedBy(c.m, t) && (OnCpu(act) ==> t <= TimeOf(act))
    ensures StartedBy(Changed(c.m, act), LastReading(act, t))
    ensures StartedBy(Perform(p, c, act).m, LastReading(act, t))
  {
    var m, c', t' := Changed(c.m, act), Perform(p, c, act), LastReading(act, t);
    forall id, v | id in m && v in m[id].value.votes.cpu && m[id].value.votes.cpu[v].timing.active
      ensures m[id].value.votes.cpu[v].timing.startTime <= t'
    {
      StartOfVote(c.m, act, id, v);
    }
    assert forall id :: id in c'.m ==> id in m && c'.m[id].value == m[id].value;
  }

  /** A vote that is on after an operation was on before with the same start, or starts with the reading. */
  lemma StartOfVote(m: Model, act: Act, id: int, v: int)
    requires var m' := Changed(m, act);
             id in m' && v in m'[id].value.votes.cpu && m'[id].value.votes.cpu[v].timing.active
    requires act.Add? ==> forall j :: j in act.sv.votes.cpu ==> !act.sv.votes.cpu[j].timing.active
    ensures var start := Changed(m, act)[id].value.votes.cpu[v].timing.startTime;
            || (OnCpu(act) && start == TimeOf(act))
            || (id in m && v in m[id].value.votes.cpu && m[id].value.votes.cpu[v].timing.active &&
                start == m[id].value.votes.cpu[v].timing.startTime)
  {
    if act.Recast? && id == act.id && v in m[id].value.votes.cpu {
      DisabledKeepStart(m[id].value.votes, BOOST_VOTES, v);
    }
  }

  lemma {:induction false} DisabledKeepStart(votes: VoteTable, ids: seq<int>, v: int)
    requires v in votes.cpu
    ensures var r := votes.DisableAll(ids);
            && v in r.cpu && r.cpu[v].timing.startTime == votes.cpu[v].timing.startTime
            && (r.cpu[v].timing.active ==> votes.cpu[v].timing.active)
    decreases |ids|
  {
    if ids != [] {
      DisabledKeepStart(votes, ids[..|ids| - 1], v);
    }
  }

  /** A prompt operation misses no vote. */
  lemma PromptMissesNone(p: Profile, c: Core, act: Act, t: int)
    requires ManagerSteps.Enabled(p, c, act) && StartedBy(c.m, t) && t <= c.clock && Prompt(c, act, t)
    ensures !Misses(p, c, act)
  {
    if OnCpu(act) {
      StartedByNext(p, c, act, t);
      forall id, v, x ensures !Lapses(c, act, id, v, x) {
        hide Changed;
      }
    } else if act.Retime? {
      forall x ensures !Revived(c, act, x) {
      }
    }
  }

  lemma {:induction false} PromptServed(p: Profile, c: Core, acts: seq<Act>, t: int)
    requires ManagerSteps.Legal(p, c, acts) && Served(p, c) && StartedBy(c.m, t) && t <= c.clock
    requires PromptRun(p, c, acts, t)
    ensures Served(p, ManagerSteps.Final(p, c, acts))
    ensures StartedBy(ManagerSteps.Final(p, c, acts).m, ManagerSteps.Final(p, c, acts).clock)
    decreases |acts|
  {
    if acts == [] {
      assert StartedBy(c.m, c.clock);
    } else {
      var c' := Perform(p, c, acts[0]);
      assert LastReading(acts[0], t) <= c'.clock;
      hide Served, StartedBy, Misses, Perform, Prompt;
      StartedByNext(p, c, acts[0], t);
      PromptMissesNone(p, c, acts[0], t);
      ServedKeptIff(p, c, acts[0]);
      PromptServed(p, c', acts[1..], LastReading(acts[0], t));
    }
  }

  // ---------------------------------------------------------------------------------------------
  // Runs of the system
  // ---------------------------------------------------------------------------------------------

  /** The readings of the run of the system that `ops` makes from the start do not go back or run ahead,
      and no default vote that has run out is lengthened. */
  ghost predicate PromptFromStart(p: Profile, clock: int, ops: seq<Op>)
    requires SessionSystem.Legal(p, SessionSystem.Initial(clock), ops)
  {
    exists t :: t <= clock &&
                PromptRun(p, CoreAt(SessionSystem.Initial(clock)), ActsIn(p, SessionSystem.Initial(clock), ops), t)
  }

  lemma PromptAtEnd(p: Profile, clock: int, ops: seq<Op>)
    requires SessionSystem.Legal(p, SessionSystem.Initial(clock), ops) && PromptFromStart(p, clock, ops)
    ensures var s := SessionSystem.Final(p, SessionSystem.Initial(clock), ops);
            Served(p, CoreAt(s)) && StartedBy(s.model, s.clock)
  {
    var s0 := SessionSystem.Initial(clock);
    var t :| t <= clock && PromptRun(p, CoreAt(s0), ActsIn(p, s0, ops), t);
    assert Served(p, CoreAt(s0)) && StartedBy(s0.model, t);
    hide Served, StartedBy, PromptRun, ActsIn, ManagerSteps.Legal, ManagerSteps.Final, SessionSystem.Final;
    RunDoes(p, s0, ops);
    PromptServed(p, CoreAt(s0), ActsIn(p, s0, ops), t);
  }

  /** In every prompt run, while a vote is in force at the clock, every living thread that its session
      speaks for is clamped at least as high as the vote asks. */
  lemma VotesInForceAreServed(p: Profile, clock: int, ops: seq<Op>, id: int, v: int, x: int)
    requires SessionSystem.Legal(p, SessionSystem.Initial(clock), ops) && PromptFromStart(p, clock, ops)
    requires var s := SessionSystem.Final(p, SessionSystem.Initial(clock), ops);
             && p.uclampMinOn && Speaks(s.model, id, x) && x !in s.kernel.dead
             && v in s.model[id].value.votes.cpu && s.model[id].value.votes.cpu[v].timing.IsTimeInRange(s.clock)
    ensures var s := SessionSystem.Final(p, SessionSystem.Initial(clock), ops);
            x in s.kernel.floors && Level(s.model[id].value.votes.cpu[v].range.uclampMin) <= s.kernel.floors[x]
  {
    hide SessionSystem.Final, PromptFromStart;
    PromptAtEnd(p, clock, ops);
    assert !LetDown(CoreAt(SessionSystem.Final(p, SessionSystem.Initial(clock), ops)), id, v, x);
  }

  // ---------------------------------------------------------------------------------------------
  // Both halves together
  // ---------------------------------------------------------------------------------------------

  ghost predicate FloorsInRange(k: Kernel) {
    forall x :: x in k.floors ==> UCLAMP_MIN <= k.floors[x] <= UCLAMP_MAX
  }

  lemma {:induction false} FloorsStayInRange(p: Profile, c: Core, acts: seq<Act>)
    requires ManagerSteps.Legal(p, c, acts) && FloorsInRange(c.k)
    ensures FloorsInRange(ManagerSteps.Final(p, c, acts).k)
    decreases |acts|
  {
    if acts != [] {
      var c' := Perform(p, c, acts[0]);
      assert FloorsInRange(c'.k) by { hide Changed, SweepModel, LiveAsked; }
      FloorsStayInRange(p, c', acts[1..]);
    }
  }

  /** In every prompt run, once no event is due, a living thread's lower clamp is exactly the highest that
      the votes in force ask for, unless one of its sessions has a default vote that was shortened. */
  lemma ClampsAreExact(p: Profile, clock: int, ops: seq<Op>, x: int)
    requires SessionSystem.Legal(p, SessionSystem.Initial(clock), ops) && PromptFromStart(p, clock, ops)
    requires var s := SessionSystem.Final(p, SessionSystem.Initial(clock), ops);
             && p.uclampMinOn && NothingDue(s) && x in s.kernel.floors && x !in s.kernel.dead
             && forall id :: Speaks(s.model, id, x) ==>
                  Unshortened(p, SessionSystem.Initial(clock), ops, id, CPU_VOTE_DEFAULT, true)
    ensures var s := SessionSystem.Final(p, SessionSystem.Initial(clock), ops);
            s.kernel.floors[x] == FloorOf(s.model, x, s.clock)
  {
    hide FloorOf, NothingDue, PromptFromStart, Unshortened;
    ClampHighEnough(p, clock, ops, x);
    ClampNoHigher(p, clock, ops, x);
  }

  lemma ClampHighEnough(p: Profile, clock: int, ops: seq<Op>, x: int)
    requires SessionSystem.Legal(p, SessionSystem.Initial(clock), ops) && PromptFromStart(p, clock, ops)
    requires var s := SessionSystem.Final(p, SessionSystem.Initial(clock), ops);
             p.uclampMinOn && x in s.kernel.floors && x !in s.kernel.dead
    ensures var s := SessionSystem.Final(p, SessionSystem.Initial(clock), ops);
            FloorOf(s.model, x, s.clock) <= s.kernel.floors[x] <= UCLAMP_MAX
  {
    var s0 := SessionSystem.Initial(clock);
    var s := SessionSystem.Final(p, s0, ops);
    assert FloorsInRange(CoreAt(s0).k);
    hide SessionSystem.Final, PromptFromStart, ActsIn;
    RunDoes(p, s0, ops);
    FloorsStayInRange(p, CoreAt(s0), ActsIn(p, s0, ops));
    var h := Highest(UCLAMP_MIN, LiveAsked(s.model, x, s.clock));
    if h in LiveAsked(s.model, x, s.clock) {
      var id :| id in s.model && Speaks(s.model, id, x) && h in s.model[id].value.votes.LiveMins(s.clock);
      var votes := s.model[id].value.votes;
      var v :| v in votes.cpu && votes.cpu[v].timing.IsTimeInRange(s.clock) && votes.cpu[v].range.uclampMin == h;
      VotesInForceAreServed(p, clock, ops, id, v, x);
    }
  }

  lemma ClampNoHigher(p: Profile, clock: int, ops: seq<Op>, x: int)
    requires SessionSystem.Legal(p, SessionSystem.Initial(clock), ops) && PromptFromStart(p, clock, ops)
    requires var s := SessionSystem.Final(p, SessionSystem.Initial(clock), ops);
             && NothingDue(s) && x in s.kernel.floors && x !in s.kernel.dead && s.kernel.floors[x] <= UCLAMP_MAX
             && forall id :: Speaks(s.model, id, x) ==>
                  Unshortened(p, SessionSystem.Initial(clock), ops, id, CPU_VOTE_DEFAULT, true)
    ensures var s := SessionSystem.Final(p, SessionSystem.Initial(clock), ops);
            s.kernel.floors[x] <= FloorOf(s.model, x, s.clock)
  {
    var s := SessionSystem.Final(p, SessionSystem.Initial(clock), ops);
    var floor := s.kernel.floors[x];
    hide SessionSystem.Final, PromptFromStart, Unshortened, NotOver, NothingDue;
    NoThreadStaysBoosted(p, clock, ops, x);
    if UCLAMP_MIN < floor {
      var id, v :| Backs(s.model, id, v, x, floor) && NotOver(p, clock, ops, id, v);
      BackingInForce(p, clock, ops, id, v, x, floor);
    }
  }

  /** The vote behind a clamp is in force. */
  lemma BackingInForce(p: Profile, clock: int, ops: seq<Op>, id: int, v: int, x: int, floor: int)
    requires SessionSystem.Legal(p, SessionSystem.Initial(clock), ops) && PromptFromStart(p, clock, ops)
    requires NotOver(p, clock, ops, id, v)
    requires Unshortened(p, SessionSystem.Initial(clock), ops, id, CPU_VOTE_DEFAULT, true)
    requires Backs(SessionSystem.Final(p, SessionSystem.Initial(clock), ops).model, id, v, x, floor)
    ensures var s := SessionSystem.Final(p, SessionSystem.Initial(clock), ops);
            exists y :: y in LiveAsked(s.model, x, s.clock) && floor <= y
  {
    var s := SessionSystem.Final(p, SessionSystem.Initial(clock), ops);
    var votes := s.model[id].value.votes;
    RunSound(p, SessionSystem.Initial(clock), ops, false);
    assert SoundAt(p, s, id, false);
    PromptAtEnd(p, clock, ops);
    assert votes.cpu[v].timing.IsTimeInRange(s.clock);
    assert votes.cpu[v].range.uclampMin in votes.LiveMins(s.clock);
    assert votes.cpu[v].range.uclampMin in LiveAsked(s.model, x, s.clock);
  }

  // ---------------------------------------------------------------------------------------------
  // Two runs in which a vote is let down
  // ---------------------------------------------------------------------------------------------

  /** Every reading of a call at time `t`, with no thread dead. */
  function At(t: int): Readings { Readings(Reading(t, {}), Reading(t, {}), Reading(t, {})) }

  function Vote(start: int, durationNs: int, uclampMin: int): CpuVote {
    CpuVote(VoteRange(true, start, durationNs), UclampRange(uclampMin, UCLAMP_MAX))
  }

  /** A session created at time 0 for thread 7. */
  function NewSession(p: Profile, id: int, targetNs: int): Session {
    var reset := Vote(0, p.halfStaleNs(targetNs), ToInt32(p.uclampMinLoadReset));
    var default := Vote(0, targetNs, ToInt32(p.uclampMinInit));
    var votes := VoteTable(map[CPU_LOAD_RESET := reset, CPU_VOTE_DEFAULT := default], map[]);
    Session(SessionValue(id, true, true, false, votes), [7])
  }

  function NewOp(targetNs: int): Op { Create([7], targetNs, true, 0, Reading(0, {}), At(0)) }

  lemma NothingSwept(m: Model, id: int, on: bool)
    ensures SweepModel(m, id, {}, on) == m
  {
    if on && id in m {
      AliveNone(m[id].tasks, |m[id].tasks|);
      assert m[id].tasks[..|m[id].tasks|] == m[id].tasks;
    }
  }

  /** What a CPU vote does to a session whose threads all live. */
  lemma VoteCast(p: Profile, id: int, l: Local, voteId: int, v: int, t: int, durationNs: int)
    requires id in l.m && !IsGpuVote(voteId)
    ensures var l' := SetCpuVote(p, id, l, voteId, v, Reading(t, {}), durationNs);
            && l'.m == WithVotes(l.m, id, l.m[id].value.votes.AddCpu(voteId, Vote(t, durationNs, v)))
            && l'.d == l.d && l'.kernel.dead == l.kernel.dead
  {
    NothingSwept(AfterVote(l.m, id, voteId, Protocol.Cpu(Vote(t, durationNs, v))), id, p.uclampMinOn);
  }

  lemma ThreadsGiven(p: Profile, id: int, l: Local, ids: seq<int>, t: int)
    requires id in l.m
    ensures var l' := GiveThreads(p, id, l, ids, At(t));
            && l'.m == l.m[id := Session(l.m[id].value.(isActive := true), ids)]
            && l'.d == l.d && l'.kernel.dead == l.kernel.dead
  {
    AliveNone(ids, |ids|);
    assert ids[..|ids|] == ids;
    hide FloorOf, SweepModel;
  }

  lemma CreatedSession(p: Profile, id: int, m: Model, queue: seq<Protocol.Event>, kernel: Kernel, targetNs: int)
    requires id !in m
    ensures var l := Created(p, id, m, queue, kernel, [7], targetNs, true, 0, Reading(0, {}), At(0));
            && l.m == m[id := NewSession(p, id, targetNs)] && !l.d.closed && l.d.targetNs == targetNs
            && l.d.pidControlVariable == 0 && l.kernel.dead == kernel.dead
  {
    hide SetCpuVote, GiveThreads, ToInt32;
    var sv := SessionValue(0, true, true, false, Protocol.NewTable(0, targetNs));
    var l0 := Local(AfterAdd(m, id, sv), queue, kernel, Desc(false, true, [7], targetNs, 0, PidState(0, 0), false, []));
    var l1 := GiveThreads(p, id, l0, [7], At(0));
    ThreadsGiven(p, id, l0, [7], 0);
    var v, v', half := ToInt32(p.uclampMinLoadReset), ToInt32(p.uclampMinInit), p.halfStaleNs(targetNs);
    var l2 := SetCpuVote(p, id, l1, CPU_LOAD_RESET, v, Reading(0, {}), half);
    VoteCast(p, id, l1, CPU_LOAD_RESET, v, 0, half);
    VoteCast(p, id, l2, CPU_VOTE_DEFAULT, v', 0, targetNs);
    var l3 := SetCpuVote(p, id, l2, CPU_VOTE_DEFAULT, v', Reading(0, {}), targetNs);
    assert l3.m[id].value.votes.cpu == NewSession(p, id, targetNs).value.votes.cpu;
  }

  lemma NothingAsked(m: Model, x: int, t: int)
    requires forall id, v :: Speaks(m, id, x) && v in m[id].value.votes.cpu &&
                             m[id].value.votes.cpu[v].timing.IsTimeInRange(t) ==>
                               m[id].value.votes.cpu[v].range.uclampMin <= UCLAMP_MIN
    ensures FloorOf(m, x, t) == UCLAMP_MIN
  {
    var h := Highest(UCLAMP_MIN, LiveAsked(m, x, t));
    if h in LiveAsked(m, x, t) {
      var id :| id in m && Speaks(m, id, x) && h in m[id].value.votes.LiveMins(t);
      var v :| v in m[id].value.votes.cpu && m[id].value.votes.cpu[v].timing.IsTimeInRange(t) &&
               m[id].value.votes.cpu[v].range.uclampMin == h;
      assert h <= UCLAMP_MIN;
    }
  }

  /** A call that changes the mode of a session applies the votes to its threads. */
  lemma ModeApplies(p: Profile, id: int, l: Local, t: int)
    requires p.uclampMinOn && id in l.m && !l.m[id].value.isPowerEfficient && l.m[id].tasks == [7]
    ensures var l' := Prefer(p, id, l, true, Reading(t, {}));
            && l'.m == WithValue(l.m, id, l.m[id].value.(isPowerEfficient := true)) && l'.d == l.d
            && 7 in l'.kernel.floors && l'.kernel.floors[7] == FloorOf(l'.m, 7, t) && l'.kernel.dead == l.kernel.dead
  {
    NothingSwept(WithValue(l.m, id, l.m[id].value.(isPowerEfficient := true)), id, true);
  }

  lemma TickStep(p: Profile, s: System, time: int)
    requires s.clock <= time
    ensures SessionSystem.Next(p, s, Tick(time)) == s.(clock := time)
  {
  }

  lemma NewStep(p: Profile, s: System, targetNs: int)
    requires s.lastId + 1 !in s.model
    ensures var s', id := SessionSystem.Next(p, s, NewOp(targetNs)), s.lastId + 1;
            && s'.clock == s.clock && s'.lastId == id && s'.kernel.dead == s.kernel.dead
            && s'.model == s.model[id := NewSession(p, id, targetNs)]
            && s'.desc.Keys == s.desc.Keys + {id} && (forall j :: j in s.desc && j != id ==> s'.desc[j] == s.desc[j])
            && !s'.desc[id].closed && s'.desc[id].targetNs == targetNs && s'.desc[id].pidControlVariable == 0
  {
    hide Created, NewSession;
    CreatedSession(p, s.lastId + 1, s.model, s.queue, s.kernel, targetNs);
  }

  /** The votes of session `id` after a load-up hint at time `t`. */
  function HintedVotes(p: Profile, votes: VoteTable, d: Desc, t: int): VoteTable {
    votes.AddCpu(CPU_VOTE_DEFAULT, Vote(t, PidVoteNs(p, d.targetNs), d.pidControlVariable))
    .AddCpu(CPU_LOAD_UP, Vote(t, d.targetNs * 2, ToInt32(p.uclampMinLoadUp)))
  }

  lemma HintStep(p: Profile, s: System, id: int, t: int)
    requires id in s.model && id in s.desc && !s.desc[id].closed && s.desc[id].targetNs != 0
    ensures var s' := SessionSystem.Next(p, s, Invoke(id, SendHint(CpuLoadUp), At(t)));
            && s'.clock == s.clock && s'.kernel.dead == s.kernel.dead && s'.desc == s.desc
            && s'.model == WithVotes(s.model, id, HintedVotes(p, s.model[id].value.votes, s.desc[id], t))
  {
    hide SetCpuVote, ToInt32;
    var l, d := LocalOf(s, id), s.desc[id];
    var pid := d.pidControlVariable;
    VoteCast(p, id, l.(d := d.(pidControlVariable := pid)), CPU_VOTE_DEFAULT, pid, t, PidVoteNs(p, d.targetNs));
    var l1 := SetPid(p, id, l, pid, Reading(t, {}));
    VoteCast(p, id, l1, CPU_LOAD_UP, ToInt32(p.uclampMinLoadUp), t, d.targetNs * 2);
  }

  lemma ModeStep(p: Profile, s: System, id: int, t: int)
    requires p.uclampMinOn && id in s.model && id in s.desc && !s.desc[id].closed
    requires !s.model[id].value.isPowerEfficient && s.model[id].tasks == [7]
    ensures var s' := SessionSystem.Next(p, s, Invoke(id, SetMode(PowerEfficiency, true), At(t)));
            && s'.clock == s.clock && s'.kernel.dead == s.kernel.dead && s'.desc == s.desc
            && s'.model == WithValue(s.model, id, s.model[id].value.(isPowerEfficient := true))
            && 7 in s'.kernel.floors && s'.kernel.floors[7] == FloorOf(s'.model, 7, t)
  {
    hide Prefer, FloorOf;
    ModeApplies(p, id, LocalOf(s, id), t);
  }

  /** Sessions 1 and 2 share thread 7, and session 2 has asked for a boost at time 100. */
  ghost predicate Boosted(p: Profile, s: System) {
    && s.clock == 100 && s.kernel.dead == {} && 1 in s.desc && !s.desc[1].closed
    && s.model.Keys == {1, 2} && s.model[1] == NewSession(p, 1, 100)
    && s.model[2].value.isActive && s.model[2].tasks == [7]
    && s.model[2].value.votes.cpu ==
       map[CPU_LOAD_RESET := Vote(0, p.halfStaleNs(100), 0), CPU_VOTE_DEFAULT := Vote(100, PidVoteNs(p, 100), 0),
           CPU_LOAD_UP := Vote(100, 200, p.uclampMinLoadUp)]
  }

  lemma HintedBoosted(p: Profile, s: System)
    requires p.uclampMinLoadReset == 0 && p.uclampMinInit == 0 && p.uclampMinLoadUp <= UCLAMP_MAX
    requires s.clock == 100 && s.kernel.dead == {} && s.desc.Keys == {1, 2} && !s.desc[1].closed && !s.desc[2].closed
    requires s.desc[2].targetNs == 100 && s.desc[2].pidControlVariable == 0
    requires s.model == map[1 := NewSession(p, 1, 100)][2 := NewSession(p, 2, 100)]
    ensures Boosted(p, SessionSystem.Next(p, s, Invoke(2, SendHint(CpuLoadUp), At(100))))
  {
    hide SessionSystem.Next;
    HintStep(p, s, 2, 100);
    var votes := HintedVotes(p, NewSession(p, 2, 100).value.votes, s.desc[2], 100);
    assert votes.cpu == map[CPU_LOAD_RESET := Vote(0, p.halfStaleNs(100), 0),
                            CPU_VOTE_DEFAULT := Vote(100, PidVoteNs(p, 100), 0),
                            CPU_LOAD_UP := Vote(100, 200, p.uclampMinLoadUp)];
  }

  lemma BoostedReached(p: Profile) returns (s: System)
    requires p.uclampMinLoadReset == 0 && p.uclampMinInit == 0 && p.uclampMinLoadUp <= UCLAMP_MAX
    ensures Reachable(p, s) && Boosted(p, s)
  {
    hide SessionSystem.Next, NewSession, Boosted, Reachable;
    var s0, up := SessionSystem.Initial(0), Invoke(2, SendHint(CpuLoadUp), At(100));
    var s1 := SessionSystem.Next(p, s0, NewOp(100));
    StartReachable(p, 0);
    NewStep(p, s0, 100);
    NextReachable(p, s0, NewOp(100));
    var s2 := SessionSystem.Next(p, s1, NewOp(100));
    NewStep(p, s1, 100);
    NextReachable(p, s1, NewOp(100));
    var s3 := SessionSystem.Next(p, s2, Tick(100));
    TickStep(p, s2, 100);
    NextReachable(p, s2, Tick(100));
    HintedBoosted(p, s3);
    NextReachable(p, s3, up);
    s := SessionSystem.Next(p, s3, up);
  }

  lemma NothingAskedBefore(p: Profile, s: System, m: Model)
    requires p.uclampMinLoadReset == 0 && p.uclampMinInit == 0 && Boosted(p, s)
    requires m == WithValue(s.model, 1, s.model[1].value.(isPowerEfficient := true))
    ensures FloorOf(m, 7, 50) == UCLAMP_MIN
  {
    forall id, v | Speaks(m, id, 7) && v in m[id].value.votes.cpu && m[id].value.votes.cpu[v].timing.IsTimeInRange(50)
      ensures m[id].value.votes.cpu[v].range.uclampMin <= UCLAMP_MIN
    {
      assert m[id].value.votes == s.model[id].value.votes;
    }
    NothingAsked(m, 7, 50);
  }

  lemma LateModeLetsDown(p: Profile, s: System)
    requires p.uclampMinOn && p.uclampMinLoadReset == 0 && p.uclampMinInit == 0 && 0 < p.uclampMinLoadUp <= UCLAMP_MAX
    requires Boosted(p, s)
    ensures var s' := SessionSystem.Next(p, s, Invoke(1, SetMode(PowerEfficiency, true), At(50)));
            LetDown(CoreAt(s'), 2, CPU_LOAD_UP, 7)
  {
    var s' := SessionSystem.Next(p, s, Invoke(1, SetMode(PowerEfficiency, true), At(50)));
    hide SessionSystem.Next, FloorOf;
    ModeStep(p, s, 1, 50);
    NothingAskedBefore(p, s, s'.model);
  }

  /** Readings that go back: session 2 asks for a boost of a thread it shares with session 1, and a call of
      session 1 that has read the clock before takes the boost away again. */
  lemma LateCallDropsVote(p: Profile) returns (s: System)
    requires p.uclampMinOn && p.uclampMinLoadReset == 0 && p.uclampMinInit == 0 && 0 < p.uclampMinLoadUp <= UCLAMP_MAX
    ensures Reachable(p, s) && LetDown(CoreAt(s), 2, CPU_LOAD_UP, 7)
  {
    var before := BoostedReached(p);
    var mode := Invoke(1, SetMode(PowerEfficiency, true), At(50));
    assert SessionSystem.Enabled(p, before, mode);
    hide SessionSystem.Next, Reachable, Boosted, LetDown;
    LateModeLetsDown(p, before);
    NextReachable(p, before, mode);
    s := SessionSystem.Next(p, before, mode);
  }

  /** Session 1's default vote has run out, and the votes have been applied since. */
  ghost predicate RunOut(p: Profile, s: System) {
    && s.clock == 100 && s.kernel.dead == {} && 1 in s.desc && !s.desc[1].closed && 1 in s.model
    && s.model[1] == NewSession(p, 1, 10).(value := NewSession(p, 1, 10).value.(isPowerEfficient := true))
    && 7 in s.kernel.floors && s.kernel.floors[7] == UCLAMP_MIN
  }

  lemma AppliedWhenRunOut(p: Profile, s: System)
    requires p.uclampMinOn && p.uclampMinLoadReset == 0 && s.model == map[1 := NewSession(p, 1, 10)]
    requires s.clock == 100 && s.kernel.dead == {} && 1 in s.desc && !s.desc[1].closed
    ensures RunOut(p, SessionSystem.Next(p, s, Invoke(1, SetMode(PowerEfficiency, true), At(100))))
  {
    var s' := SessionSystem.Next(p, s, Invoke(1, SetMode(PowerEfficiency, true), At(100)));
    hide SessionSystem.Next, FloorOf;
    ModeStep(p, s, 1, 100);
    forall id, v | Speaks(s'.model, id, 7) && v in s'.model[id].value.votes.cpu &&
                   s'.model[id].value.votes.cpu[v].timing.IsTimeInRange(100)
      ensures s'.model[id].value.votes.cpu[v].range.uclampMin <= UCLAMP_MIN
    {
      assert s'.model[id].value.votes == NewSession(p, 1, 10).value.votes;
    }
    NothingAsked(s'.model, 7, 100);
  }

  lemma RunOutReached(p: Profile) returns (s: System)
    requires p.uclampMinOn && p.uclampMinLoadReset == 0
    ensures Reachable(p, s) && RunOut(p, s)
  {
    hide SessionSystem.Next, NewSession, RunOut, Reachable;
    var s0, mode := SessionSystem.Initial(0), Invoke(1, SetMode(PowerEfficiency, true), At(100));
    var s1 := SessionSystem.Next(p, s0, NewOp(10));
    StartReachable(p, 0);
    NewStep(p, s0, 10);
    NextReachable(p, s0, NewOp(10));
    var s2 := SessionSystem.Next(p, s1, Tick(100));
    TickStep(p, s1, 100);
    NextReachable(p, s1, Tick(100));
    AppliedWhenRunOut(p, s2);
    NextReachable(p, s2, mode);
    s := SessionSystem.Next(p, s2, mode);
  }

  /** A vote that has run out is lengthened: the thread lost its boost when the votes were last applied, and
      a new target gives the vote time again without applying it. */
  lemma LateTargetMissesVote(p: Profile) returns (s: System)
    requires p.uclampMinOn && p.uclampMinLoadReset == 0 && 0 < p.uclampMinInit <= UCLAMP_MAX
    requires 100 <= p.scaleTarget(1000)
    ensures Reachable(p, s) && LetDown(CoreAt(s), 1, CPU_VOTE_DEFAULT, 7)
  {
    var before := RunOutReached(p);
    var target := Invoke(1, UpdateTarget(1000), At(100));
    hide Reachable;
    s := SessionSystem.Next(p, before, target);
    assert LetDown(CoreAt(s), 1, CPU_VOTE_DEFAULT, 7);
    NextReachable(p, before, target);
  }
}
