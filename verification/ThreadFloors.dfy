/** The lower clamps that the scheduler holds for the threads, and the value that the GPU capacity node
    holds, in terms of the sessions' votes. */
module ThreadFloors {
  import opened Arith
  import opened UclampVoter
  import opened TaskVoteRange
  import opened TaskIndex
  import opened SessionTaskMap
  import opened ThreadSweep
  import opened SessionModel
  import OtherSessions

  /** The lower clamps in force, the threads that have ever been reported dead, and the value last
      written to the GPU capacity node. */
  datatype Kernel = Kernel(floors: map<int, int>, dead: set<int>, gpu: int)

  /** Session `id` is active and lists thread `x`. */
  predicate Speaks(m: Model, id: int, x: int) {
    id in m && m[id].value.isActive && x in m[id].tasks
  }

  /** What the sessions ask of thread `x` at time `t`: the lower clamps of the votes in force. */
  ghost function LiveAsked(m: Model, x: int, t: int): set<int> {
    set id, y | id in m && Speaks(m, id, x) && y in m[id].value.votes.LiveMins(t) :: y
  }

  /** The lower clamp that the manager gives thread `x` at time `t`. */
  ghost function FloorOf(m: Model, x: int, t: int): int {
    Min(Max(UCLAMP_MIN, Highest(UCLAMP_MIN, LiveAsked(m, x, t))), UCLAMP_MAX)
  }

  /** The clamps after the sweep of session `id` at time `t`. */
  ghost function ApplyTo(k: Kernel, m: Model, id: int, t: int, dead: set<int>, on: bool): Kernel {
    if on && id in m then
      var living := set x | x in m[id].tasks && x !in dead;
      k.(floors := map x | x in k.floors.Keys + living :: if x in living then FloorOf(m, x, t) else k.floors[x],
         dead := k.dead + dead)
    else k
  }

  /** The GPU node once the votes have been applied to it at time `t`, if session `id` is known. */
  ghost function ApplyGpu(k: Kernel, m: Model, id: int, t: int, gpuOn: bool): Kernel {
    if gpuOn && id in m then k.(gpu := Highest(0, GpuDemands(m, t))) else k
  }

  /** The clamps and the GPU node after both have been applied. */
  ghost function ApplyBoth(k: Kernel, m: Model, id: int, t: int, dead: set<int>, on: bool, gpuOn: bool): Kernel {
    ApplyGpu(ApplyTo(k, m, id, t, dead, on), m, id, t, gpuOn)
  }

  lemma BothApplied(k: Kernel, m: Model, id: int, t: int, dead: set<int>, on: bool, gpuOn: bool)
    ensures ApplyBoth(k, m, id, t, dead, on, gpuOn) ==
            ApplyGpu(ApplyTo(k, m, id, t, dead, on), SweepModel(m, id, dead, on), id, t, gpuOn)
  {
    DemandsSwept(m, id, dead, on, t);
  }

  /** Clamps and GPU node after a timeout event. */
  ghost function KernelAfterEvent(k: Kernel, m: Model, ev: SessionTimeout, tNow: int, dead: set<int>, on: bool,
                                  gpuOn: bool): Kernel {
    if Expires(m, ev, tNow) then
      ApplyBoth(k, WithVotes(m, ev.sessionId, m[ev.sessionId].value.votes.SetUse(ev.voteId, false)), ev.sessionId,
                tNow, dead, on, gpuOn)
    else k
  }

  /** Clamps and GPU node after a session has been given new threads: applied once without the session,
      and once with it on its new threads. */
  ghost function KernelAfterSetThreads(k: Kernel, m: Model, id: int, ids: seq<int>, t: int, t': int, dead: set<int>,
                                       dead': set<int>, on: bool, gpuOn: bool): Kernel
  {
    var m1 := WithActive(m, id, false);
    var m2 := WithActive(WithTasks(SweepModel(m1, id, dead, on), id, ids), id, true);
    ApplyBoth(ApplyBoth(k, m1, id, t, dead, on, gpuOn), m2, id, t', dead', on, gpuOn)
  }

  // ---------------------------------------------------------------------------------------------
  // The clamps that the loop sets
  // ---------------------------------------------------------------------------------------------

  ghost function FloorsOf(clamps: map<int, UclampRange>): map<int, int> {
    map x | x in clamps :: clamps[x].uclampMin
  }

  /** The sessions that the thread's list leads to are those that list the thread. */
  lemma SameAsked(sessions: Sessions, tasks: Tasks, values: Values, x: int, t: int)
    requires MapsValid(sessions, tasks, values)
    ensures Mins(Views(ListOf(tasks, x), values), t) == LiveAsked(ModelOf(sessions, values), x, t)
  {
    hide Consistent, Owned, ListOf;
    var m, views := ModelOf(sessions, values), Views(ListOf(tasks, x), values);
    forall y | y in Mins(views, t) ensures y in LiveAsked(m, x, t) {
      var i :| 0 <= i < |views| && views[i].isActive && y in views[i].votes.LiveMins(t);
      var id := OwnerOf(sessions, tasks, values, x, i);
    }
    forall y | y in LiveAsked(m, x, t) ensures y in Mins(views, t) {
      var id :| id in m && Speaks(m, id, x) && y in m[id].value.votes.LiveMins(t);
      var i := PlaceOf(sessions, tasks, values, x, id);
    }
  }

  /** The session behind place `i` of the thread's list. */
  lemma OwnerOf(sessions: Sessions, tasks: Tasks, values: Values, x: int, i: nat) returns (id: int)
    requires MapsValid(sessions, tasks, values) && i < |ListOf(tasks, x)|
    ensures var m := ModelOf(sessions, values);
            && ListOf(tasks, x)[i] in values && id in m && x in m[id].tasks
            && Views(ListOf(tasks, x), values)[i] == m[id].value.View()
  {
    var list := ListOf(tasks, x);
    ListedHasValue(sessions, tasks, values, x, i);
    assert Owned(sessions, list[i]);
    id :| id in sessions && sessions[id].val == list[i];
    ListedBySession(sessions, tasks, id, x);
  }

  /** A place of a session in the list of a thread that it lists. */
  lemma PlaceOf(sessions: Sessions, tasks: Tasks, values: Values, x: int, id: int) returns (i: nat)
    requires MapsValid(sessions, tasks, values) && id in ModelOf(sessions, values)
    requires x in ModelOf(sessions, values)[id].tasks
    ensures i < |ListOf(tasks, x)| && ListOf(tasks, x)[i] in values
    ensures Views(ListOf(tasks, x), values)[i] == ModelOf(sessions, values)[id].value.View()
  {
    ListedBySession(sessions, tasks, id, x);
    i :| i < |ListOf(tasks, x)| && ListOf(tasks, x)[i] == sessions[id].val;
  }

  lemma ListedBySession(sessions: Sessions, tasks: Tasks, id: int, x: int)
    requires Consistent(sessions, tasks) && id in sessions
    ensures sessions[id].val in ListOf(tasks, x) <==> x in sessions[id].linkedTasks
  {
    CountZero(ListOf(tasks, x), sessions[id].val);
    CountZero(sessions[id].linkedTasks, x);
  }

  /** The wanted lower clamp does not depend on the order of the sessions. */
  lemma WantedFloor(sessions: Sessions, tasks: Tasks, values: Values, x: int, t: int, cap: Option<EfficiencyCap>)
    requires MapsValid(sessions, tasks, values)
    ensures WantedClamp(tasks, values, x, t, cap).uclampMin == FloorOf(ModelOf(sessions, values), x, t)
  {
    hide MapsValid, Mins, LiveAsked;
    MinIsHighest(DEFAULT_RANGE, Views(ListOf(tasks, x), values), t, cap);
    SameAsked(sessions, tasks, values, x, t);
  }

  /** What the loop over a session's threads does to the lower clamps. */
  lemma SweptFloors(sessions: Sessions, tasks: Tasks, values: Values, clamps: map<int, UclampRange>, id: int,
                    dead: set<int>, everDead: set<int>, gpu: int, t: int, cap: Option<EfficiencyCap>)
    requires MapsValid(sessions, tasks, values) && id in sessions
    ensures var e := sessions[id];
            var p := ProgressAt(tasks, clamps, e, |e.linkedTasks|, dead, values, t, cap);
            Kernel(FloorsOf(p.clamps), everDead + dead, gpu) ==
            ApplyTo(Kernel(FloorsOf(clamps), everDead, gpu), ModelOf(sessions, values), id, t, dead, true)
  {
    var e, m := sessions[id], ModelOf(sessions, values);
    var n := |e.linkedTasks|;
    var r := Clamped(clamps, tasks, e.linkedTasks, n, dead, values, t, cap);
    var k := ApplyTo(Kernel(FloorsOf(clamps), everDead, gpu), m, id, t, dead, true);
    assert e.linkedTasks[..n] == e.linkedTasks;
    hide MapsValid, FloorOf, WantedClamp, Clamped;
    forall x ensures x in r <==> x in k.floors {
      ClampedAt(clamps, tasks, e.linkedTasks, n, dead, values, t, cap, x);
    }
    forall x | x in r ensures r[x].uclampMin == k.floors[x] {
      ClampedAt(clamps, tasks, e.linkedTasks, n, dead, values, t, cap, x);
      WantedFloor(sessions, tasks, values, x, t, cap);
    }
    SameMap(FloorsOf(r), k.floors);
  }

  /** All that the loop over the threads of session `id` does to maps and clamps. */
  ghost predicate SweptTo(sessions: Sessions, tasks: Tasks, clamps: map<int, UclampRange>,
                          sessions': Sessions, tasks': Tasks, clamps': map<int, UclampRange>,
                          values: Values, id: int, dead: set<int>, everDead: set<int>, gpu: int,
                          t: int, cap: Option<EfficiencyCap>)
    requires MapsValid(sessions, tasks, values)
  {
    && MapsValid(sessions', tasks', values) && id in sessions'
    && ModelOf(sessions', values) == SweepModel(ModelOf(sessions, values), id, dead, true)
    && Kernel(FloorsOf(clamps'), everDead + dead, gpu) ==
       ApplyTo(Kernel(FloorsOf(clamps), everDead, gpu), ModelOf(sessions, values), id, t, dead, true)
    && ClampsWanted(clamps', sessions'[id].linkedTasks, tasks', values, t, cap)
    && SameElsewhere(clamps', clamps, ThreadsOf(ModelOf(sessions, values), id))
    && OtherSessions.OthersOf(sessions', tasks', values, id) == OtherSessions.OthersOf(sessions, tasks, values, id)
    && (forall x :: x !in dead ==> (x in tasks' <==> x in tasks))
  }

  lemma SweepOutcome(sessions: Sessions, tasks: Tasks, clamps: map<int, UclampRange>, values: Values, id: int,
                     dead: set<int>, everDead: set<int>, gpu: int, t: int, cap: Option<EfficiencyCap>)
    requires MapsValid(sessions, tasks, values) && id in sessions
    ensures var e := sessions[id];
            var p := ProgressAt(tasks, clamps, e, |e.linkedTasks|, dead, values, t, cap);
            SweptTo(sessions, tasks, clamps, sessions[id := ValEntry(e.val, p.linked)], p.tasks, p.clamps,
                    values, id, dead, everDead, gpu, t, cap)
  {
    assert ThreadsOf(ModelOf(sessions, values), id) == sessions[id].linkedTasks;
    hide MapsValid, ModelOf, SweepModel, ThreadsOf, ProgressAt, ClampsWanted, SameElsewhere, OtherSessions.OthersOf,
         ApplyTo, FloorsOf;
    SweepEnds(sessions, tasks, values, clamps, id, dead, t, cap);
    SweptFloors(sessions, tasks, values, clamps, id, dead, everDead, gpu, t, cap);
  }

  lemma KernelOfSetThreads(k: Kernel, m: Model, id: int, ids: seq<int>, t: int, t': int, dead: set<int>,
                           dead': set<int>, on: bool, gpuOn: bool)
    ensures var m1 := WithActive(m, id, false);
            var m2 := WithActive(WithTasks(SweepModel(m1, id, dead, on), id, ids), id, true);
            KernelAfterSetThreads(k, m, id, ids, t, t', dead, dead', on, gpuOn) ==
            ApplyBoth(ApplyBoth(k, m1, id, t, dead, on, gpuOn), m2, id, t', dead', on, gpuOn)
  {
  }
}
