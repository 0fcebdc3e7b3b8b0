/** The sweep that sets the clamp of every thread of a session and, in the same pass, erases the
    threads found dead from both maps (PowerSessionManager::applyUclampLocked). */
module ThreadSweep {
  import opened Arith
  import opened UclampVoter
  import opened TaskVoteRange
  import opened TaskIndex
  import opened SessionTaskMap

  /** The threads among the first `n` of a list that are not dead, in list order and with repetitions. */
  function AliveUpTo(tasks: seq<int>, n: nat, dead: set<int>): seq<int>
    requires n <= |tasks|
  {
    if n == 0 then []
    else AliveUpTo(tasks, n - 1, dead) + if tasks[n - 1] in dead then [] else [tasks[n - 1]]
  }

  function Alive(tasks: seq<int>, dead: set<int>): seq<int> {
    AliveUpTo(tasks, |tasks|, dead)
  }

  lemma {:induction false} AliveMember(tasks: seq<int>, n: nat, dead: set<int>, t: int)
    requires n <= |tasks|
    ensures t in AliveUpTo(tasks, n, dead) <==> t in tasks[..n] && t !in dead
  {
    if n > 0 {
      AliveMember(tasks, n - 1, dead, t);
      assert tasks[..n] == tasks[..n - 1] + [tasks[n - 1]];
    }
  }

  /** Two sweeps are one sweep of both sets of dead threads. */
  lemma {:induction false} AliveTwice(ids: seq<int>, n: nat, dead: set<int>, dead': set<int>)
    requires n <= |ids|
    ensures Alive(AliveUpTo(ids, n, dead), dead') == AliveUpTo(ids, n, dead + dead')
  {
    if n > 0 {
      AliveTwice(ids, n - 1, dead, dead');
      if ids[n - 1] in dead {
        assert AliveUpTo(ids, n, dead) == AliveUpTo(ids, n - 1, dead);
      } else {
        AliveSnoc(AliveUpTo(ids, n - 1, dead), ids[n - 1], dead');
      }
    }
  }

  lemma AliveSnoc(ids: seq<int>, x: int, dead: set<int>)
    ensures Alive(ids + [x], dead) == Alive(ids, dead) + if x in dead then [] else [x]
  {
    AlivePrefix(ids, [x], |ids|, dead);
  }

  lemma {:induction false} AlivePrefix(ids: seq<int>, more: seq<int>, n: nat, dead: set<int>)
    requires n <= |ids|
    ensures AliveUpTo(ids + more, n, dead) == AliveUpTo(ids, n, dead)
  {
    if n > 0 {
      AlivePrefix(ids, more, n - 1, dead);
    }
  }

  lemma {:induction false} AliveNone(ids: seq<int>, n: nat)
    requires n <= |ids|
    ensures AliveUpTo(ids, n, {}) == ids[..n]
  {
    if n > 0 {
      AliveNone(ids, n - 1);
    }
  }

  /** The session map after a sweep of one session's dead threads. */
  function SweptSessions<V>(sessions: map<int, ValEntry<V>>, id: int, dead: set<int>, on: bool): map<int, ValEntry<V>> {
    if on && id in sessions
    then sessions[id := ValEntry(sessions[id].val, Alive(sessions[id].linkedTasks, dead))]
    else sessions
  }

  /** The thread list once its first `i` entries have been visited. */
  function Remaining(tasks: seq<int>, i: nat, dead: set<int>): seq<int>
    requires i <= |tasks|
  {
    AliveUpTo(tasks, i, dead) + tasks[i..]
  }

  lemma RemainingEnds<V>(sessions: map<int, ValEntry<V>>, id: int, dead: set<int>)
    requires id in sessions
    ensures var e := sessions[id];
            && sessions == sessions[id := ValEntry(e.val, Remaining(e.linkedTasks, 0, dead))]
            && Remaining(e.linkedTasks, |e.linkedTasks|, dead) == Alive(e.linkedTasks, dead)
  {
    assert Remaining(sessions[id].linkedTasks, 0, dead) == sessions[id].linkedTasks;
  }

  lemma RemainingStep(tasks: seq<int>, i: nat, dead: set<int>)
    requires i < |tasks|
    ensures var r := Remaining(tasks, i, dead);
            var k := |AliveUpTo(tasks, i, dead)|;
            && k < |r| && r[k] == tasks[i]
            && |AliveUpTo(tasks, i + 1, dead)| == (if tasks[i] in dead then k else k + 1)
            && Remaining(tasks, i + 1, dead) == if tasks[i] in dead then RemoveAt(r, k) else r
  {
  }

  /** The thread map once the dead ones of the first `i` threads of session `e` have been unlinked. */
  ghost function Swept(tasks: Tasks, e: ValEntry<Ref>, i: nat, dead: set<int>): Tasks
    requires i <= |e.linkedTasks|
  {
    if i == 0 then tasks
    else
      var before := Swept(tasks, e, i - 1, dead);
      var tid := e.linkedTasks[i - 1];
      if tid in dead && e.val in ListOf(before, tid) then UnlinkOne(before, tid, e.val) else before
  }

  /** The sweep leaves the other sessions' links and the lists of living threads alone. */
  lemma {:induction false} SweptKeeps(tasks: Tasks, e: ValEntry<Ref>, i: nat, dead: set<int>)
    requires i <= |e.linkedTasks|
    ensures Without(Swept(tasks, e, i, dead), e.val) == Without(tasks, e.val)
    ensures forall x :: x !in dead ==> ListOf(Swept(tasks, e, i, dead), x) == ListOf(tasks, x)
  {
    if i > 0 {
      SweptKeeps(tasks, e, i - 1, dead);
      var before := Swept(tasks, e, i - 1, dead);
      var tid := e.linkedTasks[i - 1];
      if tid in dead && e.val in ListOf(before, tid) {
        UnlinkKeepsOthers(before, tid, e.val);
        forall x | x !in dead ensures ListOf(UnlinkOne(before, tid, e.val), x) == ListOf(tasks, x) {
          UnlinkKeepsOtherThreads(before, tid, e.val, x);
        }
      }
    }
  }

  /** The sweep keeps the two maps consistent at every point. */
  lemma {:induction false} SweptConsistent(sessions: Sessions, tasks: Tasks, id: int, i: nat, dead: set<int>)
    requires Consistent(sessions, tasks) && id in sessions && i <= |sessions[id].linkedTasks|
    ensures var e := sessions[id];
            Consistent(sessions[id := e.(linkedTasks := Remaining(e.linkedTasks, i, dead))], Swept(tasks, e, i, dead))
  {
    hide Consistent, UnlinkOne, AliveUpTo, ListOf;
    var e := sessions[id];
    if i == 0 {
      RemainingStart(e.linkedTasks, dead);
      assert sessions[id := e] == sessions;
    } else {
      hide Remaining;
      SweptConsistent(sessions, tasks, id, i - 1, dead);
      RemainingStep(e.linkedTasks, i - 1, dead);
      if e.linkedTasks[i - 1] in dead {
        UnlinkRound(sessions, Swept(tasks, e, i - 1, dead), id, Remaining(e.linkedTasks, i - 1, dead),
                    |AliveUpTo(e.linkedTasks, i - 1, dead)|);
      }
    }
  }

  lemma RemainingStart(tasks: seq<int>, dead: set<int>)
    ensures Remaining(tasks, 0, dead) == tasks
  {
  }

  /** A round of the sweep that finds a dead thread. */
  lemma UnlinkRound(sessions: Sessions, tasks: Tasks, id: int, linked: seq<int>, k: nat)
    requires id in sessions && k < |linked|
    requires Consistent(sessions[id := sessions[id].(linkedTasks := linked)], tasks)
    ensures var e := sessions[id];
            && e.val in ListOf(tasks, linked[k])
            && Consistent(sessions[id := e.(linkedTasks := RemoveAt(linked, k))], UnlinkOne(tasks, linked[k], e.val))
  {
    hide Consistent, UnlinkOne;
    var e := sessions[id];
    var sessions' := sessions[id := e.(linkedTasks := linked)];
    UpdateTwice(sessions, id, sessions'[id], e.(linkedTasks := RemoveAt(linked, k)));
    UnlinkKeeps(sessions', tasks, id, k);
  }

  /** The maps after a sweep are consistent, and every living thread is in the thread map as before. */
  lemma SweepResult(sessions: Sessions, tasks: Tasks, id: int, dead: set<int>)
    requires Consistent(sessions, tasks) && id in sessions
    ensures var e := sessions[id];
            Consistent(sessions[id := ValEntry(e.val, Alive(e.linkedTasks, dead))],
                       Swept(tasks, e, |e.linkedTasks|, dead))
    ensures forall x :: x !in dead ==>
            (x in Swept(tasks, sessions[id], |sessions[id].linkedTasks|, dead) <==> x in tasks)
  {
    var e := sessions[id];
    SweptConsistent(sessions, tasks, id, |e.linkedTasks|, dead);
    RemainingEnds(sessions, id, dead);
    SweptKeeps(tasks, e, |e.linkedTasks|, dead);
    forall x | x !in dead ensures x in Swept(tasks, e, |e.linkedTasks|, dead) <==> x in tasks {
      assert ListOf(Swept(tasks, e, |e.linkedTasks|, dead), x) == ListOf(tasks, x);
    }
  }

  lemma {:induction false} SweptSeen(tasks: Tasks, e: ValEntry<Ref>, i: nat, dead: set<int>, values: Values)
    requires Seen(tasks, values) && i <= |e.linkedTasks|
    ensures Seen(Swept(tasks, e, i, dead), values)
  {
    if i > 0 {
      SweptSeen(tasks, e, i - 1, dead, values);
      var before := Swept(tasks, e, i - 1, dead);
      var tid := e.linkedTasks[i - 1];
      if tid in dead && e.val in ListOf(before, tid) {
        UnlinkKeepsSeen(before, tid, e.val, values);
      }
    }
  }

  /** What round `i` of the sweep needs to meet: the link it looks for is there, and the list of a
      living thread is still the one it had at the start. */
  ghost predicate RoundReady(tasks: Tasks, e: ValEntry<Ref>, i: nat, dead: set<int>, values: Values)
    requires i < |e.linkedTasks|
  {
    var tid := e.linkedTasks[i];
    var list := ListOf(Swept(tasks, e, i, dead), tid);
    && e.val in list && (tid !in dead ==> list == ListOf(tasks, tid))
    && forall j :: 0 <= j < |list| ==> list[j] in values
  }

  ghost predicate SweepReady(tasks: Tasks, e: ValEntry<Ref>, dead: set<int>, values: Values) {
    forall i :: 0 <= i < |e.linkedTasks| ==> RoundReady(tasks, e, i, dead, values)
  }

  /** Consistent maps make every round of the sweep find what it needs. */
  lemma ConsistentSweepReady(sessions: Sessions, tasks: Tasks, id: int, dead: set<int>, values: Values)
    requires Consistent(sessions, tasks) && id in sessions && Seen(tasks, values)
    ensures SweepReady(tasks, sessions[id], dead, values)
  {
    var e := sessions[id];
    forall i | 0 <= i < |e.linkedTasks| ensures RoundReady(tasks, e, i, dead, values) {
      SweptConsistent(sessions, tasks, id, i, dead);
      RemainingStep(e.linkedTasks, i, dead);
      LinkedThere(sessions[id := e.(linkedTasks := Remaining(e.linkedTasks, i, dead))],
                  Swept(tasks, e, i, dead), id, |AliveUpTo(e.linkedTasks, i, dead)|);
      SweptKeeps(tasks, e, i, dead);
      SweptSeen(tasks, e, i, dead, values);
    }
  }

  /** How far the sweep of session `e` has come: `i` of its threads have been visited, and the
      state is `linked`, `tasks` and `clamps`, with `k` the position of the next one. */
  datatype Progress = Progress(k: nat, linked: seq<int>, tasks: Tasks, clamps: map<int, UclampRange>)

  ghost function ProgressAt(tasks: Tasks, clamps: map<int, UclampRange>, e: ValEntry<Ref>, i: nat, dead: set<int>,
                            values: Values, t: int, cap: Option<EfficiencyCap>): Progress
    requires i <= |e.linkedTasks|
  {
    Progress(|AliveUpTo(e.linkedTasks, i, dead)|, Remaining(e.linkedTasks, i, dead), Swept(tasks, e, i, dead),
             Clamped(clamps, tasks, e.linkedTasks, i, dead, values, t, cap))
  }

  lemma ProgressStart(tasks: Tasks, clamps: map<int, UclampRange>, e: ValEntry<Ref>, dead: set<int>,
                      values: Values, t: int, cap: Option<EfficiencyCap>)
    ensures ProgressAt(tasks, clamps, e, 0, dead, values, t, cap) == Progress(0, e.linkedTasks, tasks, clamps)
  {
    assert Remaining(e.linkedTasks, 0, dead) == e.linkedTasks;
  }

  /** The loop goes on as long as there are threads left to visit. */
  lemma ProgressGuard(tasks: Tasks, clamps: map<int, UclampRange>, e: ValEntry<Ref>, i: nat, dead: set<int>,
                      values: Values, t: int, cap: Option<EfficiencyCap>)
    requires i <= |e.linkedTasks|
    ensures var p := ProgressAt(tasks, clamps, e, i, dead, values, t, cap);
            p.k < |p.linked| <==> i < |e.linkedTasks|
  {
  }

  /** One round takes the loop from `p` to `q`, and finds what it needs at `p`. */
  ghost predicate RoundTakes(p: Progress, q: Progress, v: Ref, dead: set<int>, values: Values, t: int,
                             cap: Option<EfficiencyCap>) {
    p.k < |p.linked| &&
    var tid := p.linked[p.k];
    var list := ListOf(p.tasks, tid);
    && v in list && (forall j :: 0 <= j < |list| ==> list[j] in values)
    && q == if tid in dead
            then Progress(p.k, RemoveAt(p.linked, p.k), UnlinkOne(p.tasks, tid, v), p.clamps)
            else Progress(p.k + 1, p.linked, p.tasks, p.clamps[tid := WantedClamp(p.tasks, values, tid, t, cap)])
  }

  lemma ProgressStep(tasks: Tasks, clamps: map<int, UclampRange>, e: ValEntry<Ref>, i: nat, dead: set<int>,
                     values: Values, t: int, cap: Option<EfficiencyCap>)
    requires i < |e.linkedTasks| && SweepReady(tasks, e, dead, values)
    ensures RoundTakes(ProgressAt(tasks, clamps, e, i, dead, values, t, cap),
                       ProgressAt(tasks, clamps, e, i + 1, dead, values, t, cap), e.val, dead, values, t, cap)
  {
    RemainingStep(e.linkedTasks, i, dead);
    assert RoundReady(tasks, e, i, dead, values);
  }

  /** Every listed reference has a value. */
  ghost predicate Seen(tasks: Tasks, values: Values) {
    forall x, i :: 0 <= i < |ListOf(tasks, x)| ==> ListOf(tasks, x)[i] in values
  }

  lemma AllSeen(sessions: Sessions, tasks: Tasks, values: Values)
    requires MapsValid(sessions, tasks, values)
    ensures Seen(tasks, values)
  {
    forall x, i | 0 <= i < |ListOf(tasks, x)| ensures ListOf(tasks, x)[i] in values {
      ListedHasValue(sessions, tasks, values, x, i);
    }
  }

  lemma UnlinkKeepsSeen(tasks: Tasks, t: int, v: Ref, values: Values)
    requires v in ListOf(tasks, t) && Seen(tasks, values)
    ensures Seen(UnlinkOne(tasks, t, v), values)
  {
    var tasks' := UnlinkOne(tasks, t, v);
    forall x, i | 0 <= i < |ListOf(tasks', x)| ensures ListOf(tasks', x)[i] in values {
      StillListed(tasks, t, v, x, ListOf(tasks', x)[i]);
      var j :| 0 <= j < |ListOf(tasks, x)| && ListOf(tasks, x)[j] == ListOf(tasks', x)[i];
    }
  }

  /** The clamp that the votes in force ask for on a thread at time `t`. */
  ghost function WantedClamp(tasks: Tasks, values: Values, tid: int, t: int, cap: Option<EfficiencyCap>): UclampRange
  {
    ClampForScheduler(RangeAfter(DEFAULT_RANGE, Views(ListOf(tasks, tid), values), t, cap))
  }

  /** The clamps in force after the living ones of the first `i` threads of `ids` have been given
      the wanted ones. */
  ghost function Clamped(clamps: map<int, UclampRange>, tasks: Tasks, ids: seq<int>, i: nat, dead: set<int>,
                         values: Values, t: int, cap: Option<EfficiencyCap>): map<int, UclampRange>
    requires i <= |ids|
  {
    if i == 0 then clamps
    else
      var before := Clamped(clamps, tasks, ids, i - 1, dead, values, t, cap);
      if ids[i - 1] in dead then before else before[ids[i - 1] := WantedClamp(tasks, values, ids[i - 1], t, cap)]
  }

  /** Every living listed thread has the clamp that the votes in force ask for, every other thread
      the one it had. */
  lemma {:induction false} ClampedAt(clamps: map<int, UclampRange>, tasks: Tasks, ids: seq<int>, i: nat, dead: set<int>,
                                     values: Values, t: int, cap: Option<EfficiencyCap>, x: int)
    requires i <= |ids|
    ensures var r := Clamped(clamps, tasks, ids, i, dead, values, t, cap);
            if x in ids[..i] && x !in dead then x in r && r[x] == WantedClamp(tasks, values, x, t, cap)
            else (x in r <==> x in clamps) && (x in r ==> r[x] == clamps[x])
  {
    if i > 0 {
      ClampedAt(clamps, tasks, ids, i - 1, dead, values, t, cap, x);
      assert ids[..i] == ids[..i - 1] + [ids[i - 1]];
    }
  }

  /** Each of the threads `ids` carries the clamp that the votes in force ask for. */
  ghost predicate ClampsWanted(clamps: map<int, UclampRange>, ids: seq<int>, tasks: Tasks, values: Values,
                               t: int, cap: Option<EfficiencyCap>) {
    forall x :: x in ids ==> x in clamps && clamps[x] == WantedClamp(tasks, values, x, t, cap)
  }

  /** The clamps differ at most for the threads `ids`. */
  ghost predicate SameElsewhere(m: map<int, UclampRange>, w: map<int, UclampRange>, ids: seq<int>) {
    forall x :: x !in ids ==> (x in m <==> x in w) && (x in m ==> m[x] == w[x])
  }

  /** After the sweep, every thread the session still has carries the clamp that its votes, as they
      now stand, ask for; threads the session does not list keep theirs. */
  lemma SweptClamps(clamps: map<int, UclampRange>, tasks: Tasks, e: ValEntry<Ref>, dead: set<int>,
                    values: Values, t: int, cap: Option<EfficiencyCap>, x: int)
    ensures var n := |e.linkedTasks|;
            var r := Clamped(clamps, tasks, e.linkedTasks, n, dead, values, t, cap);
            && (x in Alive(e.linkedTasks, dead) ==>
                  x in r && r[x] == WantedClamp(Swept(tasks, e, n, dead), values, x, t, cap))
            && (x !in e.linkedTasks ==> (x in r <==> x in clamps) && (x in r ==> r[x] == clamps[x]))
  {
    var n := |e.linkedTasks|;
    assert e.linkedTasks[..n] == e.linkedTasks;
    ClampedAt(clamps, tasks, e.linkedTasks, n, dead, values, t, cap, x);
    AliveMember(e.linkedTasks, n, dead, x);
    SweptKeeps(tasks, e, n, dead);
  }
}
