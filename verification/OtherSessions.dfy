/** What the threads see of all sessions but one. Operations on a session leave this alone, and an
    inactive session cannot be told from one that is not there. */
module OtherSessions {
  import opened Arith
  import opened UclampVoter
  import opened TaskVoteRange
  import opened TaskIndex
  import opened SessionTaskMap
  import opened ThreadSweep

  /** For every thread, the sessions other than `id` that list it, in list order. */
  ghost function OthersOf(sessions: Sessions, tasks: Tasks, values: Values, id: int): imap<int, seq<SessionView>> {
    imap x: int | true :: ViewsBut(sessions, tasks, values, id, x)
  }

  ghost function ViewsBut(sessions: Sessions, tasks: Tasks, values: Values, id: int, x: int): seq<SessionView> {
    if id in sessions then Views(Others(ListOf(tasks, x), sessions[id].val), values)
    else Views(ListOf(tasks, x), values)
  }

  /** The two value maps agree on the references of a list. */
  ghost predicate AgreeOn(list: seq<Ref>, values: Values, values': Values) {
    forall i :: 0 <= i < |list| ==> (list[i] in values <==> list[i] in values') &&
                                    (list[i] in values ==> values[list[i]] == values'[list[i]])
  }

  lemma SameViews(list: seq<Ref>, values: Values, values': Values)
    requires AgreeOn(list, values, values')
    ensures Views(list, values) == Views(list, values')
  {
  }

  lemma ListWithout(tasks: Tasks, v: Ref, x: int)
    ensures ListOf(Without(tasks, v), x) == Others(ListOf(tasks, x), v)
  {
  }

  lemma OthersNotIn(list: seq<Ref>, v: Ref, i: nat)
    requires i < |Others(list, v)|
    ensures Others(list, v)[i] != v && Others(list, v)[i] in list
  {
    OthersMember(list, v, Others(list, v)[i]);
  }

  /** Changing the session's own value changes nothing for the others. */
  lemma ValueChange(sessions: Sessions, tasks: Tasks, values: Values, id: int, sv: SessionValue)
    requires id in sessions
    ensures OthersOf(sessions, tasks, values[sessions[id].val := sv], id) == OthersOf(sessions, tasks, values, id)
  {
    var v := sessions[id].val;
    var values' := values[v := sv];
    forall x ensures ViewsBut(sessions, tasks, values', id, x) == ViewsBut(sessions, tasks, values, id, x) {
      var list := Others(ListOf(tasks, x), v);
      forall i | 0 <= i < |list| ensures list[i] != v { OthersNotIn(ListOf(tasks, x), v, i); }
      SameViews(list, values, values');
    }
  }

  /** Dropping the session's own dead threads changes nothing for the others. */
  lemma Sweep(sessions: Sessions, tasks: Tasks, values: Values, id: int, dead: set<int>, linked: seq<int>)
    requires id in sessions
    ensures var e := sessions[id];
            OthersOf(sessions[id := ValEntry(e.val, linked)], Swept(tasks, e, |e.linkedTasks|, dead), values, id) ==
            OthersOf(sessions, tasks, values, id)
  {
    var e := sessions[id];
    var sessions', tasks' := sessions[id := ValEntry(e.val, linked)], Swept(tasks, e, |e.linkedTasks|, dead);
    SweptKeeps(tasks, e, |e.linkedTasks|, dead);
    forall x ensures ViewsBut(sessions', tasks', values, id, x) == ViewsBut(sessions, tasks, values, id, x) {
      ListWithout(tasks, e.val, x);
      ListWithout(tasks', e.val, x);
    }
  }

  /** Giving the session a new copy of itself with other threads changes nothing for the others. */
  lemma Replaced(sessions: Sessions, tasks: Tasks, tasks': Tasks, values: Values, id: int, v: Ref, ids: seq<int>)
    requires MapsValid(sessions, tasks, values) && id in sessions && v !in values
    requires Without(tasks', v) == Without(tasks, sessions[id].val)
    ensures var old' := sessions[id].val;
            OthersOf(sessions[id := ValEntry(v, ids)], tasks', (values - {old'})[v := values[old']], id) ==
            OthersOf(sessions, tasks, values, id)
  {
    var old' := sessions[id].val;
    assert old' in values;
    hide MapsValid, Views, Others, Without;
    forall x {
      ReplacedAt(sessions, tasks, tasks', values, (values - {old'})[v := values[old']], id, v, x);
    }
  }

  lemma ReplacedAt(sessions: Sessions, tasks: Tasks, tasks': Tasks, values: Values, values': Values, id: int, v: Ref,
                   x: int)
    requires MapsValid(sessions, tasks, values) && id in sessions && v !in values
    requires Without(tasks', v) == Without(tasks, sessions[id].val)
    requires forall r: Ref :: r != v && r != sessions[id].val ==>
               (r in values <==> r in values') && (r in values ==> values[r] == values'[r])
    ensures Views(Others(ListOf(tasks', x), v), values') == Views(Others(ListOf(tasks, x), sessions[id].val), values)
  {
    ListWithout(tasks, sessions[id].val, x);
    ListWithout(tasks', v, x);
    OthersAgree(sessions, tasks, values, values', id, v, x);
    SameViews(Others(ListOf(tasks, x), sessions[id].val), values, values');
  }

  lemma OthersAgree(sessions: Sessions, tasks: Tasks, values: Values, values': Values, id: int, v: Ref, x: int)
    requires MapsValid(sessions, tasks, values) && id in sessions && v !in values
    requires forall r: Ref :: r != v && r != sessions[id].val ==>
               (r in values <==> r in values') && (r in values ==> values[r] == values'[r])
    ensures AgreeOn(Others(ListOf(tasks, x), sessions[id].val), values, values')
  {
    var list := ListOf(tasks, x);
    var others := Others(list, sessions[id].val);
    forall i | 0 <= i < |others| ensures others[i] != v && others[i] != sessions[id].val {
      OthersNotIn(list, sessions[id].val, i);
      var k :| 0 <= k < |list| && list[k] == others[i];
      ListedHasValue(sessions, tasks, values, x, k);
    }
  }

  /** Removing the session changes nothing for the others. */
  lemma Removed(sessions: Sessions, tasks: Tasks, values: Values, id: int)
    requires id in sessions
    ensures var v := sessions[id].val;
            OthersOf(sessions - {id}, Without(tasks, v), values - {v}, id) == OthersOf(sessions, tasks, values, id)
  {
    hide Views, Others, Without;
    forall x {
      RemovedAt(tasks, values, sessions[id].val, x);
    }
  }

  lemma RemovedAt(tasks: Tasks, values: Values, v: Ref, x: int)
    ensures Views(ListOf(Without(tasks, v), x), values - {v}) == Views(Others(ListOf(tasks, x), v), values)
  {
    ListWithout(tasks, v, x);
    var list := Others(ListOf(tasks, x), v);
    forall i | 0 <= i < |list| ensures list[i] != v { OthersNotIn(ListOf(tasks, x), v, i); }
    SameViews(list, values, values - {v});
  }

  /** The clamp that the other sessions ask for on thread `x`. */
  ghost function ClampBy(others: imap<int, seq<SessionView>>, x: int, t: int, cap: Option<EfficiencyCap>): UclampRange
    requires x in others
  {
    ClampForScheduler(RangeAfter(DEFAULT_RANGE, others[x], t, cap))
  }

  /** An inactive session has no say. */
  lemma InactiveHasNoSay(sessions: Sessions, tasks: Tasks, values: Values, id: int, x: int, t: int,
                         cap: Option<EfficiencyCap>)
    requires id in sessions && sessions[id].val in values && !values[sessions[id].val].isActive
    ensures WantedClamp(tasks, values, x, t, cap) == ClampBy(OthersOf(sessions, tasks, values, id), x, t, cap)
  {
    SkipInactive(ListOf(tasks, x), values, sessions[id].val, t, cap);
  }

  lemma {:induction false} SkipInactive(list: seq<Ref>, values: Values, v: Ref, t: int, cap: Option<EfficiencyCap>)
    requires v in values && !values[v].isActive
    ensures RangeAfter(DEFAULT_RANGE, Views(list, values), t, cap) ==
            RangeAfter(DEFAULT_RANGE, Views(Others(list, v), values), t, cap)
    decreases |list|
  {
    if list != [] {
      var n := |list| - 1;
      var init, last := list[..n], [list[n]];
      assert list == init + last;
      SkipInactive(init, values, v, t, cap);
      OthersConcat(init, last, v);
      ViewsConcat(init, last, values);
      RangeAfterSnoc(DEFAULT_RANGE, Views(init, values), Views(last, values)[0], t, cap);
      if list[n] == v {
        assert Others(last, v) == [] && Others(init, v) + [] == Others(init, v);
      } else {
        ViewsConcat(Others(init, v), last, values);
        RangeAfterSnoc(DEFAULT_RANGE, Views(Others(init, v), values), Views(last, values)[0], t, cap);
      }
    }
  }

  lemma ViewsConcat(a: seq<Ref>, b: seq<Ref>, values: Values)
    ensures Views(a + b, values) == Views(a, values) + Views(b, values)
  {
  }

  /** The threads `ids` carry the clamps that the other sessions ask for. */
  ghost predicate ClampedBy(clamps: map<int, UclampRange>, others: imap<int, seq<SessionView>>, ids: seq<int>,
                            t: int, cap: Option<EfficiencyCap>) {
    forall x :: x in ids ==> x in clamps && x in others && clamps[x] == ClampBy(others, x, t, cap)
  }

  lemma InactiveClamps(clamps: map<int, UclampRange>, ids: seq<int>, sessions: Sessions, tasks: Tasks, values: Values,
                       id: int, t: int, cap: Option<EfficiencyCap>)
    requires id in sessions && sessions[id].val in values && !values[sessions[id].val].isActive
    requires ClampsWanted(clamps, ids, tasks, values, t, cap)
    ensures ClampedBy(clamps, OthersOf(sessions, tasks, values, id), ids, t, cap)
  {
    forall x {
      InactiveHasNoSay(sessions, tasks, values, id, x, t, cap);
    }
  }

  lemma ClampedElsewhere(clamps: map<int, UclampRange>, clamps': map<int, UclampRange>,
                         others: imap<int, seq<SessionView>>,
                         ids: seq<int>, changed: seq<int>, ids': seq<int>, t: int, cap: Option<EfficiencyCap>)
    requires ClampedBy(clamps, others, ids, t, cap) && SameElsewhere(clamps', clamps, changed)
    requires forall x :: x in ids' ==> x in ids && x !in changed
    ensures ClampedBy(clamps', others, ids', t, cap)
  {
  }

  /** A thread that a session does not list sees only the others. */
  lemma UnlistedSeesOthers(sessions: Sessions, tasks: Tasks, values: Values, id: int, x: int, t: int,
                           cap: Option<EfficiencyCap>)
    requires MapsValid(sessions, tasks, values) && (id in sessions ==> x !in sessions[id].linkedTasks)
    ensures WantedClamp(tasks, values, x, t, cap) == ClampBy(OthersOf(sessions, tasks, values, id), x, t, cap)
  {
    if id in sessions {
      CountZero(ListOf(tasks, x), sessions[id].val);
      CountZero(sessions[id].linkedTasks, x);
    }
  }
}
