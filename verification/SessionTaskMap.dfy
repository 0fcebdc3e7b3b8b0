/** The mapping between power sessions and the threads they boost (SessionTaskMap.cpp).

    Session values are shared between the two maps by reference. References are explicit here:
    a `Ref` names a session value, and `values` holds what the live references point to, so two
    copies of a session are told apart as the code tells them apart. */
module SessionTaskMap {
  import opened Arith
  import opened UclampVoter
  import opened TaskVoteRange
  import opened TaskIndex

  type Ref = nat

  datatype SessionValue = SessionValue(
    sessionId: int, isActive: bool, isAppSession: bool, isPowerEfficient: bool, votes: VoteTable)
  {
    function View(): SessionView { SessionView(isActive, isPowerEfficient, votes) }

    /** One round of the loop over the sessions of a thread. */
    method NarrowRange(range: UclampRange, t: int, cap: Option<EfficiencyCap>) returns (r: UclampRange)
      ensures r == AddSession(range, View(), t, cap)
    {
      r := range;
      if isActive {
        r := votes.GetUclampRange(range, t);
        if isPowerEfficient && cap.Some? {
          var allTimedOut := votes.AllTimedOut(t);
          r := r.(uclampMax := Min(r.uclampMax,
                                   if allTimedOut then cap.value.base else r.uclampMin + cap.value.offset));
        }
      }
    }
  }

  type Sessions = map<int, ValEntry<Ref>>
  type Tasks = map<int, seq<Ref>>
  type Values = map<Ref, SessionValue>

  /** The views of a list of sessions, in list order; a dangling reference counts for nothing. */
  function Views(list: seq<Ref>, values: Values): seq<SessionView> {
    seq(|list|, i requires 0 <= i < |list| =>
          if list[i] in values then values[list[i]].View() else SessionView(false, false, VoteTable(map[], map[])))
  }

  lemma ViewsSnoc(list: seq<Ref>, values: Values, i: nat)
    requires i < |list| && list[i] in values
    ensures Views(list[..i + 1], values) == Views(list[..i], values) + [values[list[i]].View()]
  {
  }

  /** The maps are consistent, and exactly the live sessions have a value, which names its session. */
  ghost predicate MapsValid(sessions: Sessions, tasks: Tasks, values: Values) {
    && Consistent(sessions, tasks)
    && (forall id :: id in sessions ==> sessions[id].val in values && values[sessions[id].val].sessionId == id)
    && (forall v :: v in values ==> Owned(sessions, v))
  }

  /** Every reference in a thread's list has a value. */
  lemma ListedHasValue(sessions: Sessions, tasks: Tasks, values: Values, t: int, i: nat)
    requires MapsValid(sessions, tasks, values) && i < |ListOf(tasks, t)|
    ensures ListOf(tasks, t)[i] in values
  {
    assert ListOf(tasks, t)[i] in tasks[t];
    assert Owned(sessions, ListOf(tasks, t)[i]);
  }

  class SessionTaskMap {
    var mSessions: Sessions
    var mTasks: Tasks
    var values: Values
    var nextRef: Ref

    constructor ()
      ensures Valid() && mSessions == map[] && mTasks == map[] && values == map[]
    {
      mSessions := map[];
      mTasks := map[];
      values := map[];
      nextRef := 0;
    }

    ghost predicate Valid()
      reads this
    {
      MapsValid(mSessions, mTasks, values) && forall v :: v in values ==> v < nextRef
    }

    /** Links the value `v` of a session that has no threads yet to the threads `taskIds`. */
    method LinkTasks(v: Ref, taskIds: seq<int>, ghost sessions: Sessions, ghost id: int)
      requires id in sessions && sessions[id] == ValEntry(v, []) && Consistent(sessions, mTasks)
      modifies `mTasks
      ensures mTasks == With(old(mTasks), v, taskIds)
      ensures Consistent(sessions[id := ValEntry(v, taskIds)], mTasks)
    {
      ghost var linked := sessions;
      for i := 0 to |taskIds|
        invariant linked == sessions[id := ValEntry(v, taskIds[..i])]
        invariant mTasks == With(old(mTasks), v, taskIds[..i])
        invariant Consistent(linked, mTasks)
      {
        LinkKeeps(linked, mTasks, id, taskIds[i]);
        assert taskIds[..i + 1][..i] == taskIds[..i] && taskIds[..i] + [taskIds[i]] == taskIds[..i + 1];
        UpdateTwice(sessions, id, ValEntry(v, taskIds[..i]), ValEntry(v, taskIds[..i + 1]));
        linked := linked[id := ValEntry(v, taskIds[..i + 1])];
        mTasks := mTasks[taskIds[i] := ListOf(mTasks, taskIds[i]) + [v]];
      }
      assert taskIds[..|taskIds|] == taskIds;
    }

    method Add(sessionId: int, sv: SessionValue, taskIds: seq<int>) returns (added: bool)
      requires Valid()
      modifies this
      ensures Valid()
      ensures added == (sessionId !in old(mSessions))
      ensures !added ==> unchanged(this)
      ensures added ==>
                var v := old(nextRef);
                && v !in old(values) && Unlinked(old(mTasks), v)
                && mSessions == old(mSessions)[sessionId := ValEntry(v, taskIds)]
                && mTasks == With(old(mTasks), v, taskIds)
                && values == old(values)[v := sv.(sessionId := sessionId)]
    {
      if sessionId in mSessions {
        return false;
      }
      var v := nextRef;
      ghost var sessions0, tasks0, values0 := mSessions, mTasks, values;
      MapsAdding(sessions0, tasks0, values0, sessionId, v);
      UpdateTwice(sessions0, sessionId, ValEntry(v, []), ValEntry(v, taskIds));
      hide MapsValid, Consistent, Unlinked, With;
      nextRef := nextRef + 1;
      values := values[v := sv.(sessionId := sessionId)];
      mSessions := mSessions[sessionId := ValEntry(v, taskIds)];
      LinkTasks(v, taskIds, sessions0[sessionId := ValEntry(v, [])], sessionId);
      MapsAdded(sessions0, tasks0, mTasks, values0, sessionId, v, sv.(sessionId := sessionId), taskIds);
      return true;
    }

    /** The thread lists lose the session; a thread left without sessions leaves the map. */
    method Remove(sessionId: int) returns (removed: bool)
      requires Valid()
      modifies this
      ensures Valid() && nextRef == old(nextRef)
      ensures removed == (sessionId in old(mSessions))
      ensures !removed ==> unchanged(this)
      ensures removed ==>
                var v := old(mSessions[sessionId].val);
                && mSessions == old(mSessions) - {sessionId}
                && mTasks == Without(old(mTasks), v)
                && values == old(values) - {v}
    {
      if sessionId !in mSessions {
        return false;
      }
      var entry := mSessions[sessionId];
      ghost var sessions0, tasks0 := mSessions, mTasks;
      ghost var linked := mSessions;
      for i := 0 to |entry.linkedTasks|
        invariant linked == sessions0[sessionId := ValEntry(entry.val, entry.linkedTasks[i..])]
        invariant Consistent(linked, mTasks)
        invariant Without(mTasks, entry.val) == Without(tasks0, entry.val)
        modifies `mTasks
      {
        UnlinkKeeps(linked, mTasks, sessionId, 0);
        assert RemoveAt(entry.linkedTasks[i..], 0) == entry.linkedTasks[i + 1..];
        linked := linked[sessionId := ValEntry(entry.val, entry.linkedTasks[i + 1..])];
        var taskId := entry.linkedTasks[i];
        UnlinkKeepsOthers(mTasks, taskId, entry.val);
        if taskId !in mTasks {
          assert false;  // "Inconsistent state"
        } else if entry.val !in mTasks[taskId] {
          assert false;  // "Should not happen"
        } else {
          var rest := EraseFirst(mTasks[taskId], entry.val);
          mTasks := if rest == [] then mTasks - {taskId} else mTasks[taskId := rest];
        }
      }
      EmptySessionUnlinked(linked, mTasks, sessionId);
      WithoutUnlinked(mTasks, entry.val);
      assert linked - {sessionId} == mSessions - {sessionId};
      OwnedAfterRemove(mSessions, sessionId);
      mSessions := mSessions - {sessionId};
      values := values - {entry.val};
      return true;
    }

    /** The threads of a list that the thread map does not have. */
    method Missing(taskIds: seq<int>) returns (r: seq<int>)
      ensures forall t :: t in r <==> t in taskIds && t !in mTasks
    {
      r := [];
      for i := 0 to |taskIds|
        invariant forall t :: t in r <==> t in taskIds[..i] && t !in mTasks
      {
        if taskIds[i] !in mTasks {
          r := r + [taskIds[i]];
        }
      }
    }

    /** Gives the session a new thread list. `added` and `removed` report the threads that enter
        and leave the thread map. */
    method Replace(sessionId: int, taskIds: seq<int>) returns (replaced: bool, added: seq<int>, removed: seq<int>)
      requires Valid()
      modifies this
      ensures Valid()
      ensures replaced == (sessionId in old(mSessions))
      ensures !replaced ==> unchanged(this) && added == [] && removed == []
      ensures replaced ==>
                var e, v := old(mSessions[sessionId]), old(nextRef);
                && v !in old(values)
                && mSessions == old(mSessions)[sessionId := ValEntry(v, taskIds)]
                && values == (old(values) - {e.val})[v := old(values)[e.val]]
                && mTasks == With(Without(old(mTasks), e.val), v, taskIds)
                && Without(mTasks, v) == Without(old(mTasks), e.val)
      ensures forall t :: t in added <==> t in mTasks && t !in old(mTasks)
      ensures forall t :: t in removed <==> t in old(mTasks) && t !in mTasks
    {
      if sessionId !in mSessions {
        return false, [], [];
      }
      var entry := mSessions[sessionId];
      var svTmp := values[entry.val];
      ghost var sessions0, tasks0, v := mSessions, mTasks, nextRef;
      DomainChange(sessions0, tasks0, sessionId, v, taskIds);
      hide MapsValid;
      added := Missing(taskIds);
      var _ := Remove(sessionId);
      var _ := Add(sessionId, svTmp, taskIds);
      assert (sessions0 - {sessionId})[sessionId := ValEntry(v, taskIds)] ==
             sessions0[sessionId := ValEntry(v, taskIds)];
      WithoutOfWith(tasks0, entry.val, v, taskIds);
      removed := Missing(entry.linkedTasks);
      return true, added, removed;
    }

    /** Drops one link of a dead thread; the caller erases the thread from the session's list. */
    method RemoveDeadTaskSessionMap(sessionId: int, taskId: int) returns (removed: bool)
      modifies `mTasks
      ensures removed <==> sessionId in mSessions && mSessions[sessionId].val in ListOf(old(mTasks), taskId)
      ensures mTasks == if removed then UnlinkOne(old(mTasks), taskId, mSessions[sessionId].val) else old(mTasks)
    {
      if sessionId !in mSessions || taskId !in mTasks {
        return false;
      }
      var val := mSessions[sessionId].val;
      if val !in mTasks[taskId] {
        return false;
      }
      var rest := EraseFirst(mTasks[taskId], val);
      mTasks := if rest == [] then mTasks - {taskId} else mTasks[taskId := rest];
      return true;
    }

    /** Combines the votes of all sessions that list the thread. */
    method GetTaskVoteRange(taskId: int, t: int, range: UclampRange, cap: Option<EfficiencyCap>)
      returns (r: UclampRange)
      requires forall i :: 0 <= i < |ListOf(mTasks, taskId)| ==> ListOf(mTasks, taskId)[i] in values
      ensures r == if taskId in mTasks then RangeAfter(range, Views(ListOf(mTasks, taskId), values), t, cap)
                   else DEFAULT_RANGE
    {
      if taskId !in mTasks {
        return DEFAULT_RANGE;
      }
      var list := ListOf(mTasks, taskId);
      r := range;
      for i := 0 to |list|
        invariant r == RangeAfter(range, Views(list[..i], values), t, cap)
      {
        r := values[list[i]].NarrowRange(r, t, cap);
        ViewsSnoc(list, values, i);
        RangeAfterSnoc(range, Views(list[..i], values), values[list[i]].View(), t, cap);
      }
      assert list[..|list|] == list;
    }

    /** The largest capacity any session asks for, active or not, and zero if none asks for more. */
    method GetSessionsGpuCapacity(t: int) returns (r: int)
      requires Valid()
      ensures IsHighest(r, 0, GpuRequests(mSessions, values, t))
    {
      r := 0;
      var todo := mSessions.Keys;
      while todo != {}
        invariant todo <= mSessions.Keys
        invariant 0 <= r && (r == 0 || r in GpuRequests(mSessions, values, t))
        invariant forall id :: id in mSessions && id !in todo ==> values[mSessions[id].val].votes.GpuRequest(t) <= r
        decreases |todo|
      {
        var id := AnyOf(todo);
        var request := values[mSessions[id].val].votes.GetGpuCapacityRequest(t);
        assert values[mSessions[id].val].votes.GpuRequest(t) in GpuRequests(mSessions, values, t);
        r := Max(r, if request.Some? then request.value else 0);
        todo := todo - {id};
      }
    }

    method IsAnyAppSessionActive(t: int) returns (any: bool)
      requires Valid()
      ensures any <==> exists id :: id in mSessions && AppSessionActive(values[mSessions[id].val], t)
    {
      var todo := mSessions.Keys;
      while todo != {}
        invariant todo <= mSessions.Keys
        invariant forall id :: id in mSessions && id !in todo ==> !AppSessionActive(values[mSessions[id].val], t)
        decreases |todo|
      {
        var id := AnyOf(todo);
        var val := values[mSessions[id].val];
        if val.isAppSession && val.isActive {
          var timedOut := val.votes.AllTimedOut(t);
          if !timedOut {
            return true;
          }
        }
        todo := todo - {id};
      }
      return false;
    }
  }

  ghost predicate AppSessionActive(s: SessionValue, t: int) {
    s.isAppSession && s.isActive && s.votes.AnyLive(t)
  }

  /** What each session asks of the GPU. */
  ghost function GpuRequests(sessions: Sessions, values: Values, t: int): set<int>
    requires forall id :: id in sessions ==> sessions[id].val in values
  {
    set id | id in sessions :: values[sessions[id].val].votes.GpuRequest(t)
  }

  lemma WithoutOfWith(tasks: Tasks, old': Ref, v: Ref, ids: seq<int>)
    requires Unlinked(Without(tasks, old'), v)
    ensures Without(With(Without(tasks, old'), v, ids), v) == Without(tasks, old')
  {
    AddThenRemove(Without(tasks, old'), v, ids);
  }

  lemma MapsAdding(sessions: Sessions, tasks: Tasks, values: Values, id: int, v: Ref)
    requires MapsValid(sessions, tasks, values) && id !in sessions && v !in values
    ensures Consistent(sessions[id := ValEntry(v, [])], tasks) && Unlinked(tasks, v)
  {
    NewSessionKeeps(sessions, tasks, id, v);
  }

  lemma MapsAdded(sessions: Sessions, tasks: Tasks, tasks': Tasks, values: Values, id: int, v: Ref, sv: SessionValue,
                  ids: seq<int>)
    requires MapsValid(sessions, tasks, values) && id !in sessions && v !in values && sv.sessionId == id
    requires Consistent(sessions[id := ValEntry(v, ids)], tasks')
    ensures MapsValid(sessions[id := ValEntry(v, ids)], tasks', values[v := sv])
  {
    var sessions': Sessions, values': Values := sessions[id := ValEntry(v, ids)], values[v := sv];
    forall j | j in sessions' ensures sessions'[j].val in values' && values'[sessions'[j].val].sessionId == j {
      assert j != id ==> sessions[j].val in values && values[sessions[j].val].sessionId == j;
    }
    forall w | w in values' ensures Owned(sessions', w) {
      if w == v {
        assert sessions'[id].val == w;
      } else {
        assert Owned(sessions, w);
        var j :| j in sessions && sessions[j].val == w;
        assert sessions'[j].val == w;
      }
    }
  }

  lemma OwnedAfterRemove(sessions: Sessions, id: int)
    requires id in sessions
    ensures forall v :: Owned(sessions, v) && v != sessions[id].val ==> Owned(sessions - {id}, v)
  {
    forall v | Owned(sessions, v) && v != sessions[id].val ensures Owned(sessions - {id}, v) {
      var j :| j in sessions && sessions[j].val == v;
      assert (sessions - {id})[j].val == v;
    }
  }

  /** How replacing a session's threads changes the set of mapped threads. */
  lemma DomainChange(sessions: Sessions, tasks: Tasks, id: int, v: Ref, ids: seq<int>)
    requires Consistent(sessions, tasks) && id in sessions
    ensures var tasks' := With(Without(tasks, sessions[id].val), v, ids);
            forall t :: (t in tasks' && t !in tasks ==> t in ids) && (t in ids ==> t in tasks') &&
                        (t in tasks && t !in tasks' ==> t in sessions[id].linkedTasks) &&
                        (t in sessions[id].linkedTasks ==> t in tasks)
  {
    var tasks' := With(Without(tasks, sessions[id].val), v, ids);
    forall t
      ensures (t in tasks' && t !in tasks ==> t in ids) && (t in ids ==> t in tasks')
      ensures t in tasks && t !in tasks' ==> t in sessions[id].linkedTasks
      ensures t in sessions[id].linkedTasks ==> t in tasks
    {
      WithKeys(Without(tasks, sessions[id].val), v, ids, t);
      if t in tasks && t !in tasks' { DroppedWasLinked(sessions, tasks, id, t); }
      if t in sessions[id].linkedTasks {
        var k :| 0 <= k < |sessions[id].linkedTasks| && sessions[id].linkedTasks[k] == t;
        LinkedThere(sessions, tasks, id, k);
      }
    }
  }
}
