/** The sessions of the manager as plain values: what each operation does to them, to the timeout
    events and to the threads' clamps. */
module SessionModel {
  import opened Arith
  import opened UclampVoter
  import opened TaskVoteRange
  import opened TaskIndex
  import opened SessionTaskMap
  import opened ThreadSweep
  import OtherSessions
  import Protocol = TimeoutProtocol

  /** The package of the timeout worker. */
  datatype SessionTimeout = SessionTimeout(sessionId: int, voteId: int)

  /** A session as its clients know it: its value and its threads, without references. */
  datatype Session = Session(value: SessionValue, tasks: seq<int>)

  type Model = map<int, Session>

  ghost function ModelOf(sessions: Sessions, values: Values): Model
    requires forall id :: id in sessions ==> sessions[id].val in values
  {
    map id | id in sessions :: Session(values[sessions[id].val], sessions[id].linkedTasks)
  }

  function WithValue(m: Model, id: int, v: SessionValue): Model {
    if id in m then m[id := m[id].(value := v)] else m
  }

  function WithTasks(m: Model, id: int, tasks: seq<int>): Model {
    if id in m then m[id := m[id].(tasks := tasks)] else m
  }

  /** The dead threads of one session are gone. */
  function SweepModel(m: Model, id: int, dead: set<int>, on: bool): Model {
    if on && id in m then WithTasks(m, id, Alive(m[id].tasks, dead)) else m
  }

  function WithVotes(m: Model, id: int, votes: VoteTable): Model {
    if id in m then WithValue(m, id, m[id].value.(votes := votes)) else m
  }

  function WithActive(m: Model, id: int, active: bool): Model {
    if id in m then WithValue(m, id, m[id].value.(isActive := active)) else m
  }

  function TablesOf(m: Model): map<int, VoteTable> {
    map id | id in m :: m[id].value.votes
  }

  lemma ModelWithValue(sessions: Sessions, tasks: Tasks, values: Values, id: int, v: SessionValue)
    requires MapsValid(sessions, tasks, values) && id in sessions && v.sessionId == id
    ensures MapsValid(sessions, tasks, values[sessions[id].val := v])
    ensures ModelOf(sessions, values[sessions[id].val := v]) == WithValue(ModelOf(sessions, values), id, v)
  {
    assert forall j :: j in sessions && j != id ==> sessions[j].val != sessions[id].val;
    SameMap(ModelOf(sessions, values[sessions[id].val := v]), WithValue(ModelOf(sessions, values), id, v));
  }

  lemma ModelSwept(sessions: Sessions, tasks: Tasks, tasks': Tasks, values: Values, id: int, dead: set<int>, on: bool)
    requires MapsValid(sessions, tasks, values)
    requires Consistent(SweptSessions(sessions, id, dead, on), tasks')
    ensures MapsValid(SweptSessions(sessions, id, dead, on), tasks', values)
    ensures ModelOf(SweptSessions(sessions, id, dead, on), values) ==
            SweepModel(ModelOf(sessions, values), id, dead, on)
  {
    var sessions' := SweptSessions(sessions, id, dead, on);
    forall v | v in values ensures Owned(sessions', v) {
      assert Owned(sessions, v);
      var j :| j in sessions && sessions[j].val == v;
      assert sessions'[j].val == v;
    }
  }

  lemma SweepBegins(sessions: Sessions, tasks: Tasks, values: Values, id: int, dead: set<int>)
    requires MapsValid(sessions, tasks, values) && id in sessions
    ensures SweepReady(tasks, sessions[id], dead, values)
  {
    AllSeen(sessions, tasks, values);
    ConsistentSweepReady(sessions, tasks, id, dead, values);
  }

  /** What the sweep of a session leaves behind. */
  lemma SweepEnds(sessions: Sessions, tasks: Tasks, values: Values, clamps: map<int, UclampRange>, id: int,
                  dead: set<int>, t: int, cap: Option<EfficiencyCap>)
    requires MapsValid(sessions, tasks, values) && id in sessions
    ensures var e := sessions[id];
            var p := ProgressAt(tasks, clamps, e, |e.linkedTasks|, dead, values, t, cap);
            var sessions' := sessions[id := ValEntry(e.val, p.linked)];
            && MapsValid(sessions', p.tasks, values)
            && ModelOf(sessions', values) == SweepModel(ModelOf(sessions, values), id, dead, true)
            && (forall x :: x !in dead ==> (x in p.tasks <==> x in tasks))
            && ClampsWanted(p.clamps, p.linked, p.tasks, values, t, cap)
            && SameElsewhere(p.clamps, clamps, e.linkedTasks)
            && OtherSessions.OthersOf(sessions', p.tasks, values, id) ==
               OtherSessions.OthersOf(sessions, tasks, values, id)
  {
    var e := sessions[id];
    var n := |e.linkedTasks|;
    OtherSessions.Sweep(sessions, tasks, values, id, dead, Alive(e.linkedTasks, dead));
    RemainingEnds(sessions, id, dead);
    SweepResult(sessions, tasks, id, dead);
    ModelSwept(sessions, tasks, Swept(tasks, e, n, dead), values, id, dead, true);
    forall x {
      SweptClamps(clamps, tasks, e, dead, values, t, cap, x);
    }
  }

  lemma ModelReplaced(sessions: Sessions, tasks: Tasks, values: Values, id: int, v: Ref, ids: seq<int>)
    requires MapsValid(sessions, tasks, values) && id in sessions && v !in values
    ensures var old' := sessions[id].val;
            var values' := (values - {old'})[v := values[old']];
            var sessions' := sessions[id := ValEntry(v, ids)];
            && (forall j :: j in sessions' ==> sessions'[j].val in values')
            && ModelOf(sessions', values') == WithTasks(ModelOf(sessions, values), id, ids)
  {
    var old' := sessions[id].val;
    var values' := (values - {old'})[v := values[old']];
    var sessions' := sessions[id := ValEntry(v, ids)];
    assert forall j :: j in sessions && j != id ==> sessions[j].val != old' && sessions[j].val in values';
    SameMap(ModelOf(sessions', values'), WithTasks(ModelOf(sessions, values), id, ids));
  }

  lemma ModelRemoved(sessions: Sessions, tasks: Tasks, values: Values, id: int)
    requires MapsValid(sessions, tasks, values) && id in sessions
    ensures var sessions', values' := sessions - {id}, values - {sessions[id].val};
            && (forall j :: j in sessions' ==> sessions'[j].val in values')
            && ModelOf(sessions', values') == ModelOf(sessions, values) - {id}
  {
    var sessions', values' := sessions - {id}, values - {sessions[id].val};
    assert forall j :: j in sessions' ==> sessions[j].val in values';
    SameMap(ModelOf(sessions', values'), ModelOf(sessions, values) - {id});
  }

  /** Removing a session without threads leaves the thread map and the other sessions as they are. */
  lemma RemovedEmpty(sessions: Sessions, tasks: Tasks, values: Values, id: int)
    requires MapsValid(sessions, tasks, values) && id in sessions
    requires ThreadsOf(ModelOf(sessions, values), id) == []
    ensures var sessions', values', v := sessions - {id}, values - {sessions[id].val}, sessions[id].val;
            && Without(tasks, v) == tasks && (forall j :: j in sessions' ==> sessions'[j].val in values')
            && ModelOf(sessions', values') == ModelOf(sessions, values) - {id}
            && OtherSessions.OthersOf(sessions', tasks, values', id) ==
               OtherSessions.OthersOf(sessions, tasks, values, id)
  {
    assert Consistent(sessions, tasks) && sessions[id].linkedTasks == [] && NoEmptyList(tasks);
    hide MapsValid, Consistent, OtherSessions.OthersOf, Without;
    ModelRemoved(sessions, tasks, values, id);
    OtherSessions.Removed(sessions, tasks, values, id);
    EmptySessionUnlinked(sessions, tasks, id);
    WithoutUnlinked(tasks, sessions[id].val);
  }

  lemma ModelAdded(sessions: Sessions, tasks: Tasks, values: Values, id: int, v: Ref, sv: SessionValue, ids: seq<int>)
    requires MapsValid(sessions, tasks, values) && id !in sessions && v !in values
    ensures var sessions', values' := sessions[id := ValEntry(v, ids)], values[v := sv];
            && (forall j :: j in sessions' ==> sessions'[j].val in values')
            && ModelOf(sessions', values') == ModelOf(sessions, values)[id := Session(sv, ids)]
  {
    var sessions', values' := sessions[id := ValEntry(v, ids)], values[v := sv];
    SameMap(ModelOf(sessions', values'), ModelOf(sessions, values)[id := Session(sv, ids)]);
  }

  lemma TablesWithVotes(m: Model, id: int, votes: VoteTable)
    requires id in m
    ensures TablesOf(WithVotes(m, id, votes)) == TablesOf(m)[id := votes]
  {
  }

  lemma TablesSwept(m: Model, id: int, dead: set<int>, on: bool)
    ensures TablesOf(SweepModel(m, id, dead, on)) == TablesOf(m)
  {
  }

  ghost function ToEvents(pending: seq<(int, SessionTimeout)>): (r: seq<Protocol.Event>)
    ensures |r| == |pending|
    ensures forall i :: 0 <= i < |r| ==>
              r[i] == Protocol.Event(pending[i].1.sessionId, pending[i].1.voteId, pending[i].0)
  {
    seq(|pending|, i requires 0 <= i < |pending| =>
      Protocol.Event(pending[i].1.sessionId, pending[i].1.voteId, pending[i].0))
  }

  /** What the sessions ask of the GPU at time `t`. */
  function GpuDemands(m: Model, t: int): set<int> {
    set id | id in m :: m[id].value.votes.GpuRequest(t)
  }

  lemma DemandsSwept(m: Model, id: int, dead: set<int>, on: bool, t: int)
    ensures GpuDemands(SweepModel(m, id, dead, on), t) == GpuDemands(m, t)
  {
    var m' := SweepModel(m, id, dead, on);
    assert forall j :: j in m ==> m'[j].value == m[j].value;
  }

  lemma SameDemands(sessions: Sessions, values: Values, t: int)
    requires forall id :: id in sessions ==> sessions[id].val in values
    ensures GpuDemands(ModelOf(sessions, values), t) == GpuRequests(sessions, values, t)
  {
    var m := ModelOf(sessions, values);
    assert forall id :: id in sessions ==>
           m[id].value.votes.GpuRequest(t) == values[sessions[id].val].votes.GpuRequest(t);
  }

  /** The living threads of a list that are not in its successor. */
  function Dropped(ids: seq<int>, ids': seq<int>, dead: set<int>): seq<int> {
    Alive(Alive(ids, dead), set x | x in ids')
  }

  lemma DroppedMembers(ids: seq<int>, ids': seq<int>, dead: set<int>)
    ensures forall x :: x in Dropped(ids, ids', dead) <==> x in Alive(ids, dead) && x !in ids'
    ensures Dropped(ids, [], dead) == Alive(ids, dead)
  {
    var alive := Alive(ids, dead);
    assert alive[..|alive|] == alive;
    forall x ensures x in Dropped(ids, ids', dead) <==> x in alive && x !in ids' {
      AliveMember(alive, |alive|, (set y | y in ids'), x);
    }
    var none: seq<int> := [];
    assert (set x | x in none) == {};
    AliveNone(alive, |alive|);
  }

  /** The threads that a session loses were its own when it was made inactive, and are not among the
      new ones. */
  lemma DroppedThreads(m: Model, id: int, ids: seq<int>, dead: set<int>)
    ensures var m1 := SweepModel(WithActive(m, id, false), id, dead, true);
            var m2 := WithTasks(m1, id, ids);
            && (forall x :: x in Dropped(ThreadsOf(m, id), ids, dead) ==>
                              x in ThreadsOf(m1, id) && x !in ThreadsOf(m2, id))
            && Dropped(ThreadsOf(m, id), [], dead) == ThreadsOf(m1, id)
  {
    DroppedMembers(ThreadsOf(m, id), ids, dead);
  }

  function ThreadsOf(m: Model, id: int): seq<int> {
    if id in m then m[id].tasks else []
  }

  function AfterAdd(m: Model, id: int, sv: SessionValue): Model {
    if id in m then m else m[id := Session(sv.(sessionId := id), [])]
  }

  function AfterSetThreads(m: Model, id: int, ids: seq<int>, dead: set<int>, on: bool): Model {
    if id in m then m[id := Session(m[id].value.(isActive := true), if on then Alive(ids, dead) else ids)] else m
  }

  lemma SetThreadsModel(m: Model, id: int, ids: seq<int>, dead: set<int>, dead': set<int>, on: bool)
    ensures SweepModel(WithActive(WithTasks(SweepModel(WithActive(m, id, false), id, dead, on), id, ids), id, true), id,
                       dead', on) ==
            AfterSetThreads(m, id, ids, dead', on)
  {
  }

  lemma EmptyTasks(m: Model, id: int)
    ensures ThreadsOf(WithTasks(m, id, []), id) == []
  {
  }

  lemma RemoveModel(m: Model, id: int, dead: set<int>, on: bool)
    ensures WithTasks(SweepModel(WithActive(m, id, false), id, dead, on), id, []) - {id} == m - {id}
  {
  }

  /** What a round of the worker does to votes and events is what the protocol's three steps do. */
  lemma RunNextRefines(s: Protocol.State, m: Model, k: nat, dead: set<int>, on: bool)
    requires s.tables == TablesOf(m) && Protocol.Enabled(s, Protocol.Pop(k))
    ensures var ops := [Protocol.Pop(k), Protocol.Sample, Protocol.Handle];
            var ev := Package(s.queue[k]);
            && Protocol.Legal(s, ops)
            && Protocol.Final(s, ops) == s.(tables := TablesOf(AfterEvent(m, ev, s.clock, dead, on)),
                                            queue := RemoveAt(s.queue, k) + EventsOfEvent(m, ev, s.clock))
  {
    var ev := s.queue[k];
    Protocol.WorkerRound(s, k);
    if ev.sessionId in m {
      var votes := m[ev.sessionId].value.votes.SetUse(ev.voteId, false);
      TablesWithVotes(m, ev.sessionId, votes);
      TablesSwept(WithVotes(m, ev.sessionId, votes), ev.sessionId, dead, on);
    }
  }

  function Package(ev: Protocol.Event): SessionTimeout {
    SessionTimeout(ev.sessionId, ev.voteId)
  }

  /** The event finds its vote active and run out. */
  predicate Expires(m: Model, ev: SessionTimeout, tNow: int) {
    ev.sessionId in m && m[ev.sessionId].value.votes.IsActive(ev.voteId) &&
    m[ev.sessionId].value.votes.TimeoutOf(ev.voteId) <= tNow
  }

  function AfterEvent(m: Model, ev: SessionTimeout, tNow: int, dead: set<int>, on: bool): Model {
    if Expires(m, ev, tNow)
    then SweepModel(WithVotes(m, ev.sessionId, m[ev.sessionId].value.votes.SetUse(ev.voteId, false)), ev.sessionId,
                    dead, on)
    else m
  }

  /** The event that handling an event puts back, if any. */
  function EventsOfEvent(m: Model, ev: SessionTimeout, tNow: int): seq<Protocol.Event> {
    Protocol.Requeued(TablesOf(m), Protocol.Event(ev.sessionId, ev.voteId, 0), tNow)
  }

  function AfterVote(m: Model, id: int, voteId: int, vote: Protocol.Vote): Model {
    if id in m then WithVotes(m, id, Protocol.AddVote(m[id].value.votes, voteId, vote)) else m
  }

  /** The timeout event that setting a vote needs, if any. */
  function EventsOfVote(m: Model, id: int, voteId: int, vote: Protocol.Vote): seq<Protocol.Event> {
    if id in m then Protocol.NewEvents(m[id].value.votes, id, voteId, Protocol.TimingOf(vote).Timeout()) else []
  }

  /** What a call of `VoteSet` does to votes and events is what the protocol's steps do: the vote is
      set in one step and the event it may need is queued in a later one. */
  lemma VoteSetRefines(s: Protocol.State, m: Model, id: int, voteId: int, vote: Protocol.Vote, dead: set<int>, on: bool)
    requires s.tables == TablesOf(m) && s.inflight == [] && Protocol.TimingOf(vote).active
    ensures Protocol.VoteSetCall(s, id, voteId, vote) ==
            s.(tables := TablesOf(SweepModel(AfterVote(m, id, voteId, vote), id, dead, on)),
               queue := s.queue + EventsOfVote(m, id, voteId, vote))
  {
    TablesSwept(AfterVote(m, id, voteId, vote), id, dead, on);
    if id in m {
      TablesWithVotes(m, id, Protocol.AddVote(m[id].value.votes, voteId, vote));
    }
    assert s.queue + [] == s.queue;
  }
}
