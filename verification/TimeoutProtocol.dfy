/** The vote and timeout protocol of PowerSessionManager as an interleaving of atomic steps.

    Client threads set votes under the session lock and hand the timeout event to the queue
    after the lock is released; the single background worker pops a due event, reads the clock,
    and only then takes the session lock to handle it. Every such point is a step of its own,
    so any other step may fall in between. */
module TimeoutProtocol {
  import opened Arith
  import opened UclampVoter

  datatype Event = Event(sessionId: int, voteId: int, deadline: int)

  datatype Vote = Cpu(cpu: CpuVote) | Gpu(gpu: GpuVote)

  /** What the background worker is doing. */
  datatype Worker = Idle | Popped(event: Event) | Sampled(event: Event, tNow: int)

  datatype State = State(
    clock: int,
    lastSessionId: int,
    tables: map<int, VoteTable>,  // vote tables of the live sessions
    queue: seq<Event>,            // events in the priority queue
    inflight: seq<Event>,         // events decided on under the lock but not yet queued
    worker: Worker)

  datatype Op =
    | Tick(time: int)
    | AddSession(start: int, targetNs: int)
    | RemoveSession(sessionId: int)
    | SetVote(sessionId: int, voteId: int, vote: Vote)
    | Enqueue(index: nat)
    | DisableBoosts(sessionId: int)
    | UpdateDuration(sessionId: int, voteId: int, durationNs: int)
    | Pop(index: nat)
    | Sample
    | Handle

  function TimingOf(vote: Vote): VoteRange {
    match vote
    case Cpu(v) => v.timing
    case Gpu(v) => v.timing
  }

  function AddVote(table: VoteTable, voteId: int, vote: Vote): VoteTable {
    match vote
    case Cpu(v) => table.AddCpu(voteId, v)
    case Gpu(v) => table.AddGpu(voteId, v)
  }

  /** The vote is of the kind its id belongs to; `Votes::add` ignores any other. */
  predicate KindMatches(voteId: int, vote: Vote) {
    IsGpuVote(voteId) <==> vote.Gpu?
  }

  predicate ShouldScheduleTimeout(table: VoteTable, voteId: int, deadline: int) {
    !table.IsActive(voteId) || deadline < table.TimeoutOf(voteId)
  }

  /** A new session starts with an inactive default vote. */
  function NewTable(start: int, targetNs: int): VoteTable {
    VoteTable(map[CPU_VOTE_DEFAULT := CpuVote(VoteRange(false, start, targetNs), DEFAULT_RANGE)], map[])
  }

  function Initial(clock: int): State {
    State(clock, 0, map[], [], [], Idle)
  }

  predicate IsEarliest(queue: seq<Event>, index: nat) {
    index < |queue| && forall j :: 0 <= j < |queue| ==> queue[index].deadline <= queue[j].deadline
  }

  predicate Enabled(s: State, op: Op) {
    match op
    case Tick(time) => s.clock <= time
    case SetVote(_, _, vote) => TimingOf(vote).active
    case Enqueue(index) => index < |s.inflight|
    case Pop(index) => s.worker.Idle? && IsEarliest(s.queue, index) && s.queue[index].deadline <= s.clock
    case Sample => s.worker.Popped?
    case Handle => s.worker.Sampled?
    case _ => true
  }

  /** The events that setting a vote hands to the queue: none or one. */
  function NewEvents(table: VoteTable, sessionId: int, voteId: int, deadline: int): seq<Event> {
    if ShouldScheduleTimeout(table, voteId, deadline) then [Event(sessionId, voteId, deadline)] else []
  }

  /** The vote tables after a timeout event has been handled at time `tNow`. */
  function TablesAfterEvent(tables: map<int, VoteTable>, ev: Event, tNow: int): map<int, VoteTable> {
    if ev.sessionId in tables && tables[ev.sessionId].IsActive(ev.voteId) &&
       tables[ev.sessionId].TimeoutOf(ev.voteId) <= tNow
    then tables[ev.sessionId := tables[ev.sessionId].SetUse(ev.voteId, false)]
    else tables
  }

  /** The events that handling a timeout event puts back: none, or itself with a later deadline. */
  function Requeued(tables: map<int, VoteTable>, ev: Event, tNow: int): seq<Event> {
    if ev.sessionId in tables && tables[ev.sessionId].IsActive(ev.voteId) &&
       tNow < tables[ev.sessionId].TimeoutOf(ev.voteId)
    then [ev.(deadline := tables[ev.sessionId].TimeoutOf(ev.voteId))]
    else []
  }

  function Next(s: State, op: Op): State
    requires Enabled(s, op)
  {
    match op
    case Tick(time) => s.(clock := time)
    case AddSession(start, targetNs) =>
      var id := s.lastSessionId + 1;
      s.(lastSessionId := id, tables := s.tables[id := NewTable(start, targetNs)])
    case RemoveSession(id) => s.(tables := s.tables - {id})
    case SetVote(id, voteId, vote) =>
      if id !in s.tables then s
      else s.(tables := s.tables[id := AddVote(s.tables[id], voteId, vote)],
              inflight := s.inflight + NewEvents(s.tables[id], id, voteId, TimingOf(vote).Timeout()))
    case Enqueue(index) =>
      s.(inflight := RemoveAt(s.inflight, index), queue := s.queue + [s.inflight[index]])
    case DisableBoosts(id) =>
      if id !in s.tables then s
      else s.(tables := s.tables[id := s.tables[id].DisableAll(BOOST_VOTES)])
    case UpdateDuration(id, voteId, durationNs) =>
      if id !in s.tables then s
      else s.(tables := s.tables[id := s.tables[id].WithDuration(voteId, durationNs)])
    case Pop(index) => s.(queue := RemoveAt(s.queue, index), worker := Popped(s.queue[index]))
    case Sample => s.(worker := Sampled(s.worker.event, s.clock))
    case Handle =>
      s.(tables := TablesAfterEvent(s.tables, s.worker.event, s.worker.tNow),
         queue := s.queue + Requeued(s.tables, s.worker.event, s.worker.tNow),
         worker := Idle)
  }

  /** A whole call of `voteSet` from a quiet state: the vote is set under the lock, and then the event
      it may need is queued. */
  function VoteSetCall(s: State, id: int, voteId: int, vote: Vote): State
    requires TimingOf(vote).active && s.inflight == []
  {
    var s' := Next(s, SetVote(id, voteId, vote));
    if s'.inflight == [] then s' else Next(s', Enqueue(0))
  }

  /** Every operation of `ops`, run in order from `s`, is enabled when its turn comes. */
  predicate Legal(s: State, ops: seq<Op>)
    decreases |ops|
  {
    ops == [] || (Enabled(s, ops[0]) && Legal(Next(s, ops[0]), ops[1..]))
  }

  function Final(s: State, ops: seq<Op>): State
    requires Legal(s, ops)
    decreases |ops|
  {
    if ops == [] then s else Final(Next(s, ops[0]), ops[1..])
  }

  lemma NoSteps(s: State)
    ensures Legal(s, []) && Final(s, []) == s
  {
  }

  lemma LegalStep(s: State, op: Op, ops: seq<Op>)
    requires Enabled(s, op) && Legal(Next(s, op), ops)
    ensures Legal(s, [op] + ops) && Final(s, [op] + ops) == Final(Next(s, op), ops)
  {
    assert ([op] + ops)[1..] == ops;
  }

  lemma {:induction false} LegalConcat(s: State, a: seq<Op>, b: seq<Op>)
    requires Legal(s, a) && Legal(Final(s, a), b)
    ensures Legal(s, a + b) && Final(s, a + b) == Final(Final(s, a), b)
    decreases |a|
  {
    if a == [] {
      assert a + b == b;
    } else {
      LegalConcat(Next(s, a[0]), a[1..], b);
      LegalStep(s, a[0], a[1..] + b);
      assert [a[0]] + (a[1..] + b) == a + b;
    }
  }

  /** One round of the worker, from popping event `k` to having handled it, at an unmoved clock. */
  lemma WorkerRound(s: State, k: nat)
    requires Enabled(s, Pop(k))
    ensures Legal(s, [Pop(k), Sample, Handle])
    ensures Final(s, [Pop(k), Sample, Handle]) ==
            s.(tables := TablesAfterEvent(s.tables, s.queue[k], s.clock),
               queue := RemoveAt(s.queue, k) + Requeued(s.tables, s.queue[k], s.clock))
  {
    var s1 := Next(s, Pop(k));
    var s2 := Next(s1, Sample);
    LegalStep(s2, Handle, []);
    LegalStep(s1, Sample, [Handle]);
    LegalStep(s, Pop(k), [Sample, Handle]);
    assert [Sample] + [Handle] == [Sample, Handle] && [Pop(k)] + [Sample, Handle] == [Pop(k), Sample, Handle];
  }

  predicate ActiveAt(s: State, sid: int, vid: int) {
    sid in s.tables && s.tables[sid].IsActive(vid)
  }

  function TimeoutAt(s: State, sid: int, vid: int): int {
    if sid in s.tables then s.tables[sid].TimeoutOf(vid) else 0
  }

  /** What handling an event does: the vote is off afterwards exactly if it was off or had run out when
      the worker read the clock, and an event whose vote is still on waits for that vote's own timeout.
      No other vote changes, and nothing else enters the queue. */
  lemma HandledEvent(s: State)
    requires s.worker.Sampled?
    ensures var s' := Next(s, Handle);
            var sid, vid := s.worker.event.sessionId, s.worker.event.voteId;
            && (ActiveAt(s', sid, vid) <==> ActiveAt(s, sid, vid) && s.worker.tNow < TimeoutAt(s, sid, vid))
            && (ActiveAt(s', sid, vid) ==> s'.queue == s.queue + [Event(sid, vid, TimeoutAt(s', sid, vid))])
            && (!ActiveAt(s', sid, vid) ==> s'.queue == s.queue)
            && s'.inflight == s.inflight && s'.worker.Idle?
            && forall i, v :: TimeoutAt(s', i, v) == TimeoutAt(s, i, v) &&
                              ((i, v) != (sid, vid) ==> (ActiveAt(s', i, v) <==> ActiveAt(s, i, v)))
  {
    var back := Requeued(s.tables, s.worker.event, s.worker.tNow);
    if back == [] {
      assert s.queue + back == s.queue;
    }
  }

  // ---------------------------------------------------------------------------------------------
  // Every active vote has a timeout event on its way
  // ---------------------------------------------------------------------------------------------

  predicate Covers(ev: Event, sid: int, vid: int, bound: int) {
    ev.sessionId == sid && ev.voteId == vid && ev.deadline <= bound
  }

  /** A timeout event for the vote, due by `bound`, is queued, about to be queued, or in the
      worker's hands. */
  ghost predicate HasEvent(s: State, sid: int, vid: int, bound: int) {
    || (exists ev :: ev in s.queue && Covers(ev, sid, vid, bound))
    || (exists ev :: ev in s.inflight && Covers(ev, sid, vid, bound))
    || (!s.worker.Idle? && Covers(s.worker.event, sid, vid, bound))
  }

  ghost predicate Covered(s: State, sid: int, vid: int, bound: int) {
    ActiveAt(s, sid, vid) ==> TimeoutAt(s, sid, vid) <= bound && HasEvent(s, sid, vid, bound)
  }

  /** An active vote has an event due no later than the vote's own timeout. */
  ghost predicate Timely(s: State, sid: int, vid: int) {
    ActiveAt(s, sid, vid) ==> HasEvent(s, sid, vid, TimeoutAt(s, sid, vid))
  }

  /** The latest time by which a timeout event of the vote must come due, given that it was `b`
      before the step. It is the vote's own timeout, except that shortening an active vote leaves
      it where it was. */
  function Promise(s: State, op: Op, sid: int, vid: int, b: int): int {
    match op
    case SetVote(id, voteId, vote) =>
      var deadline := TimingOf(vote).Timeout();
      if id != sid || voteId != vid || sid !in s.tables || !KindMatches(voteId, vote) then b
      else if ShouldScheduleTimeout(s.tables[sid], vid, deadline) then deadline
      else Max(b, deadline)
    case UpdateDuration(id, voteId, durationNs) =>
      if id != sid || voteId != vid || !ActiveAt(s, sid, vid) then b
      else Max(b, s.tables[sid].Timing(vid).value.startTime + durationNs)
    case _ => b
  }

  function PromiseAfter(s: State, ops: seq<Op>, sid: int, vid: int, b: int): int
    requires Legal(s, ops)
    decreases |ops|
  {
    if ops == [] then b
    else PromiseAfter(Next(s, ops[0]), ops[1..], sid, vid, Promise(s, ops[0], sid, vid, b))
  }

  /** The step shortens the active vote without scheduling anything. */
  predicate Shortens(s: State, op: Op, sid: int, vid: int) {
    op.UpdateDuration? && op.sessionId == sid && op.voteId == vid && ActiveAt(s, sid, vid) &&
    op.durationNs < s.tables[sid].Timing(vid).value.durationNs
  }

  predicate NeverShortened(s: State, ops: seq<Op>, sid: int, vid: int)
    requires Legal(s, ops)
    decreases |ops|
  {
    ops == [] ||
    (!Shortens(s, ops[0], sid, vid) && NeverShortened(Next(s, ops[0]), ops[1..], sid, vid))
  }

  /** Session ids are never reused. */
  predicate IdsBounded(s: State) {
    forall id :: id in s.tables ==> id <= s.lastSessionId
  }

  lemma RemovedOnlyAt(events: seq<Event>, k: nat, ev: Event)
    requires k < |events| && ev in events
    ensures ev == events[k] || ev in RemoveAt(events, k)
  {
    var i :| 0 <= i < |events| && events[i] == ev;
    if i < k { assert RemoveAt(events, k)[i] == ev; }
    if i > k { assert RemoveAt(events, k)[i - 1] == ev; }
  }

  /** Moving events between the queue, the clients and the worker loses none of them. */
  lemma EventKept(s: State, op: Op, sid: int, vid: int, b: int)
    requires Enabled(s, op) && !op.Handle?
    requires HasEvent(s, sid, vid, b)
    ensures HasEvent(Next(s, op), sid, vid, b)
  {
    var s' := Next(s, op);
    match op
    case Enqueue(index) =>
      if ev :| ev in s.inflight && Covers(ev, sid, vid, b) {
        RemovedOnlyAt(s.inflight, index, ev);
        assert s.inflight[index] in s'.queue;
      } else if ev :| ev in s.queue && Covers(ev, sid, vid, b) {
        assert ev in s'.queue;
      }
    case Pop(index) =>
      if ev :| ev in s.queue && Covers(ev, sid, vid, b) {
        RemovedOnlyAt(s.queue, index, ev);
      }
    case SetVote(_, _, _) =>
      if ev :| ev in s.inflight && Covers(ev, sid, vid, b) {
        assert ev in s'.inflight;
      }
    case _ =>
  }

  lemma WiderBound(s: State, sid: int, vid: int, b: int, b': int)
    requires b <= b' && HasEvent(s, sid, vid, b)
    ensures HasEvent(s, sid, vid, b')
  {
    if ev :| ev in s.queue && Covers(ev, sid, vid, b) {
      assert Covers(ev, sid, vid, b');
    } else if ev :| ev in s.inflight && Covers(ev, sid, vid, b) {
      assert Covers(ev, sid, vid, b');
    }
  }

  lemma CoveredAfterSetVote(s: State, op: Op, sid: int, vid: int, b: int)
    requires Enabled(s, op) && op.SetVote? && op.sessionId == sid && op.voteId == vid && sid in s.tables
    requires KindMatches(vid, op.vote)
    requires Covered(s, sid, vid, b)
    ensures Covered(Next(s, op), sid, vid, Promise(s, op, sid, vid, b))
  {
    var s' := Next(s, op);
    var deadline := TimingOf(op.vote).Timeout();
    var b' := Promise(s, op, sid, vid, b);
    assert s'.tables[sid].Timing(vid) == Some(TimingOf(op.vote));
    if ShouldScheduleTimeout(s.tables[sid], vid, deadline) {
      var ev := Event(sid, vid, deadline);
      assert s'.inflight[|s.inflight|] == ev && ev in s'.inflight && Covers(ev, sid, vid, b');
    } else {
      EventKept(s, op, sid, vid, b);
      WiderBound(s', sid, vid, b, b');
    }
  }

  lemma CoveredAfterHandle(s: State, sid: int, vid: int, b: int)
    requires s.worker.Sampled?
    requires Covered(s, sid, vid, b)
    ensures Covered(Next(s, Handle), sid, vid, b)
  {
    var s' := Next(s, Handle);
    var ev := s.worker.event;
    if ActiveAt(s', sid, vid) {
      assert ActiveAt(s, sid, vid) && TimeoutAt(s', sid, vid) == TimeoutAt(s, sid, vid);
      if ev.sessionId == sid && ev.voteId == vid {
        var back := ev.(deadline := TimeoutAt(s, sid, vid));
        assert s'.queue[|s.queue|] == back;
        assert back in s'.queue && Covers(back, sid, vid, b);
      } else if e :| e in s.queue && Covers(e, sid, vid, b) {
        assert e in s'.queue;
      }
    }
  }

  lemma CoveredAfterUpdate(s: State, op: Op, sid: int, vid: int, b: int)
    requires Enabled(s, op) && op.UpdateDuration? && op.sessionId == sid && op.voteId == vid
    requires Covered(s, sid, vid, b)
    ensures Covered(Next(s, op), sid, vid, Promise(s, op, sid, vid, b))
  {
    if ActiveAt(s, sid, vid) {
      EventKept(s, op, sid, vid, b);
      WiderBound(Next(s, op), sid, vid, b, Promise(s, op, sid, vid, b));
    }
  }

  /** One step of any thread keeps the link between an active vote and a pending event. */
  lemma CoveredStep(s: State, op: Op, sid: int, vid: int, b: int)
    requires Enabled(s, op)
    requires Covered(s, sid, vid, b)
    ensures Covered(Next(s, op), sid, vid, Promise(s, op, sid, vid, b))
  {
    var s' := Next(s, op);
    if op.Handle? {
      CoveredAfterHandle(s, sid, vid, b);
    } else if op.SetVote? && op.sessionId == sid && op.voteId == vid && sid in s.tables && KindMatches(vid, op.vote) {
      CoveredAfterSetVote(s, op, sid, vid, b);
    } else if op.UpdateDuration? && op.sessionId == sid && op.voteId == vid {
      CoveredAfterUpdate(s, op, sid, vid, b);
    } else if ActiveAt(s', sid, vid) {
      UnrelatedStep(s, op, sid, vid);
      EventKept(s, op, sid, vid, b);
    }
  }

  /** A step that neither sets, updates nor handles the vote can only switch it off. */
  lemma UnrelatedStep(s: State, op: Op, sid: int, vid: int)
    requires Enabled(s, op) && !op.Handle?
    requires op.SetVote? && op.sessionId == sid && op.voteId == vid && sid in s.tables ==> !KindMatches(vid, op.vote)
    requires !(op.UpdateDuration? && op.sessionId == sid && op.voteId == vid)
    requires ActiveAt(Next(s, op), sid, vid)
    ensures ActiveAt(s, sid, vid) && s.tables[sid].Timing(vid) == Next(s, op).tables[sid].Timing(vid)
  {
  }

  lemma {:induction false} CoveredRun(s: State, ops: seq<Op>, sid: int, vid: int, b: int)
    requires Legal(s, ops) && Covered(s, sid, vid, b)
    ensures Covered(Final(s, ops), sid, vid, PromiseAfter(s, ops, sid, vid, b))
    decreases |ops|
  {
    if ops != [] {
      CoveredStep(s, ops[0], sid, vid, b);
      CoveredRun(Next(s, ops[0]), ops[1..], sid, vid, Promise(s, ops[0], sid, vid, b));
    }
  }

  /** In every run, under every interleaving, an active vote of a live session has a timeout event
      on its way. The event comes due by the promised bound, which is never before the vote's
      timeout. */
  lemma EveryActiveVoteHasEvent(clock: int, ops: seq<Op>, sid: int, vid: int)
    requires Legal(Initial(clock), ops)
    ensures var s := Final(Initial(clock), ops);
            var bound := PromiseAfter(Initial(clock), ops, sid, vid, 0);
            ActiveAt(s, sid, vid) ==> TimeoutAt(s, sid, vid) <= bound && HasEvent(s, sid, vid, bound)
  {
    CoveredRun(Initial(clock), ops, sid, vid, 0);
  }

  lemma {:induction false} PromiseIsTimeout(s: State, ops: seq<Op>, sid: int, vid: int, b: int)
    requires Legal(s, ops) && NeverShortened(s, ops, sid, vid)
    requires ActiveAt(s, sid, vid) ==> b == TimeoutAt(s, sid, vid)
    ensures ActiveAt(Final(s, ops), sid, vid) ==>
              PromiseAfter(s, ops, sid, vid, b) == TimeoutAt(Final(s, ops), sid, vid)
    decreases |ops|
  {
    if ops != [] {
      PromiseIsTimeoutStep(s, ops[0], sid, vid, b);
      PromiseIsTimeout(Next(s, ops[0]), ops[1..], sid, vid, Promise(s, ops[0], sid, vid, b));
    }
  }

  lemma PromiseIsTimeoutStep(s: State, op: Op, sid: int, vid: int, b: int)
    requires Enabled(s, op) && !Shortens(s, op, sid, vid)
    requires ActiveAt(s, sid, vid) ==> b == TimeoutAt(s, sid, vid)
    ensures ActiveAt(Next(s, op), sid, vid) ==>
              Promise(s, op, sid, vid, b) == TimeoutAt(Next(s, op), sid, vid)
  {
    if op.SetVote? && op.sessionId == sid && op.voteId == vid && sid in s.tables && KindMatches(vid, op.vote) {
      assert Next(s, op).tables[sid].Timing(vid) == Some(TimingOf(op.vote));
    } else if ActiveAt(Next(s, op), sid, vid) && !op.Handle? && !op.UpdateDuration? {
      UnrelatedStep(s, op, sid, vid);
    }
  }

  /** Which new durations keep an active vote timely: exactly those that leave its timeout at or
      after some event it already has. */
  lemma UpdateKeepsTimelyIff(s: State, sid: int, vid: int, durationNs: int)
    requires ActiveAt(s, sid, vid)
    ensures var s' := Next(s, UpdateDuration(sid, vid, durationNs));
            Timely(s', sid, vid) <==>
            HasEvent(s, sid, vid, s.tables[sid].Timing(vid).value.startTime + durationNs)
  {
  }

  /** When the vote's events all wait for its present timeout, as they do once it has been set
      afresh, the update keeps it timely exactly when it does not shorten it. */
  lemma UpdateOfFreshVoteTimelyIff(s: State, sid: int, vid: int, durationNs: int)
    requires ActiveAt(s, sid, vid) && Timely(s, sid, vid)
    requires forall b :: HasEvent(s, sid, vid, b) ==> TimeoutAt(s, sid, vid) <= b
    ensures Timely(Next(s, UpdateDuration(sid, vid, durationNs)), sid, vid) <==>
            s.tables[sid].Timing(vid).value.durationNs <= durationNs
  {
    UpdateKeepsTimelyIff(s, sid, vid, durationNs);
    var newTimeout := s.tables[sid].Timing(vid).value.startTime + durationNs;
    if TimeoutAt(s, sid, vid) <= newTimeout {
      WiderBound(s, sid, vid, TimeoutAt(s, sid, vid), newTimeout);
    }
  }

  /** No event is due, none is on its way to the queue, and the worker is waiting. */
  predicate Drained(s: State) {
    s.worker.Idle? && s.inflight == [] &&
    forall ev :: ev in s.queue ==> s.clock < ev.deadline
  }

  /** Shortening is not harmless: there is a run after which an active vote of a live session is
      past its timeout although the queue is drained. */
  lemma ShortenedVoteOutlivesItsTimeout()
    ensures exists ops: seq<Op> ::
              && Legal(Initial(0), ops)
              && var s := Final(Initial(0), ops);
                 Drained(s) && ActiveAt(s, 1, CPU_VOTE_DEFAULT) && TimeoutAt(s, 1, CPU_VOTE_DEFAULT) < s.clock
  {
    hide Legal, Final, Initial, Drained, Next, Enabled;
    var vote := Cpu(CpuVote(VoteRange(true, 0, 100), DEFAULT_RANGE));
    var o0, o1, o2 := AddSession(0, 100), SetVote(1, CPU_VOTE_DEFAULT, vote), Enqueue(0);
    var o3, o4 := UpdateDuration(1, CPU_VOTE_DEFAULT, 10), Tick(50);
    var s1, s2, s3 := VoteQueued(vote, o0, o1, o2);
    Shortened(s3, 1, CPU_VOTE_DEFAULT, 10, 50);
    hide *;
    FiveSteps(Initial(0), s1, s2, s3, Next(s3, o3), Next(Next(s3, o3), o4), o0, o1, o2, o3, o4);
    assert Legal(Initial(0), [o0, o1, o2, o3, o4]);
  }

  /** A new session casts its default vote, and the event of it is queued. */
  lemma VoteQueued(vote: Vote, o0: Op, o1: Op, o2: Op) returns (s1: State, s2: State, s3: State)
    requires vote.Cpu? && TimingOf(vote) == VoteRange(true, 0, 100)
    requires o0 == AddSession(0, 100) && o1 == SetVote(1, CPU_VOTE_DEFAULT, vote) && o2 == Enqueue(0)
    ensures Enabled(Initial(0), o0) && s1 == Next(Initial(0), o0) && Enabled(s1, o1) && s2 == Next(s1, o1)
    ensures Enabled(s2, o2) && s3 == Next(s2, o2)
    ensures s3.clock == 0 && s3.worker.Idle? && s3.inflight == [] && s3.queue == [Event(1, CPU_VOTE_DEFAULT, 100)]
    ensures 1 in s3.tables && s3.tables[1].Timing(CPU_VOTE_DEFAULT) == Some(TimingOf(vote))
  {
    s1 := Next(Initial(0), o0);
    FirstVote(s1, 1, CPU_VOTE_DEFAULT, vote);
    s2 := Next(s1, o1);
    s3 := Next(s2, o2);
  }

  lemma FirstVote(s: State, sid: int, vid: int, vote: Vote)
    requires sid in s.tables && !s.tables[sid].IsActive(vid) && KindMatches(vid, vote)
    requires TimingOf(vote).active && s.inflight == []
    ensures var s' := Next(s, SetVote(sid, vid, vote));
            && s'.inflight == [Event(sid, vid, TimingOf(vote).Timeout())]
            && s' == s.(tables := s'.tables, inflight := s'.inflight)
            && sid in s'.tables && s'.tables[sid].Timing(vid) == Some(TimingOf(vote))
  {
  }

  lemma Shortened(s: State, sid: int, vid: int, durationNs: int, time: int)
    requires ActiveAt(s, sid, vid) && s.worker.Idle? && s.inflight == [] && s.clock <= time
    requires forall ev :: ev in s.queue ==> time < ev.deadline
    requires s.tables[sid].Timing(vid).value.startTime + durationNs < time
    ensures Enabled(s, UpdateDuration(sid, vid, durationNs))
    ensures Enabled(Next(s, UpdateDuration(sid, vid, durationNs)), Tick(time))
    ensures var s' := Next(Next(s, UpdateDuration(sid, vid, durationNs)), Tick(time));
            Drained(s') && ActiveAt(s', sid, vid) && TimeoutAt(s', sid, vid) < s'.clock
  {
  }

  lemma FiveSteps(s0: State, s1: State, s2: State, s3: State, s4: State, s5: State, o0: Op, o1: Op, o2: Op, o3: Op,
                  o4: Op)
    requires Enabled(s0, o0) && Enabled(s1, o1) && Enabled(s2, o2) && Enabled(s3, o3) && Enabled(s4, o4)
    requires s1 == Next(s0, o0) && s2 == Next(s1, o1) && s3 == Next(s2, o2) && s4 == Next(s3, o3) && s5 == Next(s4, o4)
    ensures Legal(s0, [o0, o1, o2, o3, o4]) && Final(s0, [o0, o1, o2, o3, o4]) == s5
  {
    hide Legal, Final, Next, Enabled;
    assert [o0] + [o1, o2, o3, o4] == [o0, o1, o2, o3, o4] && [o1] + [o2, o3, o4] == [o1, o2, o3, o4];
    assert [o2] + [o3, o4] == [o2, o3, o4] && [o3] + [o4] == [o3, o4] && [o4] + [] == [o4];
    NoSteps(s5);
    LegalStep(s4, o4, []);
    LegalStep(s3, o3, [o4]);
    LegalStep(s2, o2, [o3, o4]);
    LegalStep(s1, o1, [o2, o3, o4]);
    LegalStep(s0, o0, [o1, o2, o3, o4]);
  }

  // ---------------------------------------------------------------------------------------------
  // Draining the queue
  // ---------------------------------------------------------------------------------------------

  function DueCount(queue: seq<Event>, now: int): nat {
    if queue == [] then 0
    else DueCount(queue[..|queue| - 1], now) + if queue[|queue| - 1].deadline <= now then 1 else 0
  }

  lemma {:induction false} DueCountRemove(queue: seq<Event>, now: int, k: nat)
    requires k < |queue|
    ensures DueCount(queue, now) == DueCount(RemoveAt(queue, k), now) + if queue[k].deadline <= now then 1 else 0
    decreases |queue|
  {
    var n := |queue| - 1;
    if k < n {
      DueCountRemove(queue[..n], now, k);
      assert RemoveAt(queue, k)[..n - 1] == RemoveAt(queue[..n], k);
    } else {
      assert RemoveAt(queue, k) == queue[..n];
    }
  }

  lemma DueCountAppend(queue: seq<Event>, now: int, ev: Event)
    ensures DueCount(queue + [ev], now) == DueCount(queue, now) + if ev.deadline <= now then 1 else 0
  {
    assert (queue + [ev])[..|queue|] == queue;
  }

  predicate WorkerStep(op: Op) {
    op.Pop? || op.Sample? || op.Handle?
  }

  /** The worker last read the clock at its present value. */
  predicate ClockStill(s: State) {
    s.worker.Sampled? ==> s.worker.tNow == s.clock
  }

  /** Steps the worker can still take before the clock moves. */
  function WorkLeft(s: State): nat {
    3 * DueCount(s.queue, s.clock) + match s.worker case Idle => 0 case Popped(_) => 2 case Sampled(_, _) => 1
  }

  lemma WorkerStepShrinksWork(s: State, op: Op)
    requires Enabled(s, op) && WorkerStep(op) && ClockStill(s)
    ensures WorkLeft(Next(s, op)) == WorkLeft(s) - 1
    ensures ClockStill(Next(s, op)) && Next(s, op).clock == s.clock
  {
    match op
    case Pop(index) => DueCountRemove(s.queue, s.clock, index);
    case Sample =>
    case Handle =>
      var back := Requeued(s.tables, s.worker.event, s.worker.tNow);
      if back == [] {
        assert s.queue + back == s.queue;
      } else {
        DueCountAppend(s.queue, s.clock, back[0]);
      }
  }

  /** With the clock held still, every run of the worker alone ends: it takes at most three steps
      per due event, since a handled event is dropped or queued again for a later time. */
  lemma {:induction false} DrainTerminates(s: State, ops: seq<Op>)
    requires Legal(s, ops) && ClockStill(s)
    requires forall op :: op in ops ==> WorkerStep(op)
    ensures |ops| + WorkLeft(Final(s, ops)) == WorkLeft(s)
    decreases |ops|
  {
    if ops != [] {
      assert ops[0] in ops;
      WorkerStepShrinksWork(s, ops[0]);
      assert forall op :: op in ops[1..] ==> op in ops;
      DrainTerminates(Next(s, ops[0]), ops[1..]);
    }
  }

  /** While work is left the worker is never stuck. */
  lemma WorkerNotStuck(s: State)
    requires WorkLeft(s) > 0
    ensures exists op :: WorkerStep(op) && Enabled(s, op)
  {
    if s.worker.Popped? {
      assert WorkerStep(Sample) && Enabled(s, Sample);
    } else if s.worker.Sampled? {
      assert WorkerStep(Handle) && Enabled(s, Handle);
    } else {
      var k := EarliestIndex(s.queue, s.clock);
      assert WorkerStep(Pop(k)) && Enabled(s, Pop(k));
    }
  }

  lemma {:induction false} EarliestIndex(queue: seq<Event>, now: int) returns (k: nat)
    requires DueCount(queue, now) > 0
    ensures IsEarliest(queue, k) && queue[k].deadline <= now
    decreases |queue|
  {
    var n := |queue| - 1;
    k := n;
    if DueCount(queue[..n], now) > 0 {
      var j := EarliestIndex(queue[..n], now);
      assert forall i :: 0 <= i < n ==> queue[..n][i] == queue[i];
      k := if queue[n].deadline < queue[j].deadline then n else j;
    } else {
      forall i | 0 <= i < n ensures now < queue[i].deadline {
        NoneDue(queue[..n], now, i);
        assert queue[..n][i] == queue[i];
      }
    }
  }

  lemma {:induction false} NoneDue(queue: seq<Event>, now: int, i: nat)
    requires i < |queue| && DueCount(queue, now) == 0
    ensures now < queue[i].deadline
    decreases |queue|
  {
    if i < |queue| - 1 {
      NoneDue(queue[..|queue| - 1], now, i);
    }
  }

  /** Once the queue is drained, in any run, a vote that was never shortened is active only before
      its timeout; any other vote is active only before its promised bound. */
  lemma DrainedMeansExpired(clock: int, ops: seq<Op>, sid: int, vid: int)
    requires Legal(Initial(clock), ops) && Drained(Final(Initial(clock), ops))
    ensures var s := Final(Initial(clock), ops);
            ActiveAt(s, sid, vid) ==>
              && s.clock < PromiseAfter(Initial(clock), ops, sid, vid, 0)
              && (NeverShortened(Initial(clock), ops, sid, vid) ==> s.clock < TimeoutAt(s, sid, vid))
  {
    CoveredRun(Initial(clock), ops, sid, vid, 0);
    if NeverShortened(Initial(clock), ops, sid, vid) {
      PromiseIsTimeout(Initial(clock), ops, sid, vid, 0);
    }
  }

  // ---------------------------------------------------------------------------------------------
  // Stale events
  // ---------------------------------------------------------------------------------------------

  /** The step does not disable, remove or bring forward the vote, nor move the clock to `d`. */
  predicate Keeps(s: State, op: Op, sid: int, vid: int, d: int) {
    match op
    case Tick(time) => time < d
    case RemoveSession(id) => id != sid
    case DisableBoosts(id) => id != sid || vid !in BOOST_VOTES
    case SetVote(id, voteId, vote) => id == sid && voteId == vid ==> d <= TimingOf(vote).Timeout()
    case UpdateDuration(id, voteId, durationNs) =>
      id == sid && voteId == vid && sid in s.tables && s.tables[sid].Timing(vid).Some? ==>
        d <= s.tables[sid].Timing(vid).value.startTime + durationNs
    case _ => true
  }

  predicate AllKeep(s: State, ops: seq<Op>, sid: int, vid: int, d: int)
    requires Legal(s, ops)
    decreases |ops|
  {
    ops == [] || (Keeps(s, ops[0], sid, vid, d) && AllKeep(Next(s, ops[0]), ops[1..], sid, vid, d))
  }

  /** The vote is in force until `d`, and neither the clock nor the worker's reading has got there. */
  predicate InForceUntil(s: State, sid: int, vid: int, d: int) {
    && ActiveAt(s, sid, vid) && d <= TimeoutAt(s, sid, vid)
    && s.clock < d && (s.worker.Sampled? ==> s.worker.tNow < d)
  }

  lemma InForceStep(s: State, op: Op, sid: int, vid: int, d: int)
    requires Enabled(s, op) && Keeps(s, op, sid, vid, d) && InForceUntil(s, sid, vid, d)
    requires IdsBounded(s)
    ensures InForceUntil(Next(s, op), sid, vid, d) && IdsBounded(Next(s, op))
  {
  }

  /** Stale events never cut a vote short: however many older events fire, a vote that is in force
      until `d` stays in force through every run that does not itself disable, remove or bring it
      forward before `d`. */
  lemma {:induction false} StaleEventsNeverCutShort(s: State, ops: seq<Op>, sid: int, vid: int, d: int)
    requires IdsBounded(s) && InForceUntil(s, sid, vid, d)
    requires Legal(s, ops) && AllKeep(s, ops, sid, vid, d)
    ensures InForceUntil(Final(s, ops), sid, vid, d)
    decreases |ops|
  {
    if ops != [] {
      InForceStep(s, ops[0], sid, vid, d);
      StaleEventsNeverCutShort(Next(s, ops[0]), ops[1..], sid, vid, d);
    }
  }

  /** A removed session never comes back, and the events it leaves behind change nothing. */
  lemma {:induction false} RemovedForever(s: State, ops: seq<Op>, sid: int)
    requires IdsBounded(s) && sid <= s.lastSessionId && sid !in s.tables
    requires Legal(s, ops)
    ensures sid !in Final(s, ops).tables && sid <= Final(s, ops).lastSessionId
    decreases |ops|
  {
    if ops != [] {
      RemovedForever(Next(s, ops[0]), ops[1..], sid);
    }
  }

  // ---------------------------------------------------------------------------------------------
  // How many events a vote can have
  // ---------------------------------------------------------------------------------------------

  function CountIn(events: seq<Event>, sid: int, vid: int): nat {
    if events == [] then 0
    else
      var ev := events[|events| - 1];
      CountIn(events[..|events| - 1], sid, vid) + if ev.sessionId == sid && ev.voteId == vid then 1 else 0
  }

  /** All events of the vote, wherever they are. */
  function EventCount(s: State, sid: int, vid: int): nat {
    CountIn(s.queue, sid, vid) + CountIn(s.inflight, sid, vid) +
    if !s.worker.Idle? && s.worker.event.sessionId == sid && s.worker.event.voteId == vid then 1 else 0
  }

  predicate Concerns(ev: Event, sid: int, vid: int) {
    ev.sessionId == sid && ev.voteId == vid
  }

  lemma {:induction false} CountInRemove(events: seq<Event>, k: nat, sid: int, vid: int)
    requires k < |events|
    ensures CountIn(events, sid, vid) ==
            CountIn(RemoveAt(events, k), sid, vid) + if Concerns(events[k], sid, vid) then 1 else 0
    decreases |events|
  {
    var n := |events| - 1;
    if k < n {
      CountInRemove(events[..n], k, sid, vid);
      assert RemoveAt(events, k)[..n - 1] == RemoveAt(events[..n], k);
    } else {
      assert RemoveAt(events, k) == events[..n];
    }
  }

  lemma CountInAppend(events: seq<Event>, more: seq<Event>, sid: int, vid: int)
    requires |more| <= 1
    ensures CountIn(events + more, sid, vid) ==
            CountIn(events, sid, vid) + if more != [] && Concerns(more[0], sid, vid) then 1 else 0
  {
    if more == [] {
      assert events + more == events;
    } else {
      assert (events + more)[..|events|] == events;
    }
  }

  /** Conservation of events: only setting a vote that needs a timeout makes one, and only
      handling one without queueing it again ends it. */
  lemma EventCountStep(s: State, op: Op, sid: int, vid: int)
    requires Enabled(s, op)
    ensures EventCount(Next(s, op), sid, vid) ==
            EventCount(s, sid, vid)
            + (if op.SetVote? && op.sessionId == sid && op.voteId == vid && sid in s.tables &&
                  ShouldScheduleTimeout(s.tables[sid], vid, TimingOf(op.vote).Timeout()) then 1 else 0)
            - (if op.Handle? && Concerns(s.worker.event, sid, vid) &&
                  !(ActiveAt(s, sid, vid) && s.worker.tNow < TimeoutAt(s, sid, vid)) then 1 else 0)
  {
    match op
    case SetVote(id, voteId, vote) =>
      if id in s.tables {
        CountInAppend(s.inflight, NewEvents(s.tables[id], id, voteId, TimingOf(vote).Timeout()), sid, vid);
      }
    case Enqueue(index) =>
      CountInRemove(s.inflight, index, sid, vid);
      CountInAppend(s.queue, [s.inflight[index]], sid, vid);
    case Pop(index) => CountInRemove(s.queue, index, sid, vid);
    case Handle => CountInAppend(s.queue, Requeued(s.tables, s.worker.event, s.worker.tNow), sid, vid);
    case _ =>
  }

  /** The step sets the active vote to expire earlier than it does now. */
  predicate BringsForward(s: State, op: Op, sid: int, vid: int) {
    op.SetVote? && op.sessionId == sid && op.voteId == vid && ActiveAt(s, sid, vid) &&
    TimingOf(op.vote).Timeout() < TimeoutAt(s, sid, vid)
  }

  /** A vote of a live session has one event while active and none otherwise. */
  predicate OneEvent(s: State, sid: int, vid: int) {
    && IdsBounded(s)
    && (s.lastSessionId < sid ==> EventCount(s, sid, vid) == 0)
    && (sid in s.tables ==> EventCount(s, sid, vid) == if ActiveAt(s, sid, vid) then 1 else 0)
  }

  /** The steps that leave a vote with an event too many: setting it to end earlier while it is on,
      switching it off with `disableBoosts`, and casting a vote of the wrong kind while it is off. */
  predicate AddsStrayEvent(s: State, op: Op, sid: int, vid: int) {
    || BringsForward(s, op, sid, vid)
    || (op == DisableBoosts(sid) && vid in BOOST_VOTES && ActiveAt(s, sid, vid))
    || (op.SetVote? && op.sessionId == sid && op.voteId == vid && !KindMatches(vid, op.vote) &&
        sid in s.tables && !ActiveAt(s, sid, vid))
  }

  /** Exactly which steps end the state in which a live session's vote has one event while it is on
      and none while it is off. */
  lemma OneEventKeptIff(s: State, op: Op, sid: int, vid: int)
    requires Enabled(s, op) && OneEvent(s, sid, vid)
    ensures OneEvent(Next(s, op), sid, vid) <==> !AddsStrayEvent(s, op, sid, vid)
  {
    EventCountStep(s, op, sid, vid);
  }

  /** The vote has one event while on and none while off, before and after every step of the run. */
  predicate AlwaysOneEvent(s: State, ops: seq<Op>, sid: int, vid: int)
    requires Legal(s, ops)
    decreases |ops|
  {
    OneEvent(s, sid, vid) && (ops == [] || AlwaysOneEvent(Next(s, ops[0]), ops[1..], sid, vid))
  }

  predicate NeverStray(s: State, ops: seq<Op>, sid: int, vid: int)
    requires Legal(s, ops)
    decreases |ops|
  {
    ops == [] || (!AddsStrayEvent(s, ops[0], sid, vid) && NeverStray(Next(s, ops[0]), ops[1..], sid, vid))
  }

  lemma {:induction false} OneEventRunIff(s: State, ops: seq<Op>, sid: int, vid: int)
    requires Legal(s, ops) && OneEvent(s, sid, vid)
    ensures AlwaysOneEvent(s, ops, sid, vid) <==> NeverStray(s, ops, sid, vid)
    decreases |ops|
  {
    if ops != [] {
      OneEventKeptIff(s, ops[0], sid, vid);
      if !AddsStrayEvent(s, ops[0], sid, vid) {
        OneEventRunIff(Next(s, ops[0]), ops[1..], sid, vid);
      }
    }
  }

  /** A single timeout event serves a vote through all its renewals exactly in the runs in which the
      vote is never brought forward, disabled while on, or set with the wrong kind: there, and only
      there, it has one event while on and none while off at every point. */
  lemma SingleEventPerVote(clock: int, ops: seq<Op>, sid: int, vid: int)
    requires Legal(Initial(clock), ops)
    ensures AlwaysOneEvent(Initial(clock), ops, sid, vid) <==> NeverStray(Initial(clock), ops, sid, vid)
  {
    OneEventRunIff(Initial(clock), ops, sid, vid);
  }

  /** Setting a vote to a later end and then to an earlier one leaves at least one event more. */
  lemma ForwardRound(s: State, sid: int, vid: int, later: Vote, earlier: Vote)
    requires sid in s.tables && TimingOf(later).active && TimingOf(earlier).active
    requires KindMatches(vid, later) && TimingOf(earlier).Timeout() < TimingOf(later).Timeout()
    ensures var s1 := Next(s, SetVote(sid, vid, later));
            var s2 := Next(s1, SetVote(sid, vid, earlier));
            sid in s2.tables && EventCount(s2, sid, vid) >= EventCount(s, sid, vid) + 1
  {
    var s1 := Next(s, SetVote(sid, vid, later));
    EventCountStep(s, SetVote(sid, vid, later), sid, vid);
    assert s1.tables[sid].Timing(vid) == Some(TimingOf(later));
    EventCountStep(s1, SetVote(sid, vid, earlier), sid, vid);
  }

  /** Votes that are brought forward have no bound on their events either: from any state, setting any
      vote later and earlier in turn gathers at least as many events as there are rounds. */
  lemma {:induction false} ForwardVoteGathersEvents(s: State, sid: int, vid: int, later: Vote, earlier: Vote, n: nat)
    returns (ops: seq<Op>)
    requires sid in s.tables && TimingOf(later).active && TimingOf(earlier).active
    requires KindMatches(vid, later) && TimingOf(earlier).Timeout() < TimingOf(later).Timeout()
    ensures Legal(s, ops) && EventCount(Final(s, ops), sid, vid) >= EventCount(s, sid, vid) + n
    decreases n
  {
    hide EventCount;
    if n == 0 {
      ops := [];
    } else {
      var o1, o2 := SetVote(sid, vid, later), SetVote(sid, vid, earlier);
      var s1 := Next(s, o1);
      var s2 := Next(s1, o2);
      ForwardRound(s, sid, vid, later, earlier);
      var rest := ForwardVoteGathersEvents(s2, sid, vid, later, earlier, n - 1);
      hide Legal, Final, Next;
      LegalStep(s1, o2, rest);
      LegalStep(s, o1, [o2] + rest);
      ops := [o1] + ([o2] + rest);
    }
  }

  /** Disabling a boost vote and setting it again leaves one event more than before. */
  lemma BoostRound(s: State, sid: int, vid: int, vote: Vote)
    requires sid in s.tables && vid in BOOST_VOTES && TimingOf(vote).active
    ensures var s1 := Next(s, DisableBoosts(sid));
            var s2 := Next(s1, SetVote(sid, vid, vote));
            sid in s2.tables && EventCount(s2, sid, vid) == EventCount(s, sid, vid) + 1
  {
    var s1 := Next(s, DisableBoosts(sid));
    EventCountStep(s, DisableBoosts(sid), sid, vid);
    assert !s1.tables[sid].IsActive(vid);
    EventCountStep(s1, SetVote(sid, vid, vote), sid, vid);
  }

  /** The votes that `disableBoosts` turns off have no bound on their events: from any state, repeating a hint
      and a report gathers as many pending events for one vote as there are repetitions. */
  lemma {:induction false} BoostVoteGathersEvents(s: State, sid: int, vid: int, vote: Vote, n: nat)
      returns (ops: seq<Op>)
    requires sid in s.tables && vid in BOOST_VOTES && TimingOf(vote).active
    ensures Legal(s, ops) && EventCount(Final(s, ops), sid, vid) == EventCount(s, sid, vid) + n
    decreases n
  {
    hide EventCount;
    if n == 0 {
      ops := [];
    } else {
      var o1, o2 := DisableBoosts(sid), SetVote(sid, vid, vote);
      var s1 := Next(s, o1);
      var s2 := Next(s1, o2);
      BoostRound(s, sid, vid, vote);
      var rest := BoostVoteGathersEvents(s2, sid, vid, vote, n - 1);
      hide Legal, Final, Next;
      LegalStep(s1, o2, rest);
      LegalStep(s, o1, [o2] + rest);
      ops := [o1] + ([o2] + rest);
    }
  }
}
