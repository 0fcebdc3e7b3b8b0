/** When exactly a vote can be active past its timeout although no event is due, and how a vote gets
    into and out of that danger. */
module OverdueVotes {
  import opened Arith
  import opened UclampVoter
  import opened TimeoutProtocol

  /** Time passes or the worker works; no client does anything. */
  predicate Passive(op: Op) {
    op.Tick? || WorkerStep(op)
  }

  /** The vote is active although its time is over and the worker has nothing to do. */
  predicate Overdue(s: State, sid: int, vid: int) {
    Drained(s) && ActiveAt(s, sid, vid) && TimeoutAt(s, sid, vid) <= s.clock
  }

  /** If the clients leave the vote alone from now on, it can become overdue. */
  ghost predicate CanBecomeOverdue(s: State, sid: int, vid: int) {
    exists ops :: Legal(s, ops) && (forall op :: op in ops ==> Passive(op)) && Overdue(Final(s, ops), sid, vid)
  }

  /** Every event of the vote comes after `t`. */
  predicate AllEventsAfter(s: State, sid: int, vid: int, t: int) {
    forall ev :: ev in s.queue && Concerns(ev, sid, vid) ==> t < ev.deadline
  }

  /** No call is between its lock and the queue, and the worker waits. */
  predicate Quiet(s: State) {
    s.inflight == [] && s.worker.Idle?
  }

  // ---------------------------------------------------------------------------------------------
  // How often the worker has to look
  // ---------------------------------------------------------------------------------------------

  function Handles(ops: seq<Op>): nat {
    if ops == [] then 0 else (if ops[0].Handle? then 1 else 0) + Handles(ops[1..])
  }

  /** How often an event can still be handled: twice if it comes before the timeout of an active vote. */
  function Looks(s: State, ev: Event): nat {
    if ActiveAt(s, ev.sessionId, ev.voteId) && ev.deadline < TimeoutAt(s, ev.sessionId, ev.voteId) then 2 else 1
  }

  function LooksIn(s: State, events: seq<Event>): nat {
    if events == [] then 0 else LooksIn(s, events[..|events| - 1]) + Looks(s, events[|events| - 1])
  }

  function LooksLeft(s: State): nat {
    LooksIn(s, s.queue) + if s.worker.Idle? then 0 else Looks(s, s.worker.event)
  }

  /** The worker has taken its event when it was due, and has read the clock since. */
  predicate TookDue(s: State) {
    match s.worker
    case Idle => true
    case Popped(ev) => ev.deadline <= s.clock
    case Sampled(ev, tNow) => ev.deadline <= tNow <= s.clock
  }

  lemma {:induction false} LooksRemoved(s: State, events: seq<Event>, k: nat)
    requires k < |events|
    ensures LooksIn(s, events) == LooksIn(s, RemoveAt(events, k)) + Looks(s, events[k])
    decreases |events|
  {
    var n := |events| - 1;
    if k < n {
      LooksRemoved(s, events[..n], k);
      assert RemoveAt(events, k)[..n - 1] == RemoveAt(events[..n], k);
    } else {
      assert RemoveAt(events, k) == events[..n];
    }
  }

  /** Votes have only been switched off. */
  ghost predicate OnlyOff(s: State, s': State) {
    forall i, v :: TimeoutAt(s', i, v) == TimeoutAt(s, i, v) && (ActiveAt(s', i, v) ==> ActiveAt(s, i, v))
  }

  lemma {:induction false} FewerLooks(s: State, s': State, events: seq<Event>)
    requires OnlyOff(s, s')
    ensures LooksIn(s', events) <= LooksIn(s, events)
    decreases |events|
  {
    if events != [] {
      FewerLooks(s, s', events[..|events| - 1]);
    }
  }

  lemma {:induction false} LooksBound(s: State, events: seq<Event>)
    ensures LooksIn(s, events) <= 2 * |events|
    decreases |events|
  {
    if events != [] {
      LooksBound(s, events[..|events| - 1]);
    }
  }

  lemma LookTaken(s: State)
    requires s.worker.Sampled? && TookDue(s)
    ensures LooksLeft(Next(s, Handle)) + 1 <= LooksLeft(s)
  {
    hide Next, LooksIn;
    var s', ev := Next(s, Handle), s.worker.event;
    HandledEvent(s);
    FewerLooks(s, s', s.queue);
    if ActiveAt(s', ev.sessionId, ev.voteId) {
      LooksAppended(s', s.queue, Event(ev.sessionId, ev.voteId, TimeoutAt(s', ev.sessionId, ev.voteId)));
    }
  }

  lemma LooksAppended(s: State, events: seq<Event>, ev: Event)
    ensures LooksIn(s, events + [ev]) == LooksIn(s, events) + Looks(s, ev)
  {
    assert (events + [ev])[..|events|] == events;
  }

  lemma LooksStep(s: State, op: Op)
    requires Enabled(s, op) && Passive(op) && TookDue(s)
    ensures TookDue(Next(s, op))
    ensures LooksLeft(Next(s, op)) + (if op.Handle? then 1 else 0) <= LooksLeft(s)
  {
    match op
    case Tick(_) => FewerLooks(s, Next(s, op), s.queue);
    case Pop(index) =>
      FewerLooks(s, Next(s, op), RemoveAt(s.queue, index));
      LooksRemoved(s, s.queue, index);
    case Sample => FewerLooks(s, Next(s, op), s.queue);
    case Handle => LookTaken(s);
  }

  lemma {:induction false} LooksRun(s: State, ops: seq<Op>)
    requires Legal(s, ops) && TookDue(s) && forall op :: op in ops ==> Passive(op)
    ensures Handles(ops) + LooksLeft(Final(s, ops)) <= LooksLeft(s)
    decreases |ops|
  {
    hide LooksLeft, TookDue;
    if ops != [] {
      assert ops[0] in ops;
      assert forall op :: op in ops[1..] ==> op in ops;
      LooksStep(s, ops[0]);
      LooksRun(Next(s, ops[0]), ops[1..]);
    }
  }

  /** The worker looks at most twice at each event, however the clock moves: an event that comes too
      early for its vote is put back once, for the vote's own timeout. */
  lemma TwoLooksPerEvent(s: State, ops: seq<Op>)
    requires Quiet(s) && Legal(s, ops) && forall op :: op in ops ==> Passive(op)
    ensures Handles(ops) <= 2 * |s.queue|
  {
    LooksRun(s, ops);
    LooksBound(s, s.queue);
  }

  // ---------------------------------------------------------------------------------------------
  // An event in time ends the vote
  // ---------------------------------------------------------------------------------------------

  lemma {:induction false} PassiveRun(s: State, ops: seq<Op>, sid: int, vid: int, b: int)
    requires Legal(s, ops) && forall op :: op in ops ==> Passive(op)
    ensures PromiseAfter(s, ops, sid, vid, b) == b && s.clock <= Final(s, ops).clock
    ensures ActiveAt(Final(s, ops), sid, vid) ==>
              ActiveAt(s, sid, vid) && TimeoutAt(Final(s, ops), sid, vid) == TimeoutAt(s, sid, vid)
    decreases |ops|
  {
    if ops != [] {
      assert ops[0] in ops;
      assert forall op :: op in ops[1..] ==> op in ops;
      PassiveRun(Next(s, ops[0]), ops[1..], sid, vid, b);
    }
  }

  lemma NotOverdue(s: State, ops: seq<Op>, sid: int, vid: int)
    requires Quiet(s) && ActiveAt(s, sid, vid)
    requires !AllEventsAfter(s, sid, vid, Max(TimeoutAt(s, sid, vid), s.clock))
    requires Legal(s, ops) && forall op :: op in ops ==> Passive(op)
    ensures !Overdue(Final(s, ops), sid, vid)
  {
    var t := Max(TimeoutAt(s, sid, vid), s.clock);
    var ev :| ev in s.queue && Concerns(ev, sid, vid) && ev.deadline <= t;
    assert Covers(ev, sid, vid, t);
    CoveredRun(s, ops, sid, vid, t);
    PassiveRun(s, ops, sid, vid, t);
  }

  // ---------------------------------------------------------------------------------------------
  // Without one it stays
  // ---------------------------------------------------------------------------------------------

  /** At the present time nothing the worker has or can get concerns the vote. */
  predicate OutOfReach(s: State, sid: int, vid: int) {
    && ActiveAt(s, sid, vid) && AllEventsAfter(s, sid, vid, s.clock) && s.inflight == []
    && (!s.worker.Idle? ==> !Concerns(s.worker.event, sid, vid)) && ClockStill(s)
  }

  lemma OutOfReachStep(s: State, op: Op, sid: int, vid: int)
    requires OutOfReach(s, sid, vid) && Enabled(s, op) && WorkerStep(op)
    ensures OutOfReach(Next(s, op), sid, vid) && Next(s, op).clock == s.clock
    ensures TimeoutAt(Next(s, op), sid, vid) == TimeoutAt(s, sid, vid)
  {
  }

  /** The worker can work off all that is due without touching the vote. */
  lemma {:induction false} DrainAround(s: State, sid: int, vid: int) returns (ops: seq<Op>)
    requires OutOfReach(s, sid, vid)
    ensures Legal(s, ops) && forall op :: op in ops ==> Passive(op)
    ensures var f := Final(s, ops);
            && Drained(f) && OutOfReach(f, sid, vid) && f.clock == s.clock
            && TimeoutAt(f, sid, vid) == TimeoutAt(s, sid, vid)
    decreases WorkLeft(s)
  {
    if WorkLeft(s) == 0 {
      ops := [];
      forall ev | ev in s.queue ensures s.clock < ev.deadline {
        var i :| 0 <= i < |s.queue| && s.queue[i] == ev;
        NoneDue(s.queue, s.clock, i);
      }
    } else {
      WorkerNotStuck(s);
      var op :| WorkerStep(op) && Enabled(s, op);
      WorkerStepShrinksWork(s, op);
      OutOfReachStep(s, op, sid, vid);
      var rest := DrainAround(Next(s, op), sid, vid);
      LegalStep(s, op, rest);
      ops := [op] + rest;
    }
  }

  lemma BecomesOverdue(s: State, sid: int, vid: int)
    requires Quiet(s) && ActiveAt(s, sid, vid)
    requires AllEventsAfter(s, sid, vid, Max(TimeoutAt(s, sid, vid), s.clock))
    ensures CanBecomeOverdue(s, sid, vid)
  {
    var tick := Tick(Max(TimeoutAt(s, sid, vid), s.clock));
    var s1 := Next(s, tick);
    var rest := DrainAround(s1, sid, vid);
    LegalStep(s, tick, rest);
    var ops := [tick] + rest;
    assert forall op :: op in ops ==> Passive(op);
    assert Overdue(Final(s, ops), sid, vid);
  }

  /** Exactly when an active vote can outlive its timeout: when, at its timeout and now, every event
      it has is still to come. */
  lemma OverdueIff(s: State, sid: int, vid: int)
    requires Quiet(s) && ActiveAt(s, sid, vid)
    ensures CanBecomeOverdue(s, sid, vid) <==> AllEventsAfter(s, sid, vid, Max(TimeoutAt(s, sid, vid), s.clock))
  {
    if AllEventsAfter(s, sid, vid, Max(TimeoutAt(s, sid, vid), s.clock)) {
      BecomesOverdue(s, sid, vid);
    } else {
      forall ops | Legal(s, ops) && forall op :: op in ops ==> Passive(op) ensures !Overdue(Final(s, ops), sid, vid) {
        NotOverdue(s, ops, sid, vid);
      }
    }
  }

  // ---------------------------------------------------------------------------------------------
  // Changing the duration
  // ---------------------------------------------------------------------------------------------

  /** Which new durations of an active vote let it outlive its new timeout: exactly those that end it,
      and find the clock, before its earliest pending event. */
  lemma UpdateLeadsToOverdueIff(s: State, sid: int, vid: int, durationNs: int)
    requires Quiet(s) && ActiveAt(s, sid, vid)
    ensures var newTimeout := s.tables[sid].Timing(vid).value.startTime + durationNs;
            CanBecomeOverdue(Next(s, UpdateDuration(sid, vid, durationNs)), sid, vid) <==>
            AllEventsAfter(s, sid, vid, Max(newTimeout, s.clock))
  {
    OverdueIff(Next(s, UpdateDuration(sid, vid, durationNs)), sid, vid);
  }

  /** All events of the vote wait for its present timeout or later. */
  ghost predicate Fresh(s: State, sid: int, vid: int) {
    forall b :: HasEvent(s, sid, vid, b) ==> TimeoutAt(s, sid, vid) <= b
  }

  lemma {:induction false} NoneOfThem(events: seq<Event>, sid: int, vid: int)
    ensures CountIn(events, sid, vid) == 0 <==> forall ev :: ev in events ==> !Concerns(ev, sid, vid)
    decreases |events|
  {
    if events != [] {
      var n := |events| - 1;
      NoneOfThem(events[..n], sid, vid);
      assert forall ev :: ev in events[..n] ==> ev in events;
      assert events[n] in events;
      forall ev | ev in events ensures ev in events[..n] || ev == events[n] {
        var i :| 0 <= i < |events| && events[i] == ev;
        assert i < n ==> events[..n][i] == ev;
      }
    }
  }

  /** A vote that is set while it is off and has no event left is fresh, and timely. */
  lemma SetWhileOffIsFresh(s: State, sid: int, vid: int, vote: Vote)
    requires sid in s.tables && !ActiveAt(s, sid, vid) && EventCount(s, sid, vid) == 0
    requires TimingOf(vote).active && KindMatches(vid, vote)
    ensures var s' := Next(s, SetVote(sid, vid, vote));
            ActiveAt(s', sid, vid) && Fresh(s', sid, vid) && Timely(s', sid, vid)
  {
    var op := SetVote(sid, vid, vote);
    var s' := Next(s, op);
    var d := TimingOf(vote).Timeout();
    assert s'.tables[sid].Timing(vid) == Some(TimingOf(vote));
    NoneOfThem(s.queue, sid, vid);
    NoneOfThem(s.inflight, sid, vid);
    assert s'.inflight == s.inflight + [Event(sid, vid, d)];
    assert Event(sid, vid, d) in s'.inflight && Covers(Event(sid, vid, d), sid, vid, d);
  }

  /** In every run that gathers no stray events since a point at which the vote had one event or, being
      off, none, as it has at the start, setting the vote while it is off makes it fresh. */
  lemma FreshInRuns(s: State, ops: seq<Op>, sid: int, vid: int, vote: Vote)
    requires OneEvent(s, sid, vid) && Legal(s, ops) && NeverStray(s, ops, sid, vid)
    requires sid in Final(s, ops).tables && !ActiveAt(Final(s, ops), sid, vid)
    requires TimingOf(vote).active && KindMatches(vid, vote)
    ensures var s' := Next(Final(s, ops), SetVote(sid, vid, vote));
            ActiveAt(s', sid, vid) && Fresh(s', sid, vid) && Timely(s', sid, vid)
  {
    OneEventRunIff(s, ops, sid, vid);
    OneEventAtEnd(s, ops, sid, vid);
    SetWhileOffIsFresh(Final(s, ops), sid, vid, vote);
  }

  lemma {:induction false} OneEventAtEnd(s: State, ops: seq<Op>, sid: int, vid: int)
    requires Legal(s, ops) && AlwaysOneEvent(s, ops, sid, vid)
    ensures OneEvent(Final(s, ops), sid, vid)
    decreases |ops|
  {
    if ops != [] {
      OneEventAtEnd(Next(s, ops[0]), ops[1..], sid, vid);
    }
  }

  /** From a fresh vote the danger is plain: a new duration lets the vote outlive its new timeout
      exactly if it is shorter than the present one, which has not run out yet. */
  lemma ShorterMeansOverdue(s: State, sid: int, vid: int, durationNs: int)
    requires Quiet(s) && ActiveAt(s, sid, vid) && Fresh(s, sid, vid) && Timely(s, sid, vid)
    ensures CanBecomeOverdue(Next(s, UpdateDuration(sid, vid, durationNs)), sid, vid) <==>
            durationNs < s.tables[sid].Timing(vid).value.durationNs && s.clock < TimeoutAt(s, sid, vid)
  {
    var newTimeout := s.tables[sid].Timing(vid).value.startTime + durationNs;
    var t := TimeoutAt(s, sid, vid);
    UpdateLeadsToOverdueIff(s, sid, vid, durationNs);
    var ev :| ev in s.queue && Covers(ev, sid, vid, t);
    if Max(newTimeout, s.clock) < t {
      forall e | e in s.queue && Concerns(e, sid, vid) ensures t <= e.deadline {
        assert Covers(e, sid, vid, e.deadline);
        assert HasEvent(s, sid, vid, e.deadline);
      }
    }
  }

  // ---------------------------------------------------------------------------------------------
  // How the danger passes
  // ---------------------------------------------------------------------------------------------

  /** Shortening is forgotten once the vote has been off: in every run that does not shorten the vote
      after some point at which it was off, its event is due no later than its timeout. */
  lemma TimelyOnceOff(clock: int, x: seq<Op>, y: seq<Op>, sid: int, vid: int)
    requires Legal(Initial(clock), x) && Legal(Final(Initial(clock), x), y)
    requires !ActiveAt(Final(Initial(clock), x), sid, vid)
    requires NeverShortened(Final(Initial(clock), x), y, sid, vid)
    ensures Timely(Final(Final(Initial(clock), x), y), sid, vid)
  {
    var s := Final(Initial(clock), x);
    CoveredRun(s, y, sid, vid, 0);
    PromiseIsTimeout(s, y, sid, vid, 0);
  }

  /** In a run without shortening the promise never goes beyond the old one or the present timeout. It
      is the timeout itself once the vote has been off or brought forward, that is, below `t`. */
  lemma {:induction false} PromiseWithoutShortening(s: State, ops: seq<Op>, sid: int, vid: int, b: int, b0: int, t: int)
    requires Legal(s, ops) && NeverShortened(s, ops, sid, vid)
    requires ActiveAt(s, sid, vid) ==> b <= Max(b0, TimeoutAt(s, sid, vid))
    requires ActiveAt(s, sid, vid) ==> t <= TimeoutAt(s, sid, vid) || b == TimeoutAt(s, sid, vid)
    ensures var f := Final(s, ops);
            var promise := PromiseAfter(s, ops, sid, vid, b);
            ActiveAt(f, sid, vid) ==>
              && promise <= Max(b0, TimeoutAt(f, sid, vid))
              && (t <= TimeoutAt(f, sid, vid) || promise == TimeoutAt(f, sid, vid))
    decreases |ops|
  {
    if ops != [] {
      PromiseStepWithoutShortening(s, ops[0], sid, vid, b, b0, t);
      PromiseWithoutShortening(Next(s, ops[0]), ops[1..], sid, vid, Promise(s, ops[0], sid, vid, b), b0, t);
    }
  }

  lemma PromiseStepWithoutShortening(s: State, op: Op, sid: int, vid: int, b: int, b0: int, t: int)
    requires Enabled(s, op) && !Shortens(s, op, sid, vid)
    requires ActiveAt(s, sid, vid) ==> b <= Max(b0, TimeoutAt(s, sid, vid))
    requires ActiveAt(s, sid, vid) ==> t <= TimeoutAt(s, sid, vid) || b == TimeoutAt(s, sid, vid)
    ensures var s', promise := Next(s, op), Promise(s, op, sid, vid, b);
            ActiveAt(s', sid, vid) ==>
              && promise <= Max(b0, TimeoutAt(s', sid, vid))
              && (t <= TimeoutAt(s', sid, vid) || promise == TimeoutAt(s', sid, vid))
  {
    if op.SetVote? && op.sessionId == sid && op.voteId == vid && sid in s.tables && KindMatches(vid, op.vote) {
      assert Next(s, op).tables[sid].Timing(vid) == Some(TimingOf(op.vote));
    } else if ActiveAt(Next(s, op), sid, vid) && !op.Handle? && !op.UpdateDuration? {
      UnrelatedStep(s, op, sid, vid);
    }
  }
}
