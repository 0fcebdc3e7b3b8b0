/** The background thread that runs work packages by deadline (BackgroundWorker.h, BackgroundWorker.cpp). */
module BackgroundWorker {
  import opened Arith

  /** An entry of the priority queue; the package itself is kept under its id. */
  datatype Ticket = Ticket(deadline: int, packageId: int)

  /** A dispatched package and the time at which it was taken from the queue. */
  datatype Dispatch = Dispatch(packageId: int, time: int)

  ghost predicate Earliest(queue: seq<Ticket>, k: nat) {
    k < |queue| && forall j :: 0 <= j < |queue| ==> queue[k].deadline <= queue[j].deadline
  }

  ghost predicate DistinctIds(queue: seq<Ticket>) {
    forall i, j :: 0 <= i < j < |queue| ==> queue[i].packageId != queue[j].packageId
  }

  ghost predicate IsQueued(queue: seq<Ticket>, id: int) {
    exists i :: 0 <= i < |queue| && queue[i].packageId == id
  }

  /** Queued ids and kept packages are in bijection, and each pair is what was asked for. */
  ghost predicate QueueSound<P>(queue: seq<Ticket>, packages: map<int, P>, requested: map<int, (int, P)>) {
    && DistinctIds(queue)
    && (forall i :: 0 <= i < |queue| ==> queue[i].packageId in packages)
    && (forall id :: id in packages ==> IsQueued(queue, id))
    && (forall i :: 0 <= i < |queue| ==>
          queue[i].packageId in requested &&
          requested[queue[i].packageId] == (queue[i].deadline, packages[queue[i].packageId]))
  }

  /** Each dispatched package had been asked for, is no longer kept, was not dispatched before its
      deadline, and was dispatched once. */
  ghost predicate LogSound<P>(log: seq<Dispatch>, packages: map<int, P>, requested: map<int, (int, P)>) {
    && (forall i, j :: 0 <= i < j < |log| ==> log[i].packageId != log[j].packageId)
    && (forall i :: 0 <= i < |log| ==>
          && log[i].packageId in requested && log[i].packageId !in packages
          && requested[log[i].packageId].0 <= log[i].time)
  }

  /** The packages waiting, with their deadlines, in the order in which the queue holds them. */
  ghost function PendingOf<P>(queue: seq<Ticket>, packages: map<int, P>): (r: seq<(int, P)>)
    requires forall i :: 0 <= i < |queue| ==> queue[i].packageId in packages
    ensures |r| == |queue|
  {
    seq(|queue|, i requires 0 <= i < |queue| && queue[i].packageId in packages =>
          (queue[i].deadline, packages[queue[i].packageId]))
  }

  lemma PopIds(queue: seq<Ticket>, k: nat)
    requires DistinctIds(queue) && k < |queue|
    ensures DistinctIds(RemoveAt(queue, k)) && !IsQueued(RemoveAt(queue, k), queue[k].packageId)
    ensures forall id :: IsQueued(queue, id) && id != queue[k].packageId ==> IsQueued(RemoveAt(queue, k), id)
  {
    var r := RemoveAt(queue, k);
    assert forall i :: 0 <= i < |r| ==> r[i] == queue[if i < k then i else i + 1];
    forall id | IsQueued(queue, id) && id != queue[k].packageId ensures IsQueued(r, id) {
      var i :| 0 <= i < |queue| && queue[i].packageId == id;
      assert r[if i < k then i else i - 1].packageId == id;
    }
  }

  lemma PopKeepsQueue<P>(queue: seq<Ticket>, packages: map<int, P>, requested: map<int, (int, P)>, k: nat)
    requires QueueSound(queue, packages, requested) && k < |queue|
    ensures QueueSound(RemoveAt(queue, k), packages - {queue[k].packageId}, requested)
    ensures PendingOf(RemoveAt(queue, k), packages - {queue[k].packageId}) == RemoveAt(PendingOf(queue, packages), k)
  {
    var r, rest := RemoveAt(queue, k), packages - {queue[k].packageId};
    PopIds(queue, k);
    forall i | 0 <= i < |r| ensures r[i].packageId in rest && r[i] == queue[if i < k then i else i + 1] {
      assert IsQueued(r, r[i].packageId);
    }
  }

  lemma PopKeepsLog<P>(queue: seq<Ticket>, packages: map<int, P>, requested: map<int, (int, P)>,
                       log: seq<Dispatch>, k: nat, now: int)
    requires QueueSound(queue, packages, requested) && LogSound(log, packages, requested)
    requires k < |queue| && queue[k].deadline <= now
    ensures LogSound(log + [Dispatch(queue[k].packageId, now)], packages - {queue[k].packageId}, requested)
  {
  }

  lemma PushKeepsQueue<P>(queue: seq<Ticket>, packages: map<int, P>, requested: map<int, (int, P)>,
                          id: int, deadline: int, package: P)
    requires QueueSound(queue, packages, requested) && id !in requested
    ensures QueueSound(queue + [Ticket(deadline, id)], packages[id := package], requested[id := (deadline, package)])
    ensures PendingOf(queue + [Ticket(deadline, id)], packages[id := package]) ==
            PendingOf(queue, packages) + [(deadline, package)]
  {
    var q := queue + [Ticket(deadline, id)];
    assert q[|queue|].packageId == id;
    forall x | x in packages[id := package] ensures IsQueued(q, x) {
      if x != id {
        assert IsQueued(queue, x);
        var i :| 0 <= i < |queue| && queue[i].packageId == x;
        assert q[i].packageId == x;
      }
    }
  }

  /** One template worker on a pool with a single thread, as PowerSessionManager creates it.
      `Schedule` is atomic here; `LostPackagesIff` below says what happens when it is not. */
  class PriorityQueueWorker<P> {
    var packageIdCounter: nat
    var packages: map<int, P>
    var packageQueue: seq<Ticket>

    // What was asked for under each id, and what has been dispatched so far, in order.
    ghost var requested: map<int, (int, P)>
    ghost var dispatched: seq<Dispatch>

    constructor ()
      ensures Valid() && Pending() == [] && dispatched == [] && packageIdCounter == 0
    {
      packageIdCounter := 0;
      packages := map[];
      packageQueue := [];
      requested := map[];
      dispatched := [];
    }

    /** Every id handed out has been dispatched, exactly once and not early, or is still queued. */
    ghost predicate Valid()
      reads this
    {
      && (forall id :: id in requested <==> 1 <= id <= packageIdCounter)
      && QueueSound(packageQueue, packages, requested)
      && LogSound(dispatched, packages, requested)
      && packageIdCounter == |dispatched| + |packageQueue|
    }

    ghost function Pending(): seq<(int, P)>
      requires Valid()
      reads this
    {
      PendingOf(packageQueue, packages)
    }

    method Schedule(package: P, deadline: int)
      requires Valid()
      modifies this
      ensures Valid()
      ensures Pending() == old(Pending()) + [(deadline, package)]
      ensures packageIdCounter == old(packageIdCounter) + 1 && dispatched == old(dispatched)
      ensures requested == old(requested)[packageIdCounter := (deadline, package)]
    {
      PushKeepsQueue(packageQueue, packages, requested, packageIdCounter + 1, deadline, package);
      packageIdCounter := packageIdCounter + 1;
      packages := packages[packageIdCounter := package];
      packageQueue := packageQueue + [Ticket(deadline, packageIdCounter)];
      requested := requested[packageIdCounter := (deadline, package)];
    }

    /** An entry with the smallest deadline. */
    method Top() returns (k: nat)
      requires packageQueue != []
      ensures Earliest(packageQueue, k)
    {
      k := 0;
      for i := 0 to |packageQueue|
        invariant k < |packageQueue|
        invariant forall j :: 0 <= j < i ==> packageQueue[k].deadline <= packageQueue[j].deadline
      {
        if packageQueue[i].deadline < packageQueue[k].deadline {
          k := i;
        }
      }
    }

    /** One round of the worker's loop at time `now`: the earliest package if it is due, else none. */
    method RunNext(now: int) returns (taken: Option<P>, ghost k: nat)
      requires Valid()
      modifies this
      ensures Valid()
      ensures packageIdCounter == old(packageIdCounter) && requested == old(requested)
      ensures taken.None? ==>
                && Pending() == old(Pending()) && dispatched == old(dispatched)
                && forall i :: 0 <= i < |Pending()| ==> now < Pending()[i].0
      ensures taken.Some? ==>
                && k < |old(Pending())| && old(Pending())[k].0 <= now && old(Pending())[k].1 == taken.value
                && (forall i :: 0 <= i < |old(Pending())| ==> old(Pending())[k].0 <= old(Pending())[i].0)
                && Pending() == RemoveAt(old(Pending()), k)
                && dispatched == old(dispatched) + [Dispatch(old(packageQueue)[k].packageId, now)]
    {
      if packageQueue == [] {
        return None, 0;
      }
      var top := Top();
      k := top;
      var ticket := packageQueue[top];
      if ticket.deadline > now {
        return None, 0;
      }
      PopKeepsQueue(packageQueue, packages, requested, top);
      PopKeepsLog(packageQueue, packages, requested, dispatched, top, now);
      packageQueue := RemoveAt(packageQueue, top);
      if ticket.packageId !in packages {
        assert false;  // "Work id does not have matching entry, drop it"
        taken := None;
      } else {
        taken := Some(packages[ticket.packageId]);
        packages := packages - {ticket.packageId};
        dispatched := dispatched + [Dispatch(ticket.packageId, now)];
      }
    }
  }

  // ---------------------------------------------------------------------------------------------
  // Schedule is not atomic in the code: it takes a fresh id under its lock, and reads the shared
  // counter again, without the lock, when it passes the id on to the queue.
  // ---------------------------------------------------------------------------------------------

  /** The two halves of a call of `schedule`, on whichever thread it runs. */
  datatype Act = Reserve | Publish

  function Count(run: seq<Act>, a: Act): nat {
    if run == [] then 0 else Count(run[..|run| - 1], a) + if run[|run| - 1] == a then 1 else 0
  }

  /** The ids that reach the queue: each `Publish` passes on the counter as it stands. */
  function QueuedIds(run: seq<Act>): (ids: seq<int>)
    ensures |ids| == Count(run, Publish)
  {
    if run == [] then []
    else
      var before := run[..|run| - 1];
      QueuedIds(before) + if run[|run| - 1] == Publish then [Count(before, Reserve)] else []
  }

  /** A publish follows its own reserve, and every call has come to its end. */
  predicate Complete(run: seq<Act>) {
    Count(run, Publish) == Count(run, Reserve) &&
    forall k :: 0 <= k <= |run| ==> Count(run[..k], Publish) <= Count(run[..k], Reserve)
  }

  /** No call starts between the two halves of another. */
  predicate Sequential(run: seq<Act>) {
    |run| % 2 == 0 && forall i :: 0 <= i < |run| ==> run[i] == if i % 2 == 0 then Reserve else Publish
  }

  ghost predicate EveryIdQueued(run: seq<Act>) {
    forall id :: 1 <= id <= Count(run, Reserve) ==> id in QueuedIds(run)
  }

  ghost predicate EveryIdQueuedOnce(run: seq<Act>) {
    forall id :: 1 <= id <= Count(run, Reserve) ==> multiset(QueuedIds(run))[id] == 1
  }

  lemma {:induction false} Pigeonhole(ids: seq<int>, m: nat)
    requires forall id :: 1 <= id <= m ==> id in ids
    ensures m <= |ids|
    decreases m
  {
    if m > 0 {
      assert m in ids;
      var k :| 0 <= k < |ids| && ids[k] == m;
      var rest := RemoveAt(ids, k);
      forall id | 1 <= id <= m - 1 ensures id in rest {
        assert id in ids;
        var i :| 0 <= i < |ids| && ids[i] == id;
        assert rest[if i < k then i else i - 1] == id;
      }
      Pigeonhole(rest, m - 1);
    }
  }

  lemma {:induction false} QueuedIdsInRange(run: seq<Act>)
    ensures forall id :: id in QueuedIds(run) ==> id <= Count(run, Reserve)
    decreases |run|
  {
    if run != [] {
      QueuedIdsInRange(run[..|run| - 1]);
    }
  }

  /** What the last two actions of a run contribute. */
  lemma LastTwo(run: seq<Act>)
    requires |run| >= 2
    ensures var n := |run|;
            var r, a, b := run[..n - 2], run[n - 2], run[n - 1];
            && run == r + [a, b]
            && (forall x :: Count(run, x) == Count(r, x) + (if a == x then 1 else 0) + if b == x then 1 else 0)
            && QueuedIds(run) == QueuedIds(r)
                                 + (if a == Publish then [Count(r, Reserve)] else [])
                                 + if b == Publish then [Count(r, Reserve) + if a == Reserve then 1 else 0] else []
  {
    assert run[..|run| - 1][..|run| - 2] == run[..|run| - 2];
  }

  /** A complete run in which every id reaches the queue ends with one undisturbed call. */
  lemma LastCallUndisturbed(run: seq<Act>)
    requires Complete(run) && run != [] && EveryIdQueued(run)
    ensures |run| >= 2 && run[|run| - 2] == Reserve && run[|run| - 1] == Publish
  {
    var n := |run|;
    assert Count(run[..n - 1], Publish) <= Count(run[..n - 1], Reserve);
    assert n >= 2;
    LastTwo(run);
    var r := run[..n - 2];
    if run[n - 2] == Publish {
      var m := Count(run, Reserve);
      forall id | 1 <= id <= m - 1 ensures id in QueuedIds(r) {
        assert id in QueuedIds(run);
      }
      Pigeonhole(QueuedIds(r), m - 1);
    }
  }

  lemma CompletePrefix(run: seq<Act>)
    requires Complete(run) && |run| >= 2 && run[|run| - 2] == Reserve && run[|run| - 1] == Publish
    ensures Complete(run[..|run| - 2])
  {
    var r := run[..|run| - 2];
    LastTwo(run);
    forall k | 0 <= k <= |r| ensures Count(r[..k], Publish) <= Count(r[..k], Reserve) {
      assert r[..k] == run[..k];
    }
  }

  lemma EarlierIdsQueued(run: seq<Act>)
    requires |run| >= 2 && run[|run| - 2] == Reserve && run[|run| - 1] == Publish && EveryIdQueued(run)
    ensures EveryIdQueued(run[..|run| - 2])
  {
    LastTwo(run);
    var r := run[..|run| - 2];
    forall id | 1 <= id <= Count(r, Reserve) ensures id in QueuedIds(r) {
      assert id in QueuedIds(run);
    }
  }

  lemma {:induction false} AllQueuedMeansSequential(run: seq<Act>)
    requires Complete(run) && EveryIdQueued(run)
    ensures Sequential(run)
    decreases |run|
  {
    if run != [] {
      LastCallUndisturbed(run);
      CompletePrefix(run);
      EarlierIdsQueued(run);
      AllQueuedMeansSequential(run[..|run| - 2]);
    }
  }

  lemma SequentialParts(run: seq<Act>)
    requires Sequential(run) && run != []
    ensures |run| >= 2 && run[|run| - 2] == Reserve && run[|run| - 1] == Publish && Sequential(run[..|run| - 2])
  {
  }

  lemma {:induction false} SequentialQueuesOnce(run: seq<Act>)
    requires Sequential(run)
    ensures EveryIdQueuedOnce(run)
    decreases |run|
  {
    if run != [] {
      SequentialParts(run);
      hide Count, QueuedIds, Sequential;
      SequentialQueuesOnce(run[..|run| - 2]);
      LastTwo(run);
      QueuedIdsInRange(run[..|run| - 2]);
      OneMoreId(QueuedIds(run[..|run| - 2]), QueuedIds(run), Count(run, Reserve));
    }
  }

  lemma OneMoreId(ids: seq<int>, ids': seq<int>, m: int)
    requires ids' == ids + [m]
    requires forall id :: id in ids ==> id <= m - 1
    requires forall id :: 1 <= id <= m - 1 ==> multiset(ids)[id] == 1
    ensures forall id :: 1 <= id <= m ==> multiset(ids')[id] == 1
  {
    assert m !in ids;
    assert m in multiset(ids) <==> m in ids;
  }

  /** Exactly when non-atomic scheduling is safe: of the calls that have come to their end, every
      package reaches the queue if and only if no call started inside another; then each reaches
      it exactly once. In every other run some package is never dispatched. */
  lemma LostPackagesIff(run: seq<Act>)
    requires Complete(run)
    ensures EveryIdQueued(run) <==> Sequential(run)
    ensures EveryIdQueuedOnce(run) <==> Sequential(run)
  {
    if Sequential(run) {
      SequentialQueuesOnce(run);
    }
    if EveryIdQueuedOnce(run) {
      forall id | 1 <= id <= Count(run, Reserve) ensures id in QueuedIds(run) {
        assert id in multiset(QueuedIds(run));
      }
    }
    if EveryIdQueued(run) {
      AllQueuedMeansSequential(run);
    }
  }

  /** The shortest way to lose a package: two calls that overlap queue the second id twice, and the
      package of the first is never dispatched. */
  lemma OverlappingCallsLosePackage()
    ensures var run := [Reserve, Reserve, Publish, Publish];
            Complete(run) && QueuedIds(run) == [2, 2] && !EveryIdQueued(run)
  {
    var run := [Reserve, Reserve, Publish, Publish];
    var r1, r2, r3 := [Reserve], [Reserve, Reserve], [Reserve, Reserve, Publish];
    assert run[..0] == r1[..0] == [] && run[..1] == r2[..1] == r1 && run[..2] == r3[..2] == r2 && run[..3] == r3;
    assert run[..4] == run;
    assert Count(r1, Reserve) == 1 && Count(r1, Publish) == 0 && QueuedIds(r1) == [];
    assert Count(r2, Reserve) == 2 && Count(r2, Publish) == 0 && QueuedIds(r2) == [];
    assert Count(r3, Reserve) == 2 && Count(r3, Publish) == 1 && QueuedIds(r3) == [2];
    assert 1 <= 1 <= Count(run, Reserve) && 1 !in QueuedIds(run);
  }
}
