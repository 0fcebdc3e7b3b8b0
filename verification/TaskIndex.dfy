/** The two mutually inverse multimaps between sessions and threads, as values.

    `sessions` lists the threads of each session, `tasks` the session values of each thread. A
    thread may be listed several times by one session, so the two agree on multiplicities. The
    session value `V` is a reference: two sessions never share one. */
module TaskIndex {
  import opened Arith

  datatype ValEntry<V> = ValEntry(val: V, linkedTasks: seq<int>)

  function ListOf<V>(tasks: map<int, seq<V>>, t: int): seq<V> {
    if t in tasks then tasks[t] else []
  }

  ghost predicate Owned<V>(sessions: map<int, ValEntry<V>>, v: V) {
    exists id :: id in sessions && sessions[id].val == v
  }

  /** No two sessions share a value. */
  ghost predicate ValuesDistinct<V>(sessions: map<int, ValEntry<V>>) {
    forall i, j :: i in sessions && j in sessions && sessions[i].val == sessions[j].val ==> i == j
  }

  ghost predicate NoEmptyList<V>(tasks: map<int, seq<V>>) {
    forall t :: t in tasks ==> tasks[t] != []
  }

  /** No list points to the value of a dead session. */
  ghost predicate AllOwned<V>(sessions: map<int, ValEntry<V>>, tasks: map<int, seq<V>>) {
    forall t, v :: t in tasks && v in tasks[t] ==> Owned(sessions, v)
  }

  /** A session lists a thread as often as the thread lists the session's value. */
  ghost predicate CountsAgree<V>(sessions: map<int, ValEntry<V>>, tasks: map<int, seq<V>>) {
    forall id, t :: id in sessions ==>
      multiset(ListOf(tasks, t))[sessions[id].val] == multiset(sessions[id].linkedTasks)[t]
  }

  ghost predicate Consistent<V>(sessions: map<int, ValEntry<V>>, tasks: map<int, seq<V>>) {
    ValuesDistinct(sessions) && NoEmptyList(tasks) && AllOwned(sessions, tasks) && CountsAgree(sessions, tasks)
  }

  /** `v` occurs in no list. */
  ghost predicate Unlinked<V>(tasks: map<int, seq<V>>, v: V) {
    forall t :: v !in ListOf(tasks, t)
  }

  // The single steps of the code.

  function LinkOne<V>(tasks: map<int, seq<V>>, t: int, v: V): map<int, seq<V>> {
    tasks[t := ListOf(tasks, t) + [v]]
  }

  /** Erases the first occurrence, the one `std::find` returns. */
  function EraseFirst<V(==)>(s: seq<V>, v: V): (r: seq<V>)
    requires v in s
    ensures |r| == |s| - 1
  {
    if s[0] == v then s[1..] else [s[0]] + EraseFirst(s[1..], v)
  }

  /** Erases the first occurrence of `v` from the list of `t`, and the list once it is empty. */
  function UnlinkOne<V(==)>(tasks: map<int, seq<V>>, t: int, v: V): map<int, seq<V>>
    requires v in ListOf(tasks, t)
  {
    var rest := EraseFirst(tasks[t], v);
    if rest == [] then tasks - {t} else tasks[t := rest]
  }

  // What the operations amount to.

  function Copies<V>(v: V, n: nat): (r: seq<V>)
    ensures |r| == n && forall i :: 0 <= i < n ==> r[i] == v
  {
    if n == 0 then [] else Copies(v, n - 1) + [v]
  }

  function Others<V(==)>(s: seq<V>, v: V): (r: seq<V>)
    ensures v !in s ==> r == s
  {
    if s == [] then []
    else if s[0] == v then Others(s[1..], v)
    else
      assert s == [s[0]] + s[1..];
      [s[0]] + Others(s[1..], v)
  }

  /** `v` appended once for every entry of `ids`. */
  ghost function With<V>(tasks: map<int, seq<V>>, v: V, ids: seq<int>): map<int, seq<V>> {
    if ids == [] then tasks
    else LinkOne(With(tasks, v, ids[..|ids| - 1]), ids[|ids| - 1], v)
  }

  /** `v` erased from every list, and the lists that are then empty dropped. */
  ghost function Without<V>(tasks: map<int, seq<V>>, v: V): map<int, seq<V>> {
    map t | t in tasks && Others(tasks[t], v) != [] :: Others(tasks[t], v)
  }

  lemma {:induction false} OthersMember<V>(s: seq<V>, v: V, x: V)
    ensures x in Others(s, v) <==> x in s && x != v
  {
    if s != [] {
      OthersMember(s[1..], v, x);
      assert s == [s[0]] + s[1..];
    }
  }

  /** After linking, the list of each thread has gained `v` as often as the thread is listed. */
  lemma {:induction false} WithLists<V>(tasks: map<int, seq<V>>, v: V, ids: seq<int>, t: int)
    ensures ListOf(With(tasks, v, ids), t) == ListOf(tasks, t) + Copies(v, multiset(ids)[t])
  {
    if ids != [] {
      var n := |ids| - 1;
      WithLists(tasks, v, ids[..n], t);
      CountSnoc(ids, t);
      var c := multiset(ids[..n])[t];
      assert ListOf(tasks, t) + (Copies(v, c) + [v]) == ListOf(tasks, t) + Copies(v, c) + [v];
    }
  }

  lemma CountSnoc(ids: seq<int>, t: int)
    requires ids != []
    ensures multiset(ids)[t] == multiset(ids[..|ids| - 1])[t] + if ids[|ids| - 1] == t then 1 else 0
  {
    var n := |ids| - 1;
    assert ids == ids[..n] + [ids[n]];
  }

  lemma {:induction false} WithKeys<V>(tasks: map<int, seq<V>>, v: V, ids: seq<int>, t: int)
    ensures t in With(tasks, v, ids) <==> t in tasks || t in ids
  {
    if ids != [] {
      var n := |ids| - 1;
      WithKeys(tasks, v, ids[..n], t);
      assert ids == ids[..n] + [ids[n]];
    }
  }

  lemma {:induction false} OthersConcat<V>(a: seq<V>, b: seq<V>, v: V)
    ensures Others(a + b, v) == Others(a, v) + Others(b, v)
    decreases |a|
  {
    if a == [] {
      assert a + b == b;
    } else {
      assert (a + b)[1..] == a[1..] + b;
      OthersConcat(a[1..], b, v);
    }
  }

  lemma {:induction false} OthersOfCopies<V>(v: V, n: nat)
    ensures Others(Copies(v, n), v) == []
  {
    if n > 0 {
      OthersOfCopies(v, n - 1);
      OthersConcat(Copies(v, n - 1), [v], v);
    }
  }

  lemma {:induction false} OthersOfErased<V>(s: seq<V>, v: V)
    requires v in s
    ensures Others(EraseFirst(s, v), v) == Others(s, v)
    ensures multiset(EraseFirst(s, v)) == multiset(s) - multiset{v}
  {
    assert s == [s[0]] + s[1..];
    if s[0] != v {
      OthersOfErased(s[1..], v);
      assert EraseFirst(s, v)[1..] == EraseFirst(s[1..], v);
    }
  }

  /** Erasing an occurrence of `v` leaves the lists of all other values alone. */
  lemma UnlinkKeepsOthers<V>(tasks: map<int, seq<V>>, t: int, v: V)
    requires v in ListOf(tasks, t)
    ensures Without(UnlinkOne(tasks, t, v), v) == Without(tasks, v)
  {
    OthersOfErased(tasks[t], v);
  }

  lemma UnlinkKeepsOtherThreads<V>(tasks: map<int, seq<V>>, t: int, v: V, x: int)
    requires v in ListOf(tasks, t) && x != t
    ensures ListOf(UnlinkOne(tasks, t, v), x) == ListOf(tasks, x)
  {
  }

  lemma WithoutUnlinked<V>(tasks: map<int, seq<V>>, v: V)
    requires NoEmptyList(tasks)
    requires Unlinked(tasks, v)
    ensures Without(tasks, v) == tasks
  {
    forall t | t in tasks ensures Others(tasks[t], v) == tasks[t] && t in Without(tasks, v) {
      assert v !in ListOf(tasks, t);
    }
  }

  /** Removing a session that was just added restores the thread map exactly. */
  lemma AddThenRemove<V>(tasks: map<int, seq<V>>, v: V, ids: seq<int>)
    requires NoEmptyList(tasks)
    requires Unlinked(tasks, v)
    ensures Without(With(tasks, v, ids), v) == tasks
  {
    forall t
      ensures Others(ListOf(With(tasks, v, ids), t), v) == ListOf(tasks, t)
      ensures t in tasks ==> t in With(tasks, v, ids)
    {
      OthersOfLinked(tasks, v, ids, t);
      WithKeys(tasks, v, ids, t);
    }
    SameLists(With(tasks, v, ids), v, tasks);
  }

  lemma OthersOfLinked<V>(tasks: map<int, seq<V>>, v: V, ids: seq<int>, t: int)
    requires v !in ListOf(tasks, t)
    ensures Others(ListOf(With(tasks, v, ids), t), v) == ListOf(tasks, t)
  {
    var n := multiset(ids)[t];
    WithLists(tasks, v, ids, t);
    OthersConcat(ListOf(tasks, t), Copies(v, n), v);
    OthersOfCopies(v, n);
  }

  lemma SameLists<V>(m: map<int, seq<V>>, v: V, tasks: map<int, seq<V>>)
    requires NoEmptyList(tasks)
    requires forall t :: Others(ListOf(m, t), v) == ListOf(tasks, t)
    requires forall t :: t in tasks ==> t in m
    ensures Without(m, v) == tasks
  {
    var w := Without(m, v);
    forall t | t in w ensures t in tasks && w[t] == tasks[t] {
      assert Others(ListOf(m, t), v) == ListOf(tasks, t);
    }
    forall t | t in tasks ensures t in w {
      assert Others(ListOf(m, t), v) == ListOf(tasks, t);
    }
    assert w.Keys <= tasks.Keys && tasks.Keys <= w.Keys;
  }

  lemma CountZero<V>(s: seq<V>, v: V)
    ensures multiset(s)[v] == 0 <==> v !in s
  {
    assert v in multiset(s) <==> v in s;
  }

  // Each single step keeps the two maps consistent.

  lemma LinkKeeps<V>(sessions: map<int, ValEntry<V>>, tasks: map<int, seq<V>>, id: int, t: int)
    requires Consistent(sessions, tasks) && id in sessions
    ensures var e := sessions[id];
            Consistent(sessions[id := e.(linkedTasks := e.linkedTasks + [t])], LinkOne(tasks, t, e.val))
  {
    LinkKeepsOwners(sessions, tasks, id, t);
    LinkKeepsCounts(sessions, tasks, id, t);
    hide CountsAgree, AllOwned;
  }

  lemma LinkKeepsOwners<V>(sessions: map<int, ValEntry<V>>, tasks: map<int, seq<V>>, id: int, t: int)
    requires AllOwned(sessions, tasks) && id in sessions
    ensures var e := sessions[id];
            AllOwned(sessions[id := e.(linkedTasks := e.linkedTasks + [t])], LinkOne(tasks, t, e.val))
  {
    var e := sessions[id];
    var sessions' := sessions[id := e.(linkedTasks := e.linkedTasks + [t])];
    var tasks' := LinkOne(tasks, t, e.val);
    forall x, v | x in tasks' && v in tasks'[x] ensures Owned(sessions', v) {
      if v == e.val {
        assert sessions'[id].val == v;
      } else {
        assert x in tasks && v in tasks[x];
        assert Owned(sessions, v);
        var j :| j in sessions && sessions[j].val == v;
        assert sessions'[j].val == v;
      }
    }
  }

  lemma LinkKeepsCounts<V>(sessions: map<int, ValEntry<V>>, tasks: map<int, seq<V>>, id: int, t: int)
    requires CountsAgree(sessions, tasks) && ValuesDistinct(sessions) && id in sessions
    ensures var e := sessions[id];
            CountsAgree(sessions[id := e.(linkedTasks := e.linkedTasks + [t])], LinkOne(tasks, t, e.val))
  {
    var e := sessions[id];
    var sessions' := sessions[id := e.(linkedTasks := e.linkedTasks + [t])];
    var tasks' := LinkOne(tasks, t, e.val);
    forall j, x | j in sessions'
      ensures multiset(ListOf(tasks', x))[sessions'[j].val] == multiset(sessions'[j].linkedTasks)[x]
    {
      assert multiset(ListOf(tasks, x))[sessions[j].val] == multiset(sessions[j].linkedTasks)[x];
    }
  }

  lemma LinkedThere<V>(sessions: map<int, ValEntry<V>>, tasks: map<int, seq<V>>, id: int, k: nat)
    requires Consistent(sessions, tasks) && id in sessions && k < |sessions[id].linkedTasks|
    ensures var t := sessions[id].linkedTasks[k];
            t in tasks && sessions[id].val in tasks[t]
  {
    var t := sessions[id].linkedTasks[k];
    assert t in multiset(sessions[id].linkedTasks);
    assert multiset(ListOf(tasks, t))[sessions[id].val] == multiset(sessions[id].linkedTasks)[t];
    CountZero(ListOf(tasks, t), sessions[id].val);
  }

  lemma UnlinkedCounts<V>(tasks: map<int, seq<V>>, t: int, v: V, x: int, w: V)
    requires v in ListOf(tasks, t)
    ensures multiset(ListOf(UnlinkOne(tasks, t, v), x))[w] ==
            multiset(ListOf(tasks, x))[w] - if x == t && w == v then 1 else 0
  {
    if x == t {
      OthersOfErased(tasks[t], v);
      assert ListOf(UnlinkOne(tasks, t, v), t) == EraseFirst(tasks[t], v);
      assert multiset(tasks[t])[v] > 0;
    }
  }

  lemma UnlinkKeeps<V>(sessions: map<int, ValEntry<V>>, tasks: map<int, seq<V>>, id: int, k: nat)
    requires Consistent(sessions, tasks) && id in sessions && k < |sessions[id].linkedTasks|
    ensures var e := sessions[id];
            var t := e.linkedTasks[k];
            e.val in ListOf(tasks, t) &&
            Consistent(sessions[id := e.(linkedTasks := RemoveAt(e.linkedTasks, k))], UnlinkOne(tasks, t, e.val))
  {
    LinkedThere(sessions, tasks, id, k);
    UnlinkKeepsOwners(sessions, tasks, id, k);
    UnlinkKeepsCounts(sessions, tasks, id, k);
  }

  lemma UnlinkKeepsOwners<V>(sessions: map<int, ValEntry<V>>, tasks: map<int, seq<V>>, id: int, k: nat)
    requires id in sessions && k < |sessions[id].linkedTasks|
    requires AllOwned(sessions, tasks) && sessions[id].val in ListOf(tasks, sessions[id].linkedTasks[k])
    ensures var e := sessions[id];
            AllOwned(sessions[id := e.(linkedTasks := RemoveAt(e.linkedTasks, k))],
                     UnlinkOne(tasks, e.linkedTasks[k], e.val))
  {
    var e := sessions[id];
    var t := e.linkedTasks[k];
    var sessions' := sessions[id := e.(linkedTasks := RemoveAt(e.linkedTasks, k))];
    var tasks' := UnlinkOne(tasks, t, e.val);
    forall x, v | x in tasks' && v in tasks'[x] ensures Owned(sessions', v) {
      StillListed(tasks, t, e.val, x, v);
      assert Owned(sessions, v);
      var j :| j in sessions && sessions[j].val == v;
      assert sessions'[j].val == v;
    }
  }

  lemma UnlinkKeepsCounts<V>(sessions: map<int, ValEntry<V>>, tasks: map<int, seq<V>>, id: int, k: nat)
    requires id in sessions && k < |sessions[id].linkedTasks| && ValuesDistinct(sessions)
    requires CountsAgree(sessions, tasks) && sessions[id].val in ListOf(tasks, sessions[id].linkedTasks[k])
    ensures var e := sessions[id];
            CountsAgree(sessions[id := e.(linkedTasks := RemoveAt(e.linkedTasks, k))],
                        UnlinkOne(tasks, e.linkedTasks[k], e.val))
  {
    var e := sessions[id];
    var t := e.linkedTasks[k];
    var sessions' := sessions[id := e.(linkedTasks := RemoveAt(e.linkedTasks, k))];
    var tasks' := UnlinkOne(tasks, t, e.val);
    RemoveAtMultiset(e.linkedTasks, k);
    forall j, x | j in sessions'
      ensures multiset(ListOf(tasks', x))[sessions'[j].val] == multiset(sessions'[j].linkedTasks)[x]
    {
      UnlinkedCounts(tasks, t, e.val, x, sessions[j].val);
      assert multiset(ListOf(tasks, x))[sessions[j].val] == multiset(sessions[j].linkedTasks)[x];
    }
  }

  lemma StillListed<V>(tasks: map<int, seq<V>>, t: int, v: V, x: int, w: V)
    requires v in ListOf(tasks, t)
    requires w in ListOf(UnlinkOne(tasks, t, v), x)
    ensures w in ListOf(tasks, x)
  {
    UnlinkedCounts(tasks, t, v, x, w);
    CountZero(ListOf(UnlinkOne(tasks, t, v), x), w);
    CountZero(ListOf(tasks, x), w);
  }

  lemma NewSessionKeeps<V>(sessions: map<int, ValEntry<V>>, tasks: map<int, seq<V>>, id: int, v: V)
    requires Consistent(sessions, tasks) && id !in sessions && !Owned(sessions, v)
    ensures Consistent(sessions[id := ValEntry(v, [])], tasks) && Unlinked(tasks, v)
  {
    var sessions' := sessions[id := ValEntry(v, [])];
    assert Unlinked(tasks, v);
    forall x, w | x in tasks && w in tasks[x] ensures Owned(sessions', w) {
      assert Owned(sessions, w);
      var j :| j in sessions && sessions[j].val == w;
      assert sessions'[j].val == w;
    }
    forall j, x | j in sessions'
      ensures multiset(ListOf(tasks, x))[sessions'[j].val] == multiset(sessions'[j].linkedTasks)[x]
    {
      CountZero(ListOf(tasks, x), v);
      if j != id {
        assert multiset(ListOf(tasks, x))[sessions[j].val] == multiset(sessions[j].linkedTasks)[x];
      }
    }
  }

  lemma EmptySessionUnlinked<V>(sessions: map<int, ValEntry<V>>, tasks: map<int, seq<V>>, id: int)
    requires Consistent(sessions, tasks) && id in sessions && sessions[id].linkedTasks == []
    ensures Unlinked(tasks, sessions[id].val) && Consistent(sessions - {id}, tasks)
  {
    var e := sessions[id];
    forall x ensures e.val !in ListOf(tasks, x) {
      assert multiset(ListOf(tasks, x))[e.val] == multiset(e.linkedTasks)[x];
      CountZero(ListOf(tasks, x), e.val);
    }
    forall x, w | x in tasks && w in tasks[x] ensures Owned(sessions - {id}, w) {
      assert Owned(sessions, w);
      var j :| j in sessions && sessions[j].val == w;
      assert e.val !in ListOf(tasks, x);
      assert (sessions - {id})[j].val == w;
    }
  }

  /** A thread that drops out when a session is removed was listed by that session. */
  lemma DroppedWasLinked<V>(sessions: map<int, ValEntry<V>>, tasks: map<int, seq<V>>, id: int, t: int)
    requires Consistent(sessions, tasks) && id in sessions
    requires t in tasks && t !in Without(tasks, sessions[id].val)
    ensures t in sessions[id].linkedTasks
  {
    var v := sessions[id].val;
    assert tasks[t] != [];
    OthersMember(tasks[t], v, tasks[t][0]);
    assert v in tasks[t];
    CountZero(tasks[t], v);
    assert multiset(ListOf(tasks, t))[v] == multiset(sessions[id].linkedTasks)[t];
    CountZero(sessions[id].linkedTasks, t);
  }

  /** A thread stays in the map when a session is removed exactly if another session lists it. */
  lemma KeptIffShared<V>(sessions: map<int, ValEntry<V>>, tasks: map<int, seq<V>>, id: int, t: int)
    requires Consistent(sessions, tasks) && id in sessions
    ensures t in Without(tasks, sessions[id].val) <==>
            exists j :: j in sessions && j != id && t in sessions[j].linkedTasks
  {
    var v := sessions[id].val;
    if t in Without(tasks, v) {
      var w := Others(tasks[t], v)[0];
      OthersMember(tasks[t], v, w);
      assert Owned(sessions, w);
      var j :| j in sessions && sessions[j].val == w;
      CountZero(tasks[t], w);
      assert multiset(ListOf(tasks, t))[sessions[j].val] == multiset(sessions[j].linkedTasks)[t];
      CountZero(sessions[j].linkedTasks, t);
    }
    if j :| j in sessions && j != id && t in sessions[j].linkedTasks {
      CountZero(sessions[j].linkedTasks, t);
      assert multiset(ListOf(tasks, t))[sessions[j].val] == multiset(sessions[j].linkedTasks)[t];
      CountZero(ListOf(tasks, t), sessions[j].val);
      OthersMember(tasks[t], v, sessions[j].val);
    }
  }
}
