/** How the votes of all sessions that share a thread combine into one clamp for that thread
    (SessionTaskMap::getTaskVoteRange, Votes::getUclampRange, set_uclamp). */
module TaskVoteRange {
  import opened Arith
  import opened UclampVoter

  /** What the combination reads of one session. */
  datatype SessionView = SessionView(isActive: bool, isPowerEfficient: bool, votes: VoteTable)

  /** The two efficiency settings of the configuration, which are set together. */
  datatype EfficiencyCap = EfficiencyCap(base: int, offset: int)

  ghost function Narrow(r: UclampRange, votes: VoteTable, t: int): UclampRange {
    UclampRange(Highest(r.uclampMin, votes.LiveMins(t)), Lowest(r.uclampMax, votes.LiveMaxs(t)))
  }

  ghost function AddSession(r: UclampRange, s: SessionView, t: int, cap: Option<EfficiencyCap>): UclampRange {
    if !s.isActive then r
    else
      var n := Narrow(r, s.votes, t);
      if s.isPowerEfficient && cap.Some? then
        n.(uclampMax := Min(n.uclampMax, if s.votes.AnyLive(t) then n.uclampMin + cap.value.offset else cap.value.base))
      else n
  }

  /** The range left after visiting the sessions in list order, starting from `r`. */
  ghost function RangeAfter(r: UclampRange, ss: seq<SessionView>, t: int, cap: Option<EfficiencyCap>): UclampRange {
    if ss == [] then r
    else AddSession(RangeAfter(r, ss[..|ss| - 1], t, cap), ss[|ss| - 1], t, cap)
  }

  lemma RangeAfterSnoc(r: UclampRange, ss: seq<SessionView>, s: SessionView, t: int, cap: Option<EfficiencyCap>)
    ensures RangeAfter(r, ss + [s], t, cap) == AddSession(RangeAfter(r, ss, t, cap), s, t, cap)
  {
    assert (ss + [s])[..|ss|] == ss;
  }

  /** Lower clamps of all CPU votes in force of the active sessions. */
  ghost function Mins(ss: seq<SessionView>, t: int): set<int> {
    set i, x | 0 <= i < |ss| && ss[i].isActive && x in ss[i].votes.LiveMins(t) :: x
  }

  /** Upper clamps of all CPU votes in force of the active sessions. */
  ghost function Maxs(ss: seq<SessionView>, t: int): set<int> {
    set i, x | 0 <= i < |ss| && ss[i].isActive && x in ss[i].votes.LiveMaxs(t) :: x
  }

  ghost predicate Capping(s: SessionView) {
    s.isActive && s.isPowerEfficient
  }

  /** The lower clamp accumulated once session `i` has been visited. */
  ghost function RunningMin(r: UclampRange, ss: seq<SessionView>, t: int, cap: Option<EfficiencyCap>, i: nat): int
    requires i < |ss|
  {
    RangeAfter(r, ss[..i + 1], t, cap).uclampMin
  }

  /** The cap that power-efficient session `i` imposes. */
  ghost function CapAt(r: UclampRange, ss: seq<SessionView>, t: int, cap: EfficiencyCap, i: nat): int
    requires i < |ss|
  {
    if ss[i].votes.AnyLive(t) then RunningMin(r, ss, t, Some(cap), i) + cap.offset else cap.base
  }

  ghost function Caps(r: UclampRange, ss: seq<SessionView>, t: int, cap: Option<EfficiencyCap>): set<int> {
    if cap.None? then {}
    else set i | 0 <= i < |ss| && Capping(ss[i]) :: CapAt(r, ss, t, cap.value, i)
  }

  lemma MinsSnoc(ss: seq<SessionView>, t: int)
    requires ss != []
    ensures var n := |ss| - 1;
            Mins(ss, t) == Mins(ss[..n], t) + if ss[n].isActive then ss[n].votes.LiveMins(t) else {}
    ensures var n := |ss| - 1;
            Maxs(ss, t) == Maxs(ss[..n], t) + if ss[n].isActive then ss[n].votes.LiveMaxs(t) else {}
  {
    var n := |ss| - 1;
    assert forall i :: 0 <= i < n ==> ss[..n][i] == ss[i];
    forall x | x in Mins(ss, t)
      ensures x in Mins(ss[..n], t) || (ss[n].isActive && x in ss[n].votes.LiveMins(t))
    {
      var i :| 0 <= i < |ss| && ss[i].isActive && x in ss[i].votes.LiveMins(t);
      if i < n { assert ss[..n][i] == ss[i]; }
    }
    forall x | x in Maxs(ss, t)
      ensures x in Maxs(ss[..n], t) || (ss[n].isActive && x in ss[n].votes.LiveMaxs(t))
    {
      var i :| 0 <= i < |ss| && ss[i].isActive && x in ss[i].votes.LiveMaxs(t);
      if i < n { assert ss[..n][i] == ss[i]; }
    }
  }

  lemma CapsSnoc(r: UclampRange, ss: seq<SessionView>, t: int, cap: EfficiencyCap)
    requires ss != []
    ensures var n := |ss| - 1;
            Caps(r, ss, t, Some(cap)) ==
            Caps(r, ss[..n], t, Some(cap)) + if Capping(ss[n]) then {CapAt(r, ss, t, cap, n)} else {}
  {
    var n := |ss| - 1;
    forall i | 0 <= i < n
      ensures ss[..n][i] == ss[i] && CapAt(r, ss[..n], t, cap, i) == CapAt(r, ss, t, cap, i)
    {
      assert ss[..n][..i + 1] == ss[..i + 1];
    }
  }

  /** The lower clamp is the maximum over all votes in force of the active sessions, whatever
      the list order and whatever the efficiency settings. */
  lemma {:induction false} MinIsHighest(r: UclampRange, ss: seq<SessionView>, t: int, cap: Option<EfficiencyCap>)
    ensures IsHighest(RangeAfter(r, ss, t, cap).uclampMin, r.uclampMin, Mins(ss, t))
  {
    if ss != [] {
      var n := |ss| - 1;
      var before := RangeAfter(r, ss[..n], t, cap);
      MinIsHighest(r, ss[..n], t, cap);
      MinsSnoc(ss, t);
      var own := if ss[n].isActive then ss[n].votes.LiveMins(t) else {};
      HighestOfUnion(before.uclampMin, Highest(before.uclampMin, own), r.uclampMin, Mins(ss[..n], t), own);
    }
  }

  /** The cap that one session imposes when visited with range `r`. */
  ghost function OwnCap(r: UclampRange, s: SessionView, t: int, cap: Option<EfficiencyCap>): set<int> {
    if Capping(s) && cap.Some? then
      {if s.votes.AnyLive(t) then AddSession(r, s, t, cap).uclampMin + cap.value.offset else cap.value.base}
    else {}
  }

  /** The upper bounds that one session contributes when visited with range `r`. */
  ghost function OwnBounds(r: UclampRange, s: SessionView, t: int, cap: Option<EfficiencyCap>): set<int> {
    (if s.isActive then s.votes.LiveMaxs(t) else {}) + OwnCap(r, s, t, cap)
  }

  lemma AddSessionMax(r: UclampRange, s: SessionView, t: int, cap: Option<EfficiencyCap>)
    ensures IsLowest(AddSession(r, s, t, cap).uclampMax, r.uclampMax, OwnBounds(r, s, t, cap))
  {
  }

  lemma CapsOwn(r: UclampRange, ss: seq<SessionView>, t: int, cap: Option<EfficiencyCap>)
    requires ss != []
    ensures var n := |ss| - 1;
            Caps(r, ss, t, cap) == Caps(r, ss[..n], t, cap) + OwnCap(RangeAfter(r, ss[..n], t, cap), ss[n], t, cap)
  {
    var n := |ss| - 1;
    if cap.Some? {
      CapsSnoc(r, ss, t, cap.value);
      assert ss[..n + 1] == ss;
      hide Caps, Narrow;
      assert RunningMin(r, ss, t, cap, n) == AddSession(RangeAfter(r, ss[..n], t, cap), ss[n], t, cap).uclampMin;
    }
  }

  lemma BoundsSnoc(r: UclampRange, ss: seq<SessionView>, t: int, cap: Option<EfficiencyCap>)
    requires ss != []
    ensures var n := |ss| - 1;
            Maxs(ss, t) + Caps(r, ss, t, cap) ==
            Maxs(ss[..n], t) + Caps(r, ss[..n], t, cap) + OwnBounds(RangeAfter(r, ss[..n], t, cap), ss[n], t, cap)
  {
    hide Maxs, Caps, OwnCap, RangeAfter;
    MinsSnoc(ss, t);
    CapsOwn(r, ss, t, cap);
  }

  /** The upper clamp is the minimum over the votes in force and the efficiency caps. */
  lemma {:induction false} MaxIsLowest(r: UclampRange, ss: seq<SessionView>, t: int, cap: Option<EfficiencyCap>)
    ensures IsLowest(RangeAfter(r, ss, t, cap).uclampMax, r.uclampMax, Maxs(ss, t) + Caps(r, ss, t, cap))
  {
    if ss != [] {
      var n := |ss| - 1;
      var before := RangeAfter(r, ss[..n], t, cap);
      MaxIsLowest(r, ss[..n], t, cap);
      AddSessionMax(before, ss[n], t, cap);
      LowestOfUnion(before.uclampMax, AddSession(before, ss[n], t, cap).uclampMax, r.uclampMax,
                    Maxs(ss[..n], t) + Caps(r, ss[..n], t, cap), OwnBounds(before, ss[n], t, cap));
      BoundsSnoc(r, ss, t, cap);
    }
  }

  /** The running lower clamp never falls along the list. */
  lemma {:induction false} RunningMinGrows(r: UclampRange, ss: seq<SessionView>, t: int, cap: Option<EfficiencyCap>,
                                           i: nat, j: nat)
    requires i <= j < |ss|
    ensures RunningMin(r, ss, t, cap, i) <= RunningMin(r, ss, t, cap, j)
    decreases j - i
  {
    if i < j {
      RunningMinGrows(r, ss, t, cap, i, j - 1);
      assert ss[..j + 1][..|ss[..j + 1]| - 1] == ss[..j];
    }
  }

  /** Two lists of the same sessions give the same vote sets. */
  lemma SameSessionsSameVotes(ss: seq<SessionView>, ss': seq<SessionView>, t: int)
    requires multiset(ss) == multiset(ss')
    ensures Mins(ss, t) == Mins(ss', t) && Maxs(ss, t) == Maxs(ss', t)
  {
    forall s ensures s in ss <==> s in ss' {
      assert s in multiset(ss) <==> s in multiset(ss');
    }
    VotesByMembership(ss, ss', t);
    VotesByMembership(ss', ss, t);
  }

  lemma VotesByMembership(ss: seq<SessionView>, ss': seq<SessionView>, t: int)
    requires forall s :: s in ss ==> s in ss'
    ensures Mins(ss, t) <= Mins(ss', t) && Maxs(ss, t) <= Maxs(ss', t)
  {
    forall x | x in Mins(ss, t) ensures x in Mins(ss', t) {
      var i :| 0 <= i < |ss| && ss[i].isActive && x in ss[i].votes.LiveMins(t);
      assert ss[i] in ss';
      var j :| 0 <= j < |ss'| && ss'[j] == ss[i];
    }
    forall x | x in Maxs(ss, t) ensures x in Maxs(ss', t) {
      var i :| 0 <= i < |ss| && ss[i].isActive && x in ss[i].votes.LiveMaxs(t);
      assert ss[i] in ss';
      var j :| 0 <= j < |ss'| && ss'[j] == ss[i];
    }
  }

  /** Order freedom: the lower clamp never depends on the order in which the sessions are listed,
      and the upper clamp does not when no active session is power efficient. */
  lemma OrderFree(r: UclampRange, ss: seq<SessionView>, ss': seq<SessionView>, t: int, cap: Option<EfficiencyCap>)
    requires multiset(ss) == multiset(ss')
    ensures RangeAfter(r, ss, t, cap).uclampMin == RangeAfter(r, ss', t, cap).uclampMin
    ensures (cap.None? || forall s :: s in ss ==> !Capping(s)) ==>
              RangeAfter(r, ss, t, cap) == RangeAfter(r, ss', t, cap)
  {
    SameSessionsSameVotes(ss, ss', t);
    MinIsHighest(r, ss, t, cap);
    MinIsHighest(r, ss', t, cap);
    MaxIsLowest(r, ss, t, cap);
    MaxIsLowest(r, ss', t, cap);
    if cap.None? || forall s :: s in ss ==> !Capping(s) {
      forall i | 0 <= i < |ss'| ensures ss'[i] in ss {
        assert ss'[i] in multiset(ss');
      }
      assert Caps(r, ss, t, cap) == {} && Caps(r, ss', t, cap) == {};
    }
  }

  /** Every power-efficient active session bounds the upper clamp: by the base once all of its
      votes have timed out, and otherwise by the final lower clamp plus the offset. */
  lemma EfficiencyBound(r: UclampRange, ss: seq<SessionView>, t: int, cap: EfficiencyCap, i: nat)
    requires i < |ss| && Capping(ss[i])
    ensures var res := RangeAfter(r, ss, t, Some(cap));
            res.uclampMax <= if ss[i].votes.AnyLive(t) then res.uclampMin + cap.offset else cap.base
  {
    MaxIsLowest(r, ss, t, Some(cap));
    assert CapAt(r, ss, t, cap, i) in Caps(r, ss, t, Some(cap));
    RunningMinGrows(r, ss, t, Some(cap), i, |ss| - 1);
    assert ss[..|ss|] == ss;
  }

  /** Session `i` is the first power-efficient one in the list that still has a vote in force. */
  ghost predicate FirstLiveCapping(ss: seq<SessionView>, t: int, i: nat) {
    i < |ss| && Capping(ss[i]) && ss[i].votes.AnyLive(t) &&
    forall j :: 0 <= j < i ==> !(Capping(ss[j]) && ss[j].votes.AnyLive(t))
  }

  /** All upper bounds that do not depend on the list order. */
  ghost function FixedBounds(ss: seq<SessionView>, t: int, cap: EfficiencyCap): set<int> {
    Maxs(ss, t) + (set i | 0 <= i < |ss| && Capping(ss[i]) && !ss[i].votes.AnyLive(t) :: cap.base)
  }

  /** Closed form of the capped upper clamp: of all live power-efficient sessions only the first
      one in list order matters. */
  lemma CappedMax(r: UclampRange, ss: seq<SessionView>, t: int, cap: EfficiencyCap, first: nat)
    requires FirstLiveCapping(ss, t, first)
    ensures RangeAfter(r, ss, t, Some(cap)).uclampMax ==
            Min(Lowest(r.uclampMax, FixedBounds(ss, t, cap)), RunningMin(r, ss, t, Some(cap), first) + cap.offset)
  {
    MaxIsLowest(r, ss, t, Some(cap));
    var caps := Caps(r, ss, t, Some(cap));
    var m := RangeAfter(r, ss, t, Some(cap)).uclampMax;
    var low := Lowest(r.uclampMax, FixedBounds(ss, t, cap));
    var head := RunningMin(r, ss, t, Some(cap), first) + cap.offset;
    assert head == CapAt(r, ss, t, cap, first) && head in caps;
    forall x | x in FixedBounds(ss, t, cap) ensures m <= x {
      if x !in Maxs(ss, t) {
        var i :| 0 <= i < |ss| && Capping(ss[i]) && !ss[i].votes.AnyLive(t) && x == cap.base;
        assert CapAt(r, ss, t, cap, i) in caps;
      }
    }
    forall x | x in caps ensures head <= x || x in FixedBounds(ss, t, cap) {
      var i :| 0 <= i < |ss| && Capping(ss[i]) && x == CapAt(r, ss, t, cap, i);
      if ss[i].votes.AnyLive(t) { RunningMinGrows(r, ss, t, Some(cap), first, i); }
    }
  }

  /** Exactly when the capped upper clamp equals its order-free counterpart, the one computed with
      the final lower clamp: when the lower clamp is already complete at the first live
      power-efficient session, or some other bound is at least as tight there. */
  lemma CappedMaxOrderFreeIff(r: UclampRange, ss: seq<SessionView>, t: int, cap: EfficiencyCap, first: nat)
    requires FirstLiveCapping(ss, t, first)
    ensures var res := RangeAfter(r, ss, t, Some(cap));
            var fixedBound := Lowest(r.uclampMax, FixedBounds(ss, t, cap));
            var head := RunningMin(r, ss, t, Some(cap), first);
            res.uclampMax == Min(fixedBound, res.uclampMin + cap.offset) <==>
            (head == res.uclampMin || fixedBound <= head + cap.offset)
  {
    CappedMax(r, ss, t, cap, first);
    FinalMin(r, ss, t, Some(cap), first);
    TighterMin(Lowest(r.uclampMax, FixedBounds(ss, t, cap)), cap.offset,
               RunningMin(r, ss, t, Some(cap), first), RangeAfter(r, ss, t, Some(cap)).uclampMin);
  }

  lemma FinalMin(r: UclampRange, ss: seq<SessionView>, t: int, cap: Option<EfficiencyCap>, i: nat)
    requires i < |ss|
    ensures RunningMin(r, ss, t, cap, i) <= RangeAfter(r, ss, t, cap).uclampMin
  {
    RunningMinGrows(r, ss, t, cap, i, |ss| - 1);
    assert ss[..|ss|] == ss;
  }

  lemma TighterMin(bound: int, offset: int, a: int, b: int)
    requires a <= b
    ensures Min(bound, a + offset) == Min(bound, b + offset) <==> (a == b || bound <= a + offset)
  {
  }

  // ---------------------------------------------------------------------------------------------
  // All orders
  // ---------------------------------------------------------------------------------------------

  ghost predicate LiveCapping(s: SessionView, t: int) {
    Capping(s) && s.votes.AnyLive(t)
  }

  /** The lower clamp that a session, visited first, leaves behind. */
  ghost function OwnMin(r: UclampRange, s: SessionView, t: int, cap: EfficiencyCap): int {
    AddSession(r, s, t, Some(cap)).uclampMin
  }

  /** Every order of the sessions gives the same upper clamp. */
  ghost predicate EveryOrderAgrees(r: UclampRange, ss: seq<SessionView>, t: int, cap: EfficiencyCap) {
    forall ss' :: multiset(ss') == multiset(ss) ==>
                    RangeAfter(r, ss', t, Some(cap)).uclampMax == RangeAfter(r, ss, t, Some(cap)).uclampMax
  }

  /** No live capping session brings the upper clamp down by being visited before the lower clamp is
      complete: its own lower clamp is the final one, or another bound is at least as tight. */
  ghost predicate NoneCapsEarly(r: UclampRange, ss: seq<SessionView>, t: int, cap: EfficiencyCap) {
    forall s :: s in ss && LiveCapping(s, t) ==>
                  || OwnMin(r, s, t, cap) == RangeAfter(r, ss, t, Some(cap)).uclampMin
                  || Lowest(r.uclampMax, FixedBounds(ss, t, cap)) <= OwnMin(r, s, t, cap) + cap.offset
  }

  lemma SameFixedBounds(ss: seq<SessionView>, ss': seq<SessionView>, t: int, cap: EfficiencyCap)
    requires multiset(ss) == multiset(ss')
    ensures FixedBounds(ss, t, cap) == FixedBounds(ss', t, cap)
  {
    SameSessionsSameVotes(ss, ss', t);
    SameMembers(ss, ss');
    FixedByMembership(ss, ss', t, cap);
    FixedByMembership(ss', ss, t, cap);
  }

  lemma SameMembers(ss: seq<SessionView>, ss': seq<SessionView>)
    requires multiset(ss) == multiset(ss')
    ensures forall s :: s in ss <==> s in ss'
  {
    forall s ensures s in ss <==> s in ss' {
      assert s in multiset(ss) <==> s in multiset(ss');
    }
  }

  lemma FixedByMembership(ss: seq<SessionView>, ss': seq<SessionView>, t: int, cap: EfficiencyCap)
    requires Maxs(ss, t) == Maxs(ss', t) && forall s :: s in ss ==> s in ss'
    ensures FixedBounds(ss, t, cap) <= FixedBounds(ss', t, cap)
  {
    forall x | x in FixedBounds(ss, t, cap) ensures x in FixedBounds(ss', t, cap) {
      if x !in Maxs(ss, t) {
        var i :| 0 <= i < |ss| && Capping(ss[i]) && !ss[i].votes.AnyLive(t) && x == cap.base;
        assert ss[i] in ss';
        var j :| 0 <= j < |ss'| && ss'[j] == ss[i];
      }
    }
  }

  /** The upper clamp without any live capping session is the fixed bound. */
  lemma UncappedMax(r: UclampRange, ss: seq<SessionView>, t: int, cap: EfficiencyCap)
    requires forall s :: s in ss ==> !LiveCapping(s, t)
    ensures RangeAfter(r, ss, t, Some(cap)).uclampMax == Lowest(r.uclampMax, FixedBounds(ss, t, cap))
  {
    MaxIsLowest(r, ss, t, Some(cap));
    var caps := Caps(r, ss, t, Some(cap));
    forall x | x in caps ensures x in FixedBounds(ss, t, cap) {
      var i :| 0 <= i < |ss| && Capping(ss[i]) && x == CapAt(r, ss, t, cap, i);
      assert ss[i] in ss && !LiveCapping(ss[i], t);
    }
    forall x | x in FixedBounds(ss, t, cap) ensures x in Maxs(ss, t) + caps {
      if x !in Maxs(ss, t) {
        var i :| 0 <= i < |ss| && Capping(ss[i]) && !ss[i].votes.AnyLive(t) && x == cap.base;
        assert CapAt(r, ss, t, cap, i) in caps;
      }
    }
  }

  lemma {:induction false} FirstLive(ss: seq<SessionView>, t: int, s: SessionView) returns (first: nat)
    requires s in ss && LiveCapping(s, t)
    ensures FirstLiveCapping(ss, t, first)
    decreases |ss|
  {
    var n := |ss| - 1;
    if exists x :: x in ss[..n] && LiveCapping(x, t) {
      var x :| x in ss[..n] && LiveCapping(x, t);
      first := FirstLive(ss[..n], t, x);
    } else {
      first := n;
      forall j | 0 <= j < n ensures !LiveCapping(ss[j], t) {
        assert ss[j] == ss[..n][j] && ss[j] in ss[..n];
      }
      var i :| 0 <= i < |ss| && ss[i] == s;
    }
  }

  /** A session's own lower clamp is at most the running one once it has been visited. */
  lemma OwnMinBelow(r: UclampRange, ss: seq<SessionView>, t: int, cap: EfficiencyCap, i: nat)
    requires i < |ss|
    ensures OwnMin(r, ss[i], t, cap) <= RunningMin(r, ss, t, Some(cap), i)
    ensures RunningMin(r, ss, t, Some(cap), i) <= RangeAfter(r, ss, t, Some(cap)).uclampMin
  {
    MinIsHighest(r, ss[..i + 1], t, Some(cap));
    MinIsHighest(r, [ss[i]], t, Some(cap));
    RangeAfterSnoc(r, [], ss[i], t, Some(cap));
    assert [] + [ss[i]] == [ss[i]];
    VotesByMembership([ss[i]], ss[..i + 1], t);
    FinalMin(r, ss, t, Some(cap), i);
  }

  /** Session `s` moved to the front. */
  lemma ToFront(ss: seq<SessionView>, s: SessionView) returns (ss': seq<SessionView>)
    requires s in ss
    ensures multiset(ss') == multiset(ss) && ss' != [] && ss'[0] == s
  {
    var i :| 0 <= i < |ss| && ss[i] == s;
    RemoveAtMultiset(ss, i);
    ss' := [s] + RemoveAt(ss, i);
    assert multiset(ss') == multiset{s} + multiset(RemoveAt(ss, i));
  }

  lemma FrontMin(r: UclampRange, ss: seq<SessionView>, t: int, cap: EfficiencyCap)
    requires ss != []
    ensures RunningMin(r, ss, t, Some(cap), 0) == OwnMin(r, ss[0], t, cap)
  {
    assert ss[..1] == [] + [ss[0]];
    RangeAfterSnoc(r, [], ss[0], t, Some(cap));
  }

  /** With such a session in front, the upper clamp is the one its own lower clamp allows. */
  lemma CappedInFront(r: UclampRange, ss: seq<SessionView>, t: int, cap: EfficiencyCap, s: SessionView)
    requires s in ss && LiveCapping(s, t) && EveryOrderAgrees(r, ss, t, cap)
    ensures RangeAfter(r, ss, t, Some(cap)).uclampMax ==
            Min(Lowest(r.uclampMax, FixedBounds(ss, t, cap)), OwnMin(r, s, t, cap) + cap.offset)
  {
    var ss' := ToFront(ss, s);
    FrontMin(r, ss', t, cap);
    CappedMax(r, ss', t, cap, 0);
    SameFixedBounds(ss, ss', t, cap);
  }

  /** Some order reaches the bound that the final lower clamp allows. */
  lemma FinalMinReached(r: UclampRange, ss: seq<SessionView>, t: int, cap: EfficiencyCap, s: SessionView)
    requires s in ss && LiveCapping(s, t) && EveryOrderAgrees(r, ss, t, cap)
    ensures var res := RangeAfter(r, ss, t, Some(cap));
            res.uclampMax == Min(Lowest(r.uclampMax, FixedBounds(ss, t, cap)), res.uclampMin + cap.offset)
  {
    hide RangeAfter, FixedBounds, OwnMin, RunningMin, AddSession, IsLowest, LiveCapping, FirstLiveCapping;
    var front := AsksForMost(r, ss, t, cap, s);
    var ss' := ToFront(ss, front);
    assert RangeAfter(r, ss', t, Some(cap)).uclampMax == RangeAfter(r, ss, t, Some(cap)).uclampMax;
    OrderFree(r, ss, ss', t, Some(cap));
    SameFixedBounds(ss, ss', t, cap);
    SameMembers(ss, ss');
    FrontMin(r, ss', t, cap);
    var first := FirstLive(ss', t, s);
    FirstInList(ss', t, first);
    CappedMax(r, ss', t, cap, first);
    RunningMinGrows(r, ss', t, Some(cap), 0, first);
    FinalMin(r, ss', t, Some(cap), first);
  }

  lemma FirstInList(ss: seq<SessionView>, t: int, i: nat)
    requires FirstLiveCapping(ss, t, i)
    ensures i < |ss| && LiveCapping(ss[i], t)
  {
  }

  /** Some session, visited first, already leaves the final lower clamp behind. */
  lemma AsksForMost(r: UclampRange, ss: seq<SessionView>, t: int, cap: EfficiencyCap, s: SessionView)
    returns (front: SessionView)
    requires s in ss
    ensures front in ss && OwnMin(r, front, t, cap) >= RangeAfter(r, ss, t, Some(cap)).uclampMin
  {
    var m := RangeAfter(r, ss, t, Some(cap)).uclampMin;
    MinIsHighest(r, ss, t, Some(cap));
    front := s;
    if m in Mins(ss, t) {
      var i :| 0 <= i < |ss| && ss[i].isActive && m in ss[i].votes.LiveMins(t);
      front := ss[i];
    }
  }

  lemma EveryOrderSame(r: UclampRange, ss: seq<SessionView>, ss': seq<SessionView>, t: int, cap: EfficiencyCap,
                       s: SessionView)
    requires NoneCapsEarly(r, ss, t, cap) && multiset(ss') == multiset(ss) && s in ss && LiveCapping(s, t)
    ensures RangeAfter(r, ss', t, Some(cap)).uclampMax ==
            Min(Lowest(r.uclampMax, FixedBounds(ss, t, cap)), RangeAfter(r, ss, t, Some(cap)).uclampMin + cap.offset)
  {
    hide RangeAfter, FixedBounds, OwnMin, RunningMin, AddSession, IsLowest, LiveCapping, FirstLiveCapping;
    SameMembers(ss, ss');
    SameFixedBounds(ss, ss', t, cap);
    OrderFree(r, ss, ss', t, Some(cap));
    var first := FirstLive(ss', t, s);
    FirstInList(ss', t, first);
    CappedMax(r, ss', t, cap, first);
    OwnMinBelow(r, ss', t, cap, first);
    assert ss'[first] in ss;
  }

  /** Exactly when the order of the sessions does not matter: when every power-efficient session with a
      vote in force has the final lower clamp as its own, or some bound that does not depend on the
      order is at least as tight as the cap it would set if visited first. */
  lemma EveryOrderAgreesIff(r: UclampRange, ss: seq<SessionView>, t: int, cap: EfficiencyCap)
    ensures EveryOrderAgrees(r, ss, t, cap) <==> NoneCapsEarly(r, ss, t, cap)
  {
    if EveryOrderAgrees(r, ss, t, cap) {
      forall s | s in ss && LiveCapping(s, t)
        ensures || OwnMin(r, s, t, cap) == RangeAfter(r, ss, t, Some(cap)).uclampMin
                || Lowest(r.uclampMax, FixedBounds(ss, t, cap)) <= OwnMin(r, s, t, cap) + cap.offset
      {
        CappedInFront(r, ss, t, cap, s);
        FinalMinReached(r, ss, t, cap, s);
        var i :| 0 <= i < |ss| && ss[i] == s;
        OwnMinBelow(r, ss, t, cap, i);
        TighterMin(Lowest(r.uclampMax, FixedBounds(ss, t, cap)), cap.offset, OwnMin(r, s, t, cap),
                   RangeAfter(r, ss, t, Some(cap)).uclampMin);
      }
    }
    if NoneCapsEarly(r, ss, t, cap) {
      forall ss' | multiset(ss') == multiset(ss)
        ensures RangeAfter(r, ss', t, Some(cap)).uclampMax == RangeAfter(r, ss, t, Some(cap)).uclampMax
      {
        if exists s :: s in ss && LiveCapping(s, t) {
          var s :| s in ss && LiveCapping(s, t);
          EveryOrderSame(r, ss, ss', t, cap, s);
          EveryOrderSame(r, ss, ss, t, cap, s);
        } else {
          SameMembers(ss, ss');
          SameFixedBounds(ss, ss', t, cap);
          UncappedMax(r, ss, t, cap);
          UncappedMax(r, ss', t, cap);
        }
      }
    }
  }

  /** A session whose only vote asks for at least `min` during the first ten nanoseconds. */
  ghost function OneVote(efficient: bool, min: int): SessionView {
    SessionView(true, efficient, VoteTable(map[0 := CpuVote(VoteRange(true, 0, 10), UclampRange(min, 1024))], map[]))
  }

  lemma AddOneVote(r: UclampRange, efficient: bool, min: int, cap: EfficiencyCap)
    ensures AddSession(r, OneVote(efficient, min), 5, Some(cap)) ==
            var lo := Max(r.uclampMin, min);
            var hi := Min(r.uclampMax, 1024);
            UclampRange(lo, if efficient then Min(hi, lo + cap.offset) else hi)
  {
    var votes := OneVote(efficient, min).votes;
    assert votes.cpu[0].timing.IsTimeInRange(5);
    assert votes.LiveMins(5) == {min} && votes.LiveMaxs(5) == {1024} by {
      assert votes.cpu[0].range == UclampRange(min, 1024);
    }
    assert min in votes.LiveMins(5) && 1024 in votes.LiveMaxs(5);
  }

  /** With an efficiency cap the list order can change the upper clamp: listing a power-efficient
      session before or after a stronger vote moves the cap by the difference of the votes. */
  lemma OrderMattersUnderCap()
    ensures exists a: SessionView, b: SessionView, t: int, cap: EfficiencyCap ::
              RangeAfter(DEFAULT_RANGE, [a, b], t, Some(cap)).uclampMax !=
              RangeAfter(DEFAULT_RANGE, [b, a], t, Some(cap)).uclampMax
  {
    var a, b, cap := OneVote(true, 100), OneVote(false, 500), EfficiencyCap(200, 50);
    RangeAfterTwo(a, b, cap);
    RangeAfterTwo(b, a, cap);
    AddOneVote(DEFAULT_RANGE, true, 100, cap);
    AddOneVote(UclampRange(100, 150), false, 500, cap);
    AddOneVote(DEFAULT_RANGE, false, 500, cap);
    AddOneVote(UclampRange(500, 1024), true, 100, cap);
    assert RangeAfter(DEFAULT_RANGE, [a, b], 5, Some(cap)).uclampMax == 150;
    assert RangeAfter(DEFAULT_RANGE, [b, a], 5, Some(cap)).uclampMax == 550;
  }

  lemma RangeAfterTwo(a: SessionView, b: SessionView, cap: EfficiencyCap)
    ensures RangeAfter(DEFAULT_RANGE, [a, b], 5, Some(cap)) ==
            AddSession(AddSession(DEFAULT_RANGE, a, 5, Some(cap)), b, 5, Some(cap))
  {
    RangeAfterSnoc(DEFAULT_RANGE, [], a, 5, Some(cap));
    RangeAfterSnoc(DEFAULT_RANGE, [a], b, 5, Some(cap));
    assert [] + [a] == [a] && [a] + [b] == [a, b];
  }

  /** The range handed to the scheduler. */
  function ClampForScheduler(range: UclampRange): (r: UclampRange)
    ensures UCLAMP_MIN <= r.uclampMin <= r.uclampMax <= UCLAMP_MAX
    ensures UCLAMP_MIN <= range.uclampMin <= UCLAMP_MAX ==> r.uclampMin == range.uclampMin
    ensures r.uclampMin <= range.uclampMax <= UCLAMP_MAX ==> r.uclampMax == range.uclampMax
    ensures range.uclampMax < r.uclampMin ==> r.uclampMax == r.uclampMin
  {
    var lo := Min(Max(UCLAMP_MIN, range.uclampMin), UCLAMP_MAX);
    UclampRange(lo, Min(Max(range.uclampMax, lo), UCLAMP_MAX))
  }
}
