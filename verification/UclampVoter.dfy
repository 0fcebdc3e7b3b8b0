/** The vote tables of a power session (UClampVoter.h, UClampVoter.cpp). */
module UclampVoter {
  import opened Arith

  const UCLAMP_MIN := 0
  const UCLAMP_MAX := 1024

  // AdpfVoteType
  const CPU_VOTE_DEFAULT := 0
  const CPU_LOAD_UP := 1
  const CPU_LOAD_RESET := 2
  const CPU_LOAD_RESUME := 3
  const VOTE_POWER_EFFICIENCY := 4
  const GPU_LOAD_UP := 5
  const GPU_LOAD_DOWN := 6
  const GPU_LOAD_RESET := 7
  const GPU_CAPACITY := 8

  /** The votes that `disableBoosts` turns off, in the order it visits them. */
  const BOOST_VOTES: seq<int> :=
    [CPU_LOAD_UP, CPU_LOAD_RESET, CPU_LOAD_RESUME, VOTE_POWER_EFFICIENCY, GPU_LOAD_UP, GPU_LOAD_RESET]

  predicate IsGpuVote(id: int) {
    id == GPU_CAPACITY || id == GPU_LOAD_UP || id == GPU_LOAD_DOWN || id == GPU_LOAD_RESET
  }

  datatype UclampRange = UclampRange(uclampMin: int, uclampMax: int)

  const DEFAULT_RANGE := UclampRange(UCLAMP_MIN, UCLAMP_MAX)

  /** Activity flag and timing shared by both kinds of vote; times are in nanoseconds. */
  datatype VoteRange = VoteRange(active: bool, startTime: int, durationNs: int) {
    predicate IsTimeInRange(t: int) {
      active && startTime <= t && startTime + durationNs >= t
    }

    function Timeout(): int { startTime + durationNs }
  }

  datatype CpuVote = CpuVote(timing: VoteRange, range: UclampRange)

  datatype GpuVote = GpuVote(timing: VoteRange, capacity: int)

  /** The value of a `Votes` object. A vote id belongs to exactly one of the two maps. */
  datatype VoteTable = VoteTable(cpu: map<int, CpuVote>, gpu: map<int, GpuVote>) {

    /** The timing of vote `id`, if the table holds that vote. */
    function Timing(id: int): Option<VoteRange> {
      if IsGpuVote(id) then
        if id in gpu then Some(gpu[id].timing) else None
      else
        if id in cpu then Some(cpu[id].timing) else None
    }

    predicate IsActive(id: int) {
      Timing(id).Some? && Timing(id).value.active
    }

    /** The expiry of vote `id`; the clock's epoch if there is no such vote. */
    function TimeoutOf(id: int): int {
      if Timing(id).Some? then Timing(id).value.Timeout() else 0
    }

    function AddCpu(id: int, vote: CpuVote): VoteTable {
      if IsGpuVote(id) then this else this.(cpu := cpu[id := vote])
    }

    function AddGpu(id: int, vote: GpuVote): VoteTable {
      if IsGpuVote(id) then this.(gpu := gpu[id := vote]) else this
    }

    /** Changes only the timing of vote `id`; a table without that vote stays as it is. */
    function WithTiming(id: int, timing: VoteRange): (r: VoteTable)
      ensures forall j :: r.Timing(j) == if j == id && Timing(id).Some? then Some(timing) else Timing(j)
      ensures r.cpu.Keys == cpu.Keys && r.gpu.Keys == gpu.Keys
      ensures forall j :: j in cpu ==> r.cpu[j].range == cpu[j].range
      ensures forall j :: j in gpu ==> r.gpu[j].capacity == gpu[j].capacity
    {
      if Timing(id).None? then this
      else if IsGpuVote(id) then this.(gpu := gpu[id := gpu[id].(timing := timing)])
      else this.(cpu := cpu[id := cpu[id].(timing := timing)])
    }

    function SetUse(id: int, active: bool): VoteTable {
      if Timing(id).None? then this else WithTiming(id, Timing(id).value.(active := active))
    }

    function WithDuration(id: int, durationNs: int): VoteTable {
      if Timing(id).None? then this else WithTiming(id, Timing(id).value.(durationNs := durationNs))
    }

    /** Turns off the votes `ids`, those that the table holds. */
    function DisableAll(ids: seq<int>): (r: VoteTable)
      ensures forall j :: r.Timing(j) ==
                          if j in ids && Timing(j).Some? then Some(Timing(j).value.(active := false)) else Timing(j)
      ensures r.cpu.Keys == cpu.Keys && r.gpu.Keys == gpu.Keys
      ensures forall j :: j in cpu ==> r.cpu[j].range == cpu[j].range
      ensures forall j :: j in gpu ==> r.gpu[j].capacity == gpu[j].capacity
    {
      if ids == [] then this
      else
        var n := |ids| - 1;
        assert ids == ids[..n] + [ids[n]];
        DisableAll(ids[..n]).SetUse(ids[n], false)
    }

    /** Some vote, of either kind, is in force at time `t`. */
    ghost predicate AnyLive(t: int) {
      (exists id :: id in cpu && cpu[id].timing.IsTimeInRange(t)) ||
      (exists id :: id in gpu && gpu[id].timing.IsTimeInRange(t))
    }

    /** Lower clamps of the CPU votes in force at time `t`. */
    function LiveMins(t: int): set<int> {
      set id | id in cpu && cpu[id].timing.IsTimeInRange(t) :: cpu[id].range.uclampMin
    }

    /** Upper clamps of the CPU votes in force at time `t`. */
    function LiveMaxs(t: int): set<int> {
      set id | id in cpu && cpu[id].timing.IsTimeInRange(t) :: cpu[id].range.uclampMax
    }

    /** The capacity that one GPU vote asks for at time `t`. */
    function GpuDemand(id: int, t: int): int {
      if id in gpu && gpu[id].timing.IsTimeInRange(t) then gpu[id].capacity else 0
    }

    /** The GPU capacity requested at time `t`: the sum of the two capacity votes in force. */
    function GpuRequest(t: int): int {
      GpuDemand(GPU_CAPACITY, t) + GpuDemand(GPU_LOAD_UP, t)
    }

    /** Narrows `range` by every CPU vote in force, visiting the map in an arbitrary order. */
    method GetUclampRange(range: UclampRange, t: int) returns (r: UclampRange)
      ensures IsHighest(r.uclampMin, range.uclampMin, LiveMins(t))
      ensures IsLowest(r.uclampMax, range.uclampMax, LiveMaxs(t))
    {
      r := range;
      var todo := cpu.Keys;
      while todo != {}
        invariant todo <= cpu.Keys
        invariant r.uclampMin == range.uclampMin || r.uclampMin in LiveMins(t)
        invariant r.uclampMax == range.uclampMax || r.uclampMax in LiveMaxs(t)
        invariant range.uclampMin <= r.uclampMin && r.uclampMax <= range.uclampMax
        invariant forall id :: id in cpu && id !in todo && cpu[id].timing.IsTimeInRange(t) ==>
                                 cpu[id].range.uclampMin <= r.uclampMin &&
                                 r.uclampMax <= cpu[id].range.uclampMax
        decreases |todo|
      {
        var id := AnyOf(todo);
        var vote := cpu[id];
        if vote.timing.IsTimeInRange(t) {
          assert vote.range.uclampMin in LiveMins(t) && vote.range.uclampMax in LiveMaxs(t);
          r := UclampRange(Max(r.uclampMin, vote.range.uclampMin), Min(r.uclampMax, vote.range.uclampMax));
        }
        todo := todo - {id};
      }
    }

    method AllTimedOut(t: int) returns (timedOut: bool)
      ensures timedOut <==> !AnyLive(t)
    {
      var todo := gpu.Keys;
      while todo != {}
        invariant forall id :: id in gpu && id !in todo ==> !gpu[id].timing.IsTimeInRange(t)
        invariant todo <= gpu.Keys
        decreases |todo|
      {
        var id := AnyOf(todo);
        if gpu[id].timing.IsTimeInRange(t) {
          return false;
        }
        todo := todo - {id};
      }
      todo := cpu.Keys;
      while todo != {}
        invariant forall id :: id in cpu && id !in todo ==> !cpu[id].timing.IsTimeInRange(t)
        invariant todo <= cpu.Keys
        decreases |todo|
      {
        var id := AnyOf(todo);
        if cpu[id].timing.IsTimeInRange(t) {
          return false;
        }
        todo := todo - {id};
      }
      return true;
    }

    predicate GpuVoteLive(id: int, t: int) {
      id in gpu && gpu[id].timing.IsTimeInRange(t)
    }

    /** Absent when neither capacity vote is in force; otherwise the sum of those that are. */
    method GetGpuCapacityRequest(t: int) returns (res: Option<int>)
      ensures res.Some? <==> GpuVoteLive(GPU_CAPACITY, t) || GpuVoteLive(GPU_LOAD_UP, t)
      ensures res.Some? ==> res.value == GpuRequest(t)
      ensures res.None? ==> GpuRequest(t) == 0
    {
      res := None;
      var hints := [GPU_CAPACITY, GPU_LOAD_UP];
      for i := 0 to 2
        invariant i == 0 ==> res == None
        invariant i == 1 ==> (res.Some? <==> GpuVoteLive(GPU_CAPACITY, t))
        invariant i == 2 ==> (res.Some? <==> GpuVoteLive(GPU_CAPACITY, t) || GpuVoteLive(GPU_LOAD_UP, t))
        invariant i == 1 ==> (if res.Some? then res.value else 0) == GpuDemand(GPU_CAPACITY, t)
        invariant i == 2 ==> (if res.Some? then res.value else 0) == GpuRequest(t)
      {
        if hints[i] in gpu && gpu[hints[i]].timing.IsTimeInRange(t) {
          res := Some((if res.Some? then res.value else 0) + gpu[hints[i]].capacity);
        }
      }
    }
  }

  /** Of the votes that are on, switching the boosts off leaves the default vote and the GPU's lower-load
      and capacity votes. */
  lemma BoostsOff(votes: VoteTable)
    ensures forall v :: CPU_VOTE_DEFAULT <= v <= GPU_CAPACITY ==>
              (votes.DisableAll(BOOST_VOTES).IsActive(v) <==>
               votes.IsActive(v) && (v == CPU_VOTE_DEFAULT || v == GPU_LOAD_DOWN || v == GPU_CAPACITY))
  {
  }
}
