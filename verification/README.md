# Verified model of the ADPF power-session engine

This project models the logic behind the ADPF power hints of the `power-libperfmgr` power HAL: timed
votes for CPU clamps and GPU capacity, the background worker that ends them, the index of sessions and
threads, the statistics and the controller that turn reported frame durations into votes, the life of a
hint session, and the separate interaction boost that waits for the display to become idle.

`dafny verify dfyconfig.toml` checks everything.

## How it is laid out

| file | what it holds |
|---|---|
| `UclampVoter.dfy` | the vote table of a session |
| `TaskVoteRange.dfy` | how the votes of all sessions combine on one thread |
| `TaskIndex.dfy` | the two inverse multimaps of sessions and threads, as values |
| `SessionTaskMap.dfy` | the class that keeps them |
| `ThreadSweep.dfy` | the loop that applies clamps and drops dead threads on the way |
| `OtherSessions.dfy` | what threads see of all sessions but one |
| `BackgroundWorker.dfy` | the deadline queue with its worker |
| `TimeoutProtocol.dfy` | votes, events, clients and worker as interleaved steps |
| `OverdueVotes.dfy` | exactly when a vote of that protocol can outlive its timeout |
| `SessionModel.dfy` | sessions and events of the manager as plain values |
| `ThreadFloors.dfy` | the lower clamps in force on threads and the GPU node, as values |
| `PowerSessionManager.dfy` | the manager class, proved against functions of those values |
| `SessionRecords.dfy` | ring buffer, totals and monotonic deque of the last reports |
| `PidControl.dfy`, `GpuCapacity.dfy`, `HeuristicBoost.dfy` | the arithmetic of a report |
| `PidOutput.dfy` | what the controller's output says about the samples |
| `HintSession.dfy` | each call of a hint session as a function |
| `PowerHintSession.dfy` | the hint session class, proved against those functions |
| `SessionSystem.dfy` | runs of any number of sessions: life cycle, value ranges, boost switch |
| `SystemTimeouts.dfy` | those runs as runs of the timeout protocol: by when votes end |
| `ManagerSteps.dfy` | those runs as runs of the manager's single operations |
| `BoostedThreads.dfy` | which votes stand behind the clamps on threads |
| `ServedVotes.dfy` | which clamps votes can count on, and when clamps are exact |
| `GpuNode.dfy` | which votes stand behind the value of the GPU capacity node |
| `ReportedVotes.dfy` | which votes and clamps a report leaves behind |
| `BoostRule.dfy` | when the heuristic boost goes on and off, in terms of the reports |
| `HintEffects.dfy` | what hints, new threads and reports do to the control variable and ask of threads |
| `InteractionHandler.dfy` | the interaction boost as a two-thread step machine, and its class |
| `Arith.dfy` | machine arithmetic and small helpers |

The results build on each other. The classes are proved against functions on values
(`PowerSessionManager` against a map of sessions, a list of events, the lower clamps in force and the GPU
node, `PowerHintSession` against `HintSession`). The functions are the steps of `SessionSystem`, whose runs
are shown in `SystemTimeouts` to be runs of `TimeoutProtocol`, and in `ManagerSteps` to be runs of the
manager's operations. From that follows, for every run of the system, by when each active vote must end
(`ActiveVotesWillEnd`, `NoVoteOutlivesItsTime`), and that no living thread, whether a session still lists it
or not, stays boosted longer than some vote asks for it (`NoThreadStaysBoosted`). The time is the vote's own
timeout except for a default vote that a new target has shortened since it was last switched on or brought
forward; for that one it is the latest timeout it has had since then. With clock readings that do not go
back, clamps are also as high as the votes in force ask (`VotesInForceAreServed`), and once no event is due
they are exactly that (`ClampsAreExact`).

Where the code falls short of the obvious claim, the failing family is stated exactly:

- Shortening the default vote by a new target duration leaves its event where it was, so the vote may
  outlive its new timeout: `ShortenedVoteOutlivesItsTimeout` gives a run, `OverdueIff` says when an active
  vote can become overdue, `UpdateLeadsToOverdueIff` and `NewTargetLeadsToOverdueIff` say which new
  durations and targets lead to it, and `ShorterMeansOverdue` what that comes to for a vote set while it
  was off. Shortening is common: a new target shortens the vote whenever it is below the time that votes
  for the control variable are cast for (`TargetShortensIff`). It is forgotten once the vote has been off
  (`TimelyOnceOff`, `OffIsForgotten`).
- A vote has one event while it is on and none while it is off in exactly the runs that never bring it
  forward, disable it while it is on, or cast a vote of the wrong kind for it while it is off
  (`OneEventKeptIff`, `SingleEventPerVote`). In other runs events can gather without bound
  (`BoostVoteGathersEvents`, `ForwardVoteGathersEvents`).
- Giving threads to a paused session makes it active in the manager only: `SetThreadsKeepsLifeIff`,
  `PausedSessionReactivated`, `PausedSessionReachable`. Manager and sessions agree in exactly the runs without
  that (`SessionsAgreeWithManager`).
- Calls read the clock before they take the manager's lock, so a late one can take away the boost that a vote
  has just asked for; and a new target can give a vote time again that had run out, without applying it.
  `ServedKeptIff` and `AlwaysServedIff` say exactly which operations let a vote down, `LateCallDropsVote` and
  `LateTargetMissesVote` give runs.
- A report switches the load-up boost off, and closing a session drops its GPU votes, without writing the GPU
  node, which keeps its value: `NodeStaleIff` and `AlwaysBackedIff` say exactly when, `StaleNodeReachable` gives
  both runs.
- With a power-efficient session the upper clamp may depend on the order of the sessions:
  `OrderMattersUnderCap`, `CappedMaxOrderFreeIff`, `EveryOrderAgreesIff`.
- `schedule` reads the id counter after it has released its lock: `LostPackagesIff`,
  `OverlappingCallsLosePackage`.
- A request that is skipped because the elapsed time was rounded down may lose up to a millisecond:
  `SkippedRequestMayLoseTime`, `StaysExactIff`, `AlwaysExactIff`. `Exit` leaves a held hint held
  (`ExitLeavesHint`).

Times are integers in nanoseconds. Clock readings, the set of threads that the scheduler reports as
dead, and the GPU frequency are parameters. C++ integer division truncates toward zero and is written
out (`TruncDiv`), as are the conversions to 32 bits. Products of a duration with a floating-point factor
are function-valued settings, and the remaining floating-point arithmetic is over the reals.

`SessionTaskMap` keeps the session objects in an explicit store of references, so that a replaced
session is a new object, as it is in the code, and the search for a session in a thread's list is by
reference.

One reading of the code that may surprise: the manager tests only whether the GPU boost setting is
present (PowerSessionManager.cpp:516-517), the session tests its value (PowerHintSession.cpp:407). The
model follows the code.

## Model

| member | source | states |
|---|---|---|
| TimeoutProtocol.EveryActiveVoteHasEvent | power-libperfmgr/aidl/PowerSessionManager.cpp:307-344 | in every run, under every interleaving of clients and worker, an active vote of a live session has a timeout event queued, about to be queued or being handled, due by a bound that is never before the vote's timeout |
| TimeoutProtocol.CoveredStep | power-libperfmgr/aidl/PowerSessionManager.cpp:307-456 | every step keeps the invariant that links active votes to pending events |
| TimeoutProtocol.CoveredRun | power-libperfmgr/aidl/PowerSessionManager.cpp:307-456 | and so does every run from a state that has it |
| TimeoutProtocol.PromiseIsTimeout | power-libperfmgr/aidl/PowerSessionManager.cpp:307-344 | the bound is the vote's own timeout in every run that never shortens the vote while it is active |
| OverdueVotes.TimelyOnceOff | power-libperfmgr/aidl/PowerSessionManager.cpp:307-344 | in every run that has not shortened a vote since some point at which it was off, its event is due no later than its timeout |
| TimeoutProtocol.UpdateOfFreshVoteTimelyIff | power-libperfmgr/aidl/PowerSessionManager.cpp:290-305 | a new duration leaves a vote whose events wait for its present timeout with an event in time exactly if it is not shorter |
| OverdueVotes.SetWhileOffIsFresh | power-libperfmgr/aidl/PowerSessionManager.cpp:307-344 | a vote set while it is off and has no event left is such a vote |
| OverdueVotes.FreshInRuns | power-libperfmgr/aidl/PowerSessionManager.cpp:307-456 | in every run that gathers no stray events since some point at which the vote had a single event, or none while off, setting the vote while it is off makes it such a vote |
| OverdueVotes.OverdueIff | power-libperfmgr/aidl/PowerSessionManager.cpp:418-456 | with the clients at rest, clock and worker can come to a drained queue with the vote still active past its timeout exactly if all its events are later than both its timeout and the clock |
| OverdueVotes.UpdateLeadsToOverdueIff | power-libperfmgr/aidl/PowerSessionManager.cpp:290-305 | a new duration of an active vote leads there exactly if the new timeout and the clock are before the earliest of its events |
| OverdueVotes.ShorterMeansOverdue | power-libperfmgr/aidl/PowerSessionManager.cpp:290-305 | for a vote set while it was off: exactly if the duration is made shorter before the present timeout |
| TimeoutProtocol.ShortenedVoteOutlivesItsTimeout | power-libperfmgr/aidl/PowerSessionManager.cpp:301-304 | there is a run after which a live session's vote is active past its timeout although the queue is drained |
| TimeoutProtocol.WorkerStepShrinksWork | power-libperfmgr/aidl/PowerSessionManager.cpp:418-456 | at a still clock every worker step brings the amount of work left down by one: an event is dropped or put back strictly later |
| TimeoutProtocol.DrainTerminates | power-libperfmgr/aidl/PowerSessionManager.cpp:418-456 | worker steps at a still clock are as many as the work they take away, so draining ends |
| TimeoutProtocol.WorkerNotStuck | power-libperfmgr/aidl/BackgroundWorker.cpp:86-142 | while work is left some worker step can be taken |
| TimeoutProtocol.DrainedMeansExpired | power-libperfmgr/aidl/PowerSessionManager.cpp:431-456 | once nothing is due, an unshortened active vote is before its timeout and any other before its bound |
| TimeoutProtocol.InForceStep | power-libperfmgr/aidl/PowerSessionManager.cpp:439-455 | no step that does not itself end the vote takes it out of force before its deadline |
| TimeoutProtocol.StaleEventsNeverCutShort | power-libperfmgr/aidl/PowerSessionManager.cpp:424-456 | a vote in force until D stays so through every run before D that does not disable, overwrite, shorten or remove it, however many older events fire |
| TimeoutProtocol.RemovedForever | power-libperfmgr/aidl/PowerSessionManager.cpp:146-171 | a removed session id never comes back |
| TimeoutProtocol.EventCountStep | power-libperfmgr/aidl/PowerSessionManager.cpp:431-455 | how each step changes the number of pending events of a vote, exactly |
| TimeoutProtocol.OneEventKeptIff | power-libperfmgr/aidl/PowerSessionManager.cpp:307-456 | exactly which steps end that state |
| TimeoutProtocol.SingleEventPerVote | power-libperfmgr/aidl/PowerSessionManager.cpp:307-344 | from the start, a vote has one pending event whenever it is on and none whenever it is off in exactly the runs that never bring it forward, disable it while it is on, or cast a vote of the wrong kind for it while it is off |
| TimeoutProtocol.BoostVoteGathersEvents | power-libperfmgr/aidl/PowerSessionManager.cpp:378-400 | from any state and for any n, disabling and setting a boost vote n times adds n pending events |
| TimeoutProtocol.ForwardVoteGathersEvents | power-libperfmgr/aidl/PowerSessionManager.cpp:307-311 | from any state and for any n and vote id, setting the vote later and earlier n times adds at least n pending events |
| TimeoutProtocol.HandledEvent | power-libperfmgr/aidl/PowerSessionManager.cpp:418-456 | after an event has been handled its vote is off exactly if it was off or had run out at the reading; if it is on, exactly one event has entered the queue, for the vote's own timeout; no other vote changes |
| OverdueVotes.TwoLooksPerEvent | power-libperfmgr/aidl/PowerSessionManager.cpp:431-455 | from a quiet state, in every run of clock and worker, however the clock moves, at most two events are handled per queued event |
| SystemTimeouts.RunReaches | power-libperfmgr/aidl/PowerHintSession.cpp:222-538 | every run of the whole system, any number of sessions with all their calls, is a run of the timeout protocol |
| SystemTimeouts.CallReaches | power-libperfmgr/aidl/PowerHintSession.cpp:222-538 | every call of a session is a sequence of protocol steps, none of which shortens a vote unless the call sets a shorter target |
| SystemTimeouts.ActiveVotesWillEnd | power-libperfmgr/aidl/PowerSessionManager.cpp:307-344 | in every run of the system every active vote has an event in the queue, due by a time computed along the run that is never before its timeout, and is its timeout unless it is a default vote shortened since it was last switched on or brought forward |
| SystemTimeouts.DueRun | power-libperfmgr/aidl/PowerSessionManager.cpp:307-456 | the same from any sound state with any time the event is due by |
| SystemTimeouts.DueIsTimeout | power-libperfmgr/aidl/PowerSessionManager.cpp:290-344 | the computed time is the vote's timeout along every run that has not shortened the vote since it was last switched on or brought forward |
| SystemTimeouts.NoVoteOutlivesItsTime | power-libperfmgr/aidl/PowerSessionManager.cpp:418-467 | once no event is due, no vote of any session is active past that time, and so none past its timeout but such a default vote |
| SystemTimeouts.NewTargetLeadsToOverdueIff | power-libperfmgr/aidl/PowerHintSession.cpp:272-293 | a new target lets the default vote of an open session outlive its new timeout exactly if that timeout and the clock are before the earliest of its events in the queue |
| BoostedThreads.ClampsAreBacked | power-libperfmgr/aidl/PowerSessionManager.cpp:469-506 | in every run the lower clamp in force on a living thread, listed by a session or not, is zero, or at most what some switched-on vote of an active session that lists the thread asks for |
| BoostedThreads.ActGood | power-libperfmgr/aidl/PowerSessionManager.cpp:146-570 | every operation of the manager keeps that |
| BoostedThreads.NoThreadStaysBoosted | power-libperfmgr/aidl/PowerSessionManager.cpp:418-467 | in every run, once no event is due, the vote behind such a clamp is not past its time; a thread that no session lists has no boost |
| ManagerSteps.CallDoes | power-libperfmgr/aidl/PowerHintSession.cpp:222-538 | what a call of a session does to sessions, clamps and GPU node is what a stated list of manager operations does, one after the other |
| ManagerSteps.RunDoes | power-libperfmgr/aidl/PowerHintSession.cpp:131-538 | every run of the system is a run of such operations |
| ServedVotes.ServedKeptIff | power-libperfmgr/aidl/PowerSessionManager.cpp:290-570 | exactly which operations leave a living thread clamped lower than a vote asks that has not run out: an application with a reading outside that vote's time when no vote in force at the reading asks as much, or a new duration that gives the vote time again |
| ServedVotes.AlwaysServedIff | power-libperfmgr/aidl/PowerSessionManager.cpp:290-570 | all such votes are served at every point of exactly the runs without such an operation |
| ServedVotes.VotesInForceAreServed | power-libperfmgr/aidl/PowerSessionManager.cpp:469-506 | in every run of the system whose readings neither go back nor run ahead and that lengthens no vote that has run out: every living thread is clamped at least as high as each vote in force of an active session that lists it |
| ServedVotes.ClampsAreExact | power-libperfmgr/aidl/PowerSessionManager.cpp:418-506 | in those runs, once no event is due, a living thread's lower clamp is exactly the highest that the votes in force ask for, unless one of its sessions has a shortened default vote |
| ServedVotes.LateCallDropsVote | power-libperfmgr/aidl/PowerSessionManager.cpp:313-344 | a run in which a call with an earlier reading takes a fresh boost away from a shared thread |
| ServedVotes.LateTargetMissesVote | power-libperfmgr/aidl/PowerSessionManager.cpp:290-305 | a run in which a new target revives a vote that the thread does not get |
| GpuNode.NodeStaleIff | power-libperfmgr/aidl/PowerSessionManager.cpp:378-400 | exactly which steps of the system leave the GPU node with a value that no vote asks for: an accepted report without a GPU vote of its own that switches off the load-up boost behind it, or the end of a session whose votes are behind it |
| GpuNode.AlwaysBackedIff | power-libperfmgr/aidl/PowerSessionManager.cpp:508-523 | the node's value is asked for at every point of exactly the runs without such a step |
| GpuNode.NoGpuBoostStays | power-libperfmgr/aidl/PowerSessionManager.cpp:418-467 | once no event is due, in every run without such a step since the node's value was last asked for, the value is zero or asked for by votes that are all before their timeouts |
| GpuNode.StaleNodeReachable | power-libperfmgr/aidl/PowerSessionManager.cpp:146-171 | both kinds of step occur: the headroom stays on the node after a report, and after the only session has closed |
| GpuNode.GpuCapacityBounded | power-libperfmgr/aidl/SessionTaskMap.cpp:105-113 | in every run the node, and what would be written to it at any time, is at most the configured maximum plus the load-up headroom |
| ThreadFloors.WantedFloor | power-libperfmgr/aidl/SessionTaskMap.cpp:80-103 | the lower clamp wanted on a thread is the highest that the votes in force of its active sessions ask for, read off the sessions without their order |
| ThreadFloors.SweptFloors | power-libperfmgr/aidl/PowerSessionManager.cpp:480-502 | what the loop over a session's threads does to the lower clamps in force |
| SessionSystem.SessionsAgreeWithManager | power-libperfmgr/aidl/PowerHintSession.cpp:222-270 | at every point of exactly the runs that give no threads to a paused session: a closed session is gone from the manager, a paused one inactive without threads, an active one active with its threads in order but for dead ones |
| SessionSystem.SetThreadsKeepsLifeIff | power-libperfmgr/aidl/PowerHintSession.cpp:522-538 | setThreads keeps that agreement exactly if the session is closed, the list empty or the session active |
| SessionSystem.PausedSessionReactivated | power-libperfmgr/aidl/PowerHintSession.cpp:533-534 | setThreads on a paused session succeeds and leaves it active in the manager, paused for itself |
| SessionSystem.PausedSessionReachable | power-libperfmgr/aidl/PowerHintSession.cpp:222-237 | such a paused session is reached by creating one and pausing it |
| SessionSystem.ValuesStayInRange | power-libperfmgr/aidl/PowerHintSession.cpp:188-200 | in every run: with configured clamps in 0..1024, control variables stay in 0..1024 and every stored CPU vote has 0 <= min <= max = 1024; every GPU vote is within its limit; with its bounds in order, the integral is within them or still zero as it started |
| SessionSystem.NextMinInRange | power-libperfmgr/aidl/PowerHintSession.cpp:394-405 | the next control variable lies between the floor and the larger of floor and ceiling, for any output |
| SessionSystem.ResetCastIsExact | power-libperfmgr/aidl/PowerHintSession.cpp:456-460 | the conversion to unsigned in CPU_LOAD_RESET changes no value in range |
| SessionSystem.RunSound | power-libperfmgr/aidl/PowerHintSession.cpp:137-538 | the invariant behind the life-cycle and range results, for all sessions at once and every run |
| SessionSystem.CallFine | power-libperfmgr/aidl/PowerHintSession.cpp:222-538 | a call touches no other session and keeps its own values in range and its life in agreement |
| SessionSystem.ClosedForever | power-libperfmgr/aidl/PowerHintSession.cpp:259-270 | after close, no call, new session or queued event brings the id back into the manager |
| SessionSystem.PauseThenResume | power-libperfmgr/aidl/PowerHintSession.cpp:222-256 | pause followed by resume gives the session back exactly, but for threads found dead |
| ReportedVotes.ReportLeavesOwnVotes | power-libperfmgr/aidl/PowerHintSession.cpp:380-430 | in every run, right after an accepted report the votes of its session that are on are the default vote and perhaps the capacity vote |
| ReportedVotes.ReportSetsClamp | power-libperfmgr/aidl/PowerHintSession.cpp:380-405 | in every run, right after an accepted report, a thread that the session has for itself is asked for exactly the control variable while the vote lasts and for nothing after that, and if it lives it is clamped so |
| ReportedVotes.ReportGpuVote | power-libperfmgr/aidl/PowerHintSession.cpp:407-427 | an accepted report leaves a capacity vote for what its last frame calls for, cut to 0..maximum, exactly if controller and GPU boost are on, maximum and frequency are known and that frame used the GPU; any other leaves the capacity vote as it was |
| HintEffects.HintAsks | power-libperfmgr/aidl/PowerHintSession.cpp:446-491 | what each hint asks of the session's threads, from when and until when, and what it does to the control variable: a reset never lowers it and leaves it at least at its initial value |
| HintEffects.NewThreadsStartAfresh | power-libperfmgr/aidl/PowerHintSession.cpp:521-538 | new threads are asked for the initial control variable |
| HintEffects.RefusedCallsChangeNothing | power-libperfmgr/aidl/PowerHintSession.cpp:221-538 | for every call, exactly when it is refused as illegal state and as illegal argument; a refused call changes nothing |
| HintEffects.NewTargetMovesDefaultVote | power-libperfmgr/aidl/PowerHintSession.cpp:272-293 | a new target is the scaled one and becomes the length of the default vote; every other vote, session, event and clamp stays |
| HintEffects.NextMinMoves | power-libperfmgr/aidl/PowerHintSession.cpp:394-403 | the next control variable is the old one plus the output between floor and ceiling, with the wrap-around of 32 bits |
| HintEffects.OutputHasDirection | power-libperfmgr/aidl/PowerHintSession.cpp:401-403 | an output that is not negative never lowers the control variable below its old value cut to floor and ceiling, one that is not positive never raises it, as long as the sum is in 32 bits |
| HintEffects.HugeOutputLowers | power-libperfmgr/aidl/PowerHintSession.cpp:401-403 | the least output out of that range leads to the floor |
| HintEffects.BoostScalesGain | power-libperfmgr/aidl/PowerHintSession.cpp:104-110 | the heuristic boost changes nothing of the controller but its under-gain |
| HintEffects.LateReportKeepsBoost | power-libperfmgr/aidl/PowerHintSession.cpp:382-405 | a report of frames that all miss their target never lowers the control variable, one of frames that all meet it never raises it, with integral and derivative of the same sign; without the controller it is the configured maximum |
| SessionSystem.BoostFollowsVerdicts | power-libperfmgr/aidl/PowerHintSession.cpp:296-333 | in every run, with whatever targets, a session's heuristic boost is on exactly if some verdict on the plain statistics of all its accepted reports turned it on and none since has turned it off |
| SessionSystem.BoostIsFold | power-libperfmgr/aidl/PowerHintSession.cpp:387-390 | from any sound state, a run adds its accepted reports to the records and folds the hysteresis rule over their verdicts |
| HeuristicBoost.LastVerdictDecides | power-libperfmgr/aidl/PowerHintSession.cpp:315-325 | hysteresis over any sequence of verdicts |
| HeuristicBoost.AverageZeroIff | power-libperfmgr/aidl/PowerHintSession.cpp:306-311 | the divisor of the ratio is zero exactly if the window's durations add up to less than a microsecond each |
| HeuristicBoost.MaxAtLeastAverage | power-libperfmgr/aidl/PowerHintSession.cpp:306-311 | with a positive average the integer ratio is at least one |
| BoostRule.RuleMeans | power-libperfmgr/aidl/PowerHintSession.cpp:296-325 | the rule, in the number of reports of the window that missed their target, the starts of the last three, and the window's longest and average duration |
| BoostRule.BoostAfterReport | power-libperfmgr/aidl/PowerHintSession.cpp:296-333 | in every run the boost changes with accepted reports only, and after one it is what that rule says of all reports of the session |
| BoostRule.BoostComesOnIff | power-libperfmgr/aidl/PowerHintSession.cpp:315-325 | the boost comes on exactly at accepted reports with enough missed reports in the window and a normal frame rate, and goes off only at ones with few, or with a low frame rate |
| BoostRule.MissedWhenLonger | power-libperfmgr/aidl/SessionRecords.cpp:70 | with the test a session's records are made for, the missed reports of the window are exactly those that took longer than the target times the configured factor |
| PowerHintSession.PowerHintSession.constructor | power-libperfmgr/aidl/PowerHintSession.cpp:131-169 | a new session, its threads and its two first votes in the manager |
| PowerHintSession.PowerHintSession.Register | power-libperfmgr/aidl/PowerHintSession.cpp:158-167 | model, queue and descriptor after registration equal the plain description |
| PowerHintSession.PowerHintSession.CastCpuVote | power-libperfmgr/aidl/PowerHintSession.cpp:193-197 | a CPU vote with the highest upper clamp, and the event it needs |
| PowerHintSession.PowerHintSession.CastGpuVote | power-libperfmgr/aidl/PowerHintSession.cpp:424-427 | a GPU vote, and the event it needs |
| PowerHintSession.PowerHintSession.UpdatePidControlVariable | power-libperfmgr/aidl/PowerHintSession.cpp:187-200 | the control variable, and the default vote for it if asked for |
| PowerHintSession.PowerHintSession.Pause | power-libperfmgr/aidl/PowerHintSession.cpp:221-237 | status, descriptor, sessions and queue after the call, errors included |
| PowerHintSession.PowerHintSession.Resume | power-libperfmgr/aidl/PowerHintSession.cpp:239-256 | as above |
| PowerHintSession.PowerHintSession.Close | power-libperfmgr/aidl/PowerHintSession.cpp:258-270 | as above |
| PowerHintSession.PowerHintSession.UpdateTargetWorkDuration | power-libperfmgr/aidl/PowerHintSession.cpp:272-293 | as above |
| PowerHintSession.PowerHintSession.SetThreads | power-libperfmgr/aidl/PowerHintSession.cpp:521-538 | as above |
| PowerHintSession.PowerHintSession.SetMode | power-libperfmgr/aidl/PowerHintSession.cpp:497-519 | as above |
| PowerHintSession.PowerHintSession.SendHint | power-libperfmgr/aidl/PowerHintSession.cpp:432-495 | as above, hint by hint |
| PowerHintSession.PowerHintSession.MaxToAvgRatio | power-libperfmgr/aidl/PowerHintSession.cpp:297-311 | the integer quotient of the true maximum and average of the last reports |
| PowerHintSession.PowerHintSession.UpdateHeuristicBoost | power-libperfmgr/aidl/PowerHintSession.cpp:295-333 | the flag after the rule on the plain statistics of all reports, which `BoostRule.RuleMeans` spells out |
| PowerHintSession.PowerHintSession.ConvertWorkDurationToBoostByPid | power-libperfmgr/aidl/PowerHintSession.cpp:63-128 | controller state and output as functions of the batch and the old state, which `HintEffects.BoostScalesGain` and `PidOutput` spell out |
| PowerHintSession.PowerHintSession.Record | power-libperfmgr/aidl/PowerHintSession.cpp:387-390 | the batch joins the records and the switch is set by them |
| PowerHintSession.PowerHintSession.Control | power-libperfmgr/aidl/PowerHintSession.cpp:392-405 | the control variable moved by the output between floor and ceiling, and the vote for it |
| PowerHintSession.PowerHintSession.RecordAndControl | power-libperfmgr/aidl/PowerHintSession.cpp:387-405 | both of these, in order |
| PowerHintSession.PowerHintSession.VoteForGpu | power-libperfmgr/aidl/PowerHintSession.cpp:407-429 | the clamped GPU vote of the batch's last frame, if there is one to cast, which `ReportedVotes.ReportGpuVote` and `GpuCapacity.CapacityIsShareOfOverrun` spell out |
| PowerHintSession.PowerHintSession.DisableBoosts | power-libperfmgr/aidl/PowerHintSession.cpp:380 | the session's boost votes are off and nothing else differs |
| PowerHintSession.PowerHintSession.ReportActualWorkDuration | power-libperfmgr/aidl/PowerHintSession.cpp:335-430 | status, descriptor, sessions and queue after a report, errors included |
| PidControl.Accumulate | power-libperfmgr/aidl/PowerHintSession.cpp:70-103 | the loop computes the clamped integral over its window, the last error, the windowed sum, and as derivative the last error minus the error seen just before the window |
| PidControl.StateInBounds | power-libperfmgr/aidl/PowerHintSession.cpp:70-103 | after any report, whatever the windows, the integral is within its bounds |
| PidControl.IntegralConcat | power-libperfmgr/aidl/PowerHintSession.cpp:97-101 | accumulating in two parts is accumulating at once |
| PidControl.BatchingIsIrrelevant | power-libperfmgr/aidl/PowerHintSession.cpp:66-103 | with a fixed target and batches inside the integral window, the controller's state depends only on the flattened samples |
| PidControl.LongBatchForgets | power-libperfmgr/aidl/PowerHintSession.cpp:76-77 | a batch that fills the integral window forgets everything put in front of it |
| PidControl.DerivativeTelescopes | power-libperfmgr/aidl/PowerHintSession.cpp:91-93 | with batches for which no window opens before the derivative window, as for all that fit into it, the derivative sums of consecutive batches add up to last error minus first previous error |
| PidOutput.GainsHaveSides | power-libperfmgr/aidl/PowerHintSession.cpp:111-117 | with errors over target on average the output does not depend on the under-gain, with errors under it not on the over-gain, and likewise for rising and falling errors |
| PidOutput.OutputIsSum | power-libperfmgr/aidl/PowerHintSession.cpp:111-119 | the output is the sum of what each kind of gain gives alone |
| PidOutput.ProportionalOutput | power-libperfmgr/aidl/PowerHintSession.cpp:111-112 | a proportional gain alone gives that gain times the mean error of its window, cut toward zero |
| PidOutput.IntegralOutput | power-libperfmgr/aidl/PowerHintSession.cpp:113 | the integral gain alone gives that gain times the clamped integral over its window |
| PidOutput.DerivativeOutput | power-libperfmgr/aidl/PowerHintSession.cpp:114-117 | a derivative gain alone gives that gain times the mean change of the error over its window, per target time |
| PidOutput.OutputSign | power-libperfmgr/aidl/PowerHintSession.cpp:111-119 | with gains that are not negative the output has the sign that error, integral and derivative agree on |
| PidOutput.LateFramesRaise | power-libperfmgr/aidl/PowerHintSession.cpp:80-119 | the same in terms of durations over or under target |
| PidOutput.ErrorInUnits | power-libperfmgr/aidl/PowerHintSession.cpp:84-88 | an error is the distance from the target to less than 100 microseconds, with its sign |
| GpuCapacity.SanitizedShare | power-libperfmgr/aidl/GpuCalculationHelpers.cpp:25-50 | with unaccounted time, the attribution is gpu/(cpu+gpu), less at most one nanosecond's part of the total |
| GpuCapacity.ExpandedShare | power-libperfmgr/aidl/GpuCalculationHelpers.cpp:39-50 | before it is cut to whole nanoseconds, the expanded GPU time is the reported share of the total, and lies between reported GPU time and total |
| GpuCapacity.SanitizedBounds | power-libperfmgr/aidl/GpuCalculationHelpers.cpp:42-50 | sanitized GPU time lies between reported GPU time and total, the attribution in (0, 1] |
| GpuCapacity.CapacityBounds | power-libperfmgr/aidl/GpuCalculationHelpers.cpp:57-71 | capacity is at least zero, at most the overrun at full frequency, and zero for frames that meet the target or report impossible parts |
| GpuCapacity.CapacityIsShareOfOverrun | power-libperfmgr/aidl/GpuCalculationHelpers.cpp:57-71 | the capacity is the cycles that pass in the GPU's share of the overrun, gpu/(cpu+gpu) with unaccounted time and gpu/total without, to less than a cycle and a nanosecond of the expanded GPU time |
| GpuCapacity.CyclesPerSecond | power-libperfmgr/aidl/GpuCalculationHelpers.cpp:68-70 | what the cycles of a time are: the frequency for a second, and additive over time |
| SessionRecords.SessionRecords.constructor | power-libperfmgr/aidl/SessionRecords.cpp:30-33 | an empty window |
| SessionRecords.SessionRecords.AddReportedDurations | power-libperfmgr/aidl/SessionRecords.cpp:35-88 | ring, totals, average and deque describe exactly the last K reports of the whole history, and the invalid-count branch cannot be reached |
| SessionRecords.SessionRecords.RemoveFromTotals | power-libperfmgr/aidl/SessionRecords.cpp:43-51 | the totals after the oldest record has left; the count is never negative |
| SessionRecords.SessionRecords.RemoveFromDeque | power-libperfmgr/aidl/SessionRecords.cpp:53-57 | the deque describes the shorter window |
| SessionRecords.SessionRecords.MakeRecord | power-libperfmgr/aidl/SessionRecords.cpp:62-71 | the record extends the history as its plain definition says |
| SessionRecords.SessionRecords.PopShorter | power-libperfmgr/aidl/SessionRecords.cpp:77-82 | exactly the trailing positions of records that are not longer are gone |
| SessionRecords.SessionRecords.PushToDeque | power-libperfmgr/aidl/SessionRecords.cpp:77-83 | the deque again holds distinct positions in age order, strictly decreasing in duration, each record left out dominated by a later one kept |
| SessionRecords.SessionRecords.GetMaxDuration | power-libperfmgr/aidl/SessionRecords.cpp:90-95 | the maximum over the last K reported durations, absent if there are none |
| SessionRecords.SessionRecords.GetAvgDuration | power-libperfmgr/aidl/SessionRecords.cpp:97-102 | the truncated average over the last K reported durations |
| SessionRecords.SessionRecords.GetNumOfRecords | power-libperfmgr/aidl/SessionRecords.cpp:104-106 | the smaller of K and the number of reports |
| SessionRecords.SessionRecords.GetNumOfMissedCycles | power-libperfmgr/aidl/SessionRecords.cpp:108-110 | the number of missed cycles among the last K reports |
| SessionRecords.SessionRecords.IsLowFrameRate | power-libperfmgr/aidl/SessionRecords.cpp:112-126 | exactly if the last three reports all started too late after their predecessors |
| SessionRecords.FrontIsMax | power-libperfmgr/aidl/SessionRecords.cpp:90-95 | the front of a dominating, decreasing deque is the window's maximum |
| SessionRecords.HistoryAt | power-libperfmgr/aidl/SessionRecords.cpp:62-71 | each record of the history from its report and the one before it |
| TaskIndex.LinkKeeps | power-libperfmgr/aidl/SessionTaskMap.cpp:43-45 | linking one thread keeps the maps inverse to each other, with multiplicities |
| TaskIndex.UnlinkKeeps | power-libperfmgr/aidl/SessionTaskMap.cpp:161-182 | unlinking one thread keeps them so |
| TaskIndex.NewSessionKeeps | power-libperfmgr/aidl/SessionTaskMap.cpp:35-41 | and so does a new session without threads |
| TaskIndex.AddThenRemove | power-libperfmgr/aidl/SessionTaskMap.cpp:153-188 | removing what was freshly linked restores the thread map exactly |
| TaskIndex.WithLists | power-libperfmgr/aidl/SessionTaskMap.cpp:43-45 | every thread's list gains the session as often as the thread is listed |
| TaskIndex.KeptIffShared | power-libperfmgr/aidl/SessionTaskMap.cpp:177-181 | a thread stays mapped after a removal exactly if another session lists it |
| SessionTaskMap.SessionTaskMap.Add | power-libperfmgr/aidl/SessionTaskMap.cpp:29-47 | both maps after adding; a known id is refused and changes nothing |
| SessionTaskMap.SessionTaskMap.Remove | power-libperfmgr/aidl/SessionTaskMap.cpp:153-188 | both maps after removing, other sessions' links untouched; the inconsistency branches cannot be reached |
| SessionTaskMap.SessionTaskMap.Missing | power-libperfmgr/aidl/SessionTaskMap.cpp:230-238 | the listed threads that the map does not have |
| SessionTaskMap.SessionTaskMap.Replace | power-libperfmgr/aidl/SessionTaskMap.cpp:219-256 | the session's value and all other links are kept, and added and removed are exactly the two differences of the thread map's domain |
| SessionTaskMap.SessionTaskMap.RemoveDeadTaskSessionMap | power-libperfmgr/aidl/SessionTaskMap.cpp:190-217 | one link is dropped exactly if it is there |
| SessionTaskMap.SessionTaskMap.GetTaskVoteRange | power-libperfmgr/aidl/SessionTaskMap.cpp:80-103 | the range after visiting the thread's sessions in list order; the default for an unknown thread |
| SessionTaskMap.SessionValue.NarrowRange | power-libperfmgr/aidl/SessionTaskMap.cpp:91-102 | one session's part in that |
| SessionTaskMap.SessionTaskMap.GetSessionsGpuCapacity | power-libperfmgr/aidl/SessionTaskMap.cpp:105-113 | the highest request of any session, active or not, or zero |
| SessionTaskMap.SessionTaskMap.IsAnyAppSessionActive | power-libperfmgr/aidl/SessionTaskMap.cpp:138-151 | exactly if some active app session has a vote in force |
| UclampVoter.VoteTable.GetUclampRange | power-libperfmgr/aidl/UClampVoter.cpp:94-100 | the highest lower and lowest upper clamp of all CPU votes in force, in whatever order the map is visited |
| UclampVoter.VoteTable.AllTimedOut | power-libperfmgr/aidl/UClampVoter.cpp:117-130 | exactly if no vote of either kind is in force |
| UclampVoter.VoteTable.GetGpuCapacityRequest | power-libperfmgr/aidl/UClampVoter.cpp:56-71 | the sum of the two capacity votes in force, absent if neither is |
| UclampVoter.VoteTable.WithTiming | power-libperfmgr/aidl/UClampVoter.cpp:79-92 | one vote's timing changes and nothing else in the table |
| UclampVoter.VoteTable.DisableAll | power-libperfmgr/aidl/UClampVoter.cpp:151-167 | exactly the listed votes are off, with times, clamps and capacities kept |
| UclampVoter.BoostsOff | power-libperfmgr/aidl/PowerSessionManager.cpp:390-394 | switching the boosts off leaves on, of the votes that are, the default vote and the GPU's lower-load and capacity votes |
| TaskVoteRange.MinIsHighest | power-libperfmgr/aidl/SessionTaskMap.cpp:91-102 | a thread's lower clamp is the maximum over all CPU votes in force of its active sessions |
| TaskVoteRange.MaxIsLowest | power-libperfmgr/aidl/SessionTaskMap.cpp:91-102 | its upper clamp is the minimum over those votes and the efficiency caps |
| TaskVoteRange.OrderFree | power-libperfmgr/aidl/SessionTaskMap.cpp:91-102 | both are the same for every order of the sessions when none of them is capping |
| TaskVoteRange.EfficiencyBound | power-libperfmgr/aidl/SessionTaskMap.cpp:96-101 | for every order the upper clamp is at most final lower clamp plus offset, or base, for each capping session |
| TaskVoteRange.CappedMax | power-libperfmgr/aidl/SessionTaskMap.cpp:96-101 | closed form: of all capping sessions with a vote in force only the first in list order matters |
| TaskVoteRange.CappedMaxOrderFreeIff | power-libperfmgr/aidl/SessionTaskMap.cpp:96-101 | the capped upper clamp is the one computed from the final lower clamp exactly if the lower clamp is complete at that first session or another bound is at least as tight |
| TaskVoteRange.EveryOrderAgreesIff | power-libperfmgr/aidl/SessionTaskMap.cpp:91-101 | all orders of the sessions give the same upper clamp exactly if every capping session with a vote in force has the final lower clamp by itself or another bound is at least as tight as the cap it would set if visited first |
| TaskVoteRange.RunningMinGrows | power-libperfmgr/aidl/SessionTaskMap.cpp:91-101 | the lower clamp never falls along the list |
| TaskVoteRange.OrderMattersUnderCap | power-libperfmgr/aidl/SessionTaskMap.cpp:96-101 | two sessions whose order changes the upper clamp |
| TaskVoteRange.ClampForScheduler | power-libperfmgr/aidl/PowerSessionManager.cpp:60-63 | the applied pair satisfies 0 <= min <= max <= 1024, with min winning conflicts |
| ThreadSweep.SweptConsistent | power-libperfmgr/aidl/PowerSessionManager.cpp:483-501 | at every point of the sweep of dead threads the two maps are inverse to each other |
| ThreadSweep.SweptKeeps | power-libperfmgr/aidl/PowerSessionManager.cpp:483-501 | the sweep leaves the other sessions' links and the lists of living threads alone |
| ThreadSweep.SweepResult | power-libperfmgr/aidl/PowerSessionManager.cpp:483-501 | the maps after the sweep, and that living threads stay mapped |
| ThreadSweep.ConsistentSweepReady | power-libperfmgr/aidl/PowerSessionManager.cpp:485-501 | every round finds the link it looks for |
| ThreadSweep.AliveTwice | power-libperfmgr/aidl/PowerSessionManager.cpp:491-500 | two sweeps are one sweep of both sets of dead threads |
| ThreadSweep.SweptClamps | power-libperfmgr/aidl/PowerSessionManager.cpp:485-500 | every thread the session keeps has the clamp its votes ask for, every thread it does not list the one it had |
| OtherSessions.InactiveHasNoSay | power-libperfmgr/aidl/SessionTaskMap.cpp:91-94 | the clamp wanted on a thread is that of the other sessions when this one is inactive |
| OtherSessions.UnlistedSeesOthers | power-libperfmgr/aidl/SessionTaskMap.cpp:80-103 | and also when the session does not list the thread |
| OtherSessions.Replaced | power-libperfmgr/aidl/SessionTaskMap.cpp:240-243 | replacing a session changes nothing that threads see of the others |
| OtherSessions.Removed | power-libperfmgr/aidl/SessionTaskMap.cpp:153-188 | neither does removing it |
| PowerSessionManager.PowerSessionManager.constructor | power-libperfmgr/aidl/PowerSessionManager.h:129-135 | no sessions, no events, and the invariant that ties the thread profile to the thread map |
| PowerSessionManager.PowerSessionManager.ApplyToThread | power-libperfmgr/aidl/PowerSessionManager.cpp:486-500 | one round: the clamp is set, or the dead thread leaves both maps |
| PowerSessionManager.PowerSessionManager.ApplyToThreads | power-libperfmgr/aidl/PowerSessionManager.cpp:483-501 | the loop with its erasures computes the sweep |
| PowerSessionManager.PowerSessionManager.SweepThreads | power-libperfmgr/aidl/PowerSessionManager.cpp:480-502 | what the loop means for the session, its threads' clamps and the other sessions |
| PowerSessionManager.PowerSessionManager.ApplyUclampLocked | power-libperfmgr/aidl/PowerSessionManager.cpp:469-506 | dead threads are gone, the others clamped as all votes ask, nothing else changed |
| PowerSessionManager.PowerSessionManager.ApplyGpuVotesLocked | power-libperfmgr/aidl/PowerSessionManager.cpp:508-523 | the node holds the highest request of any session |
| PowerSessionManager.PowerSessionManager.ApplyCpuAndGpuVotes | power-libperfmgr/aidl/PowerSessionManager.cpp:525-531 | both |
| PowerSessionManager.PowerSessionManager.FindSession | power-libperfmgr/aidl/SessionTaskMap.cpp:72-78 | the value of a known session |
| PowerSessionManager.PowerSessionManager.VoteSet | power-libperfmgr/aidl/PowerSessionManager.cpp:313-344 | sessions, queue and clamps after setting a CPU vote |
| PowerSessionManager.PowerSessionManager.GpuVoteSet | power-libperfmgr/aidl/PowerSessionManager.cpp:346-376 | sessions, queue and GPU node after setting a GPU vote |
| PowerSessionManager.PowerSessionManager.HandleEvent | power-libperfmgr/aidl/PowerSessionManager.cpp:418-467 | sessions, queue, clamps and GPU node after an event, in all three cases; if the vote is still on, one event waits for its timeout |
| PowerSessionManager.PowerSessionManager.RunNext | power-libperfmgr/aidl/BackgroundWorker.cpp:86-142 | the earliest due event is taken and handled, or none is due |
| PowerSessionManager.PowerSessionManager.Drain | power-libperfmgr/aidl/BackgroundWorker.cpp:86-142 | running the worker at a fixed time ends, by protocol steps, with nothing due |
| PowerSessionManager.PowerSessionManager.DisableBoosts | power-libperfmgr/aidl/PowerSessionManager.cpp:378-400 | of the nine kinds of vote, the default vote and the GPU's lower-load and capacity votes are as on or off as before, and all others are off |
| PowerSessionManager.PowerSessionManager.UpdateTargetWorkDuration | power-libperfmgr/aidl/PowerSessionManager.cpp:290-305 | the vote's duration and nothing else |
| PowerSessionManager.PowerSessionManager.ForceSessionActive | power-libperfmgr/aidl/PowerSessionManager.cpp:541-557 | the flag, the clamps and the GPU node; made inactive, the session leaves its threads to the other sessions |
| PowerSessionManager.PowerSessionManager.Pause | power-libperfmgr/aidl/PowerSessionManager.cpp:250-268 | an active session becomes inactive and its votes are taken back |
| PowerSessionManager.PowerSessionManager.Resume | power-libperfmgr/aidl/PowerSessionManager.cpp:270-288 | the reverse |
| PowerSessionManager.PowerSessionManager.SetPreferPowerEfficiency | power-libperfmgr/aidl/PowerSessionManager.cpp:559-570 | the mode, and clamps applied when it changes |
| PowerSessionManager.PowerSessionManager.SetTaskProfiles | power-libperfmgr/aidl/PowerSessionManager.cpp:183-192 | exactly the listed threads enter or leave the profile |
| PowerSessionManager.PowerSessionManager.ReplaceThreads | power-libperfmgr/aidl/PowerSessionManager.cpp:179-192 | a thread never reported dead is in the ResetUclampGrp profile exactly when some session lists it |
| PowerSessionManager.PowerSessionManager.SetThreadsFromPowerSession | power-libperfmgr/aidl/PowerSessionManager.cpp:173-194 | the new threads carry the session's clamps, the dropped ones are left to the other sessions |
| PowerSessionManager.PowerSessionManager.AddPowerSession | power-libperfmgr/aidl/PowerSessionManager.cpp:110-144 | a new session with an inactive default vote and its threads, clamped as all votes ask |
| PowerSessionManager.PowerSessionManager.RemovePowerSession | power-libperfmgr/aidl/PowerSessionManager.cpp:146-171 | the session is gone, and its former threads carry exactly the clamps that the other sessions ask for |
| SessionModel.VoteSetRefines | power-libperfmgr/aidl/PowerSessionManager.cpp:307-344 | what setting a vote does to votes and events is what the protocol's steps do |
| SessionModel.RunNextRefines | power-libperfmgr/aidl/PowerSessionManager.cpp:418-456 | what a round of the worker does is what the protocol's three steps do |
| BackgroundWorker.PriorityQueueWorker.Schedule | power-libperfmgr/aidl/BackgroundWorker.h:106-114 | the package is pending under a fresh id; queued and stored ids stay in bijection |
| BackgroundWorker.PriorityQueueWorker.Top | power-libperfmgr/aidl/BackgroundWorker.h:64-78 | a ticket with the smallest deadline |
| BackgroundWorker.PriorityQueueWorker.RunNext | power-libperfmgr/aidl/BackgroundWorker.h:129-143 | dispatched once, never early, smallest deadline first, scheduled = dispatched + pending; the drop branch cannot be reached |
| BackgroundWorker.LostPackagesIff | power-libperfmgr/aidl/BackgroundWorker.h:106-114 | with the two halves of schedule interleaved, every package reaches the queue exactly if no call started inside another |
| BackgroundWorker.OverlappingCallsLosePackage | power-libperfmgr/aidl/BackgroundWorker.h:106-114 | two overlapping calls queue the second id twice and lose the first package |
| InteractionHandler.EveryRun | power-libperfmgr/disp-power/InteractionHandler.cpp:146-277 | from Init on, in every interleaving of Acquire with the routine, the three results below hold |
| InteractionHandler.HintsAlternate | power-libperfmgr/disp-power/InteractionHandler.cpp:146-215 | PerfLock and PerfRel alternate, the hint is held exactly in INTERACTION or WAITING, the event descriptor is 1 exactly when an Acquire has interrupted the wait and 0 otherwise |
| InteractionHandler.BoostLastsForLongestRequest | power-libperfmgr/disp-power/InteractionHandler.cpp:151-181 | the recorded end is that of one of the requests since idleness and no request wants it a millisecond longer; a timed-out wait has reached it |
| InteractionHandler.WholeMsClockIsExact | power-libperfmgr/disp-power/InteractionHandler.cpp:168-181 | on a whole-millisecond clock it is exactly the latest end requested, skipped requests included |
| InteractionHandler.SkippedRequestMayLoseTime | power-libperfmgr/disp-power/InteractionHandler.cpp:63-68 | a run between whole milliseconds in which it is not |
| InteractionHandler.StaysExactIff | power-libperfmgr/disp-power/InteractionHandler.cpp:168-181 | exactly which steps leave the recorded end short of the latest end requested: a skipped request that asks for more than the boost has left |
| InteractionHandler.AlwaysExactIff | power-libperfmgr/disp-power/InteractionHandler.cpp:146-207 | the recorded end is the latest one requested at every point of exactly the runs without such a step |
| InteractionHandler.ReleaseIsNeverEarly | power-libperfmgr/disp-power/InteractionHandler.cpp:194-200 | a release after a timed-out wait comes after every request's end, to less than a millisecond |
| InteractionHandler.InterruptedWaitStartsAfresh | power-libperfmgr/disp-power/InteractionHandler.cpp:185-276 | a request that interrupts the wait is served without time passing: within six steps the descriptor is cleared, a new wait for the new duration has begun, and the hint was held all along |
| InteractionHandler.ElapsedIsClose | power-libperfmgr/disp-power/InteractionHandler.cpp:63-68 | the computed elapsed time is less than a millisecond off, never negative, exact on whole milliseconds |
| InteractionHandler.FinalDurationRange | power-libperfmgr/disp-power/InteractionHandler.cpp:151-158 | the granted duration is between minimum and maximum for every request, negative sums included |
| InteractionHandler.GrantedDuration | power-libperfmgr/disp-power/InteractionHandler.cpp:151-158 | a request is granted its duration plus the offset where that lies between minimum and maximum, the minimum below and the maximum above, for every request |
| InteractionHandler.ExitLeavesHint | power-libperfmgr/disp-power/InteractionHandler.cpp:116-130 | whatever runs after Exit, the hint stays held exactly if the handler was not idle |
| InteractionHandler.ExitJoins | power-libperfmgr/disp-power/InteractionHandler.cpp:121-126 | after Exit the routine can always go on to its end in at most five steps without time passing |
| InteractionHandler.Handler.constructor | power-libperfmgr/disp-power/InteractionHandler.cpp:85-86 | a handler that is not yet initialized |
| InteractionHandler.Handler.Init | power-libperfmgr/disp-power/InteractionHandler.cpp:92-114 | a running handler, or nothing changed |
| InteractionHandler.Handler.Acquire | power-libperfmgr/disp-power/InteractionHandler.cpp:146-192 | the Acquire step, keeping the invariants |
| InteractionHandler.Handler.BeginWait | power-libperfmgr/disp-power/InteractionHandler.cpp:266-272 | the locked part of the routine, keeping the invariants |
| InteractionHandler.Handler.Release | power-libperfmgr/disp-power/InteractionHandler.cpp:194-207 | the Release step, keeping the invariants |
| InteractionHandler.Handler.Exit | power-libperfmgr/disp-power/InteractionHandler.cpp:116-122 | the locked part of Exit |

## Left out

- Votes are values inside a session's value; the `Votes` object that copies of a session share in the code is not shared here, because a replaced session is removed in the same call.
- The `lastUpdatedTime` and `mLastUpdatedTime` fields, `isTimeout`, and the ADPF_FIRST_FRAME and session hints sent to HintManager: they feed logs and hints only.
- `updateUniversalBoostMode` beyond its test (`SessionTaskMap.SessionTaskMap.IsAnyAppSessionActive`): it sends a hint.
- PowerHintSession.PowerHintSession.SendHint: without POWER_EFFICIENCY, which calls `setMode` and so takes the session's lock again.
- `Votes::remove`, `anyTimedOut` and the size and dump functions: no caller in the modelled paths.
- Calls of hint sessions are single steps in `SessionSystem`; calls of different sessions falling between the manager calls of one session call are covered for votes and events, by `TimeoutProtocol`, and for single operations of the manager, by `ServedVotes.ServedKeptIff` and `BoostedThreads.ActGood`.
- ManagerSteps.CallDoes: takes switching the boosts off and the vote that follows in the same report as one operation, where the code makes two manager calls.
- PowerSessionManager.PowerSessionManager.HandleEvent: takes switching the vote off and applying what is left as one step, where the code releases the lock in between.
- PowerSessionManager.PowerSessionManager.ReplaceThreads: takes the change of the thread map and the profile calls as one step, where the code makes the profile calls outside the lock.
- BackgroundWorker.PriorityQueueWorker.Schedule: atomic in the class; the non-atomic form is `BackgroundWorker.LostPackagesIff`.
- BackgroundWorker.PriorityQueueWorker.RunNext: one worker thread and one callback; several threads, callback registration and shutdown are not modelled.
- GpuCapacity.CapacityBounds: the cut to whole nanoseconds and cycles is modelled, the rounding of `float` and `double` is not.
- GpuCapacity.SanitizedShare: over the reals in the same way.
- PowerSessionManager.PowerSessionManager.ApplyToThread: `set_uclamp` either succeeds or reports the thread dead; when it fails with another error the code keeps the thread with the clamp it had.
- PowerSessionManager.PowerSessionManager.ApplyUclampLocked: the same.
- Switching the ADPF profile during a run (PowerSessionManager.cpp:92-94): a run has one profile.
- Overflow of 64-bit sums and products is not modelled; the 32-bit conversions are.
- PowerHintSession.PowerHintSession.ReportActualWorkDuration: an accepted report is asked not to divide by zero, which the code does for a target under 100 microseconds, for an average duration of zero, and for CPU and GPU times that cancel out where it comes to expand the GPU time; refused reports, and frames for which it returns before dividing, are not restricted.
- PowerHintSession.PowerHintSession.VoteForGpu: the last of these.
- SessionRecords.SessionRecords.constructor: requires at least one record, because the code takes a remainder by that number.
- InteractionHandler: `Init` and `Exit` overlapping each other, and reading of the idle state file, which is a free choice of the wait's outcome.
- The `usb`, `lights`, `hidl` and binder code, GpuCapacityNode, HintManager, AdpfConfig parsing, tracing, logging and dumps.
