# Charger policy: a verified model

The kernel charger driver decides who may charge, how fast and when to stop. This
project models its decision logic in Dafny and proves what that logic keeps over
whole runs:

- `Voter`, `VotableObject`, `VoterRuns`: the vote arbiter. Clients vote on one value;
  the winner is cached, a callback hears of changes, and an override and a debug-force
  layer sit on top.
- `OutputInterlock`: the policy's use of the wireless output-disable votable, down to
  the over-voltage interlock.
- `ChargeDone`: how a charge ends, in the ballots of that votable: full reports,
  recharges, timeouts and resets.
- `Hysteresis`: the battery and the fast-charge temperature regions, whose thresholds
  rewrite themselves.
- `Ffc`: the fast full charge state machine (DEFAULT, FAST, IDLE).
- `FfcOutcomes`: what it votes over whole runs and at which voltages and currents it goes
  on, steps and ends.
- `FullDetect`: the debounced battery-full test.
- `Handshake`: the command slot shared by kernel writers and user-space readers, one
  action per lock operation, slot write or flag change.
- `ChangeNotify`: the change-notification worker and its wake source.
- `ModuleBringup`: module init and exit over the linker sections, with rollback.
- `SectionAccounting`, `LedAccounting`: charge-time bookkeeping by state of charge and
  by screen state.
- `RateLimit`: the daily limit on exception uploads.
- `OlcConfig`: the text form of the sixteen online-log masks.
- `Kernel`: the optional values and error codes they share.

Where the source updates an object in place, the model has a class whose methods are
proved equal to a specification function on values (`...Step`); the theorems are about
those functions and the runs made of them. The handshake and the notification worker
are interleavings of several threads, so they are state machines over atomic steps.

## Properties that turned out conditional

- The battery region never reverses within 20 decidegrees exactly when the configured
  thresholds rise by at least 20 each. The built-in table fills seven of its eight
  thresholds, so the last one is 0 and the property fails at 50 degrees.
- The fast-charge region needs less, because its first sample already moves a
  threshold: exactly, that every threshold whose value is above the first one's has all
  later thresholds at least 20 higher. Thresholds not above the first are exempt.
- A fast-charge check reads its tables out of bounds exactly when, wireless online and
  USB offline, FAST meets an unchargeable region that is also the remembered one. The
  remembered region is a static that a switch does not reset, so leaving FAST for such
  a region, switching and meeting it again gets there.
- The fast-charge flag mirrors the status throughout a run exactly when every status
  initialisation happens in DEFAULT. The initialisation, which every receiver reset ends
  with, clears the flag but not the status, and is reachable in FAST.
- The elected value depends on the last vote of each client that was accepted, not on the
  last vote cast. A vote is accepted exactly when its client has a slot, or one of the 32
  is free and its name can be allocated; so queries for other names, or another order, can
  turn a winning vote away. Where all names fit and allocation works, the last votes decide.
- A low-current step does not reset its counter, so from the fourth low sample on every
  sample earns a step.
- A call leaves an informed callback informed exactly when it is benign: an override
  that the callback refuses, an override to -EINVAL, or a force value changed while
  forcing is on leaves it with another value than the visible one, until a later call
  announces the visible value again.
- The reported effective client of a MIN or MAX votable may have withdrawn. A vote makes
  it stale exactly when it is the reported client's own, takes its winning ballot away,
  and the result stands without it: because another client holds the same value, or
  because the value was -EINVAL and no candidate is left. Both happen from a created
  votable.
- The comment above the minimum election promises INT_MAX when nobody is enabled; the
  code yields -EINVAL, and so does a lone vote for INT_MAX.
- The over-voltage interlock holds throughout a run exactly when every trip lands, that
  is, when its vote finds the votable and a slot, or its ballot is on already. A trip that
  does not is not retried.
- A charge that timed out is over for good: nothing, the receiver's reset included, ever
  withdraws the timeout vote on the output, though the reset lowers the flag.
- While fast charging is IDLE, its last vote on the output is to disable it. Only an IDLE
  phase that ends without an error and with wireless online withdraws that vote; any
  other end leaves it standing in DEFAULT.
- An override made while forcing is on is announced, when forcing ends, under the name of
  whoever made the override before it.
- Two readers of the command slot can both deliver one command; one reader cannot.
- Shutdown mirrors bring-up exactly when every module has both functions or neither; a
  rollback mirrors exactly when every module before the failing one does.

## Model

| member | source | states |
|---|---|---|
| Voter.ToInt32 | oplus/kernel/charger/oplus_chg_voter.c:326-327 | the forced value is the unsigned word read as a signed one: congruent to it modulo 2^32 |
| Voter.Occupied | oplus/kernel/charger/oplus_chg_voter.c:158-167 | the free slot a new name gets is the first empty one |
| Voter.SlotOf | oplus/kernel/charger/oplus_chg_voter.c:152-156 | a known name is found in its first slot, and not found means no slot holds it |
| Voter.GetClientId | oplus/kernel/charger/oplus_chg_voter.c:148-169 | a lookup that succeeds ends with the name in the slot it returns, one that fails changes nothing, and no other occupied slot is ever touched |
| Voter.ScanMin | oplus/kernel/charger/oplus_chg_voter.c:99-115 | the result is a lower bound of all enabled values, held by the named slot, and strictly below every enabled value before that slot |
| Voter.ScanMax | oplus/kernel/charger/oplus_chg_voter.c:130-146 | the same for the maximum |
| Voter.ElectIsResult | oplus/kernel/charger/oplus_chg_voter.c:73-146 | every election yields the extreme enabled value (MIN, MAX) or whether anybody is enabled (SET_ANY), said of the set of enabled values alone |
| Voter.ElectNamesFirstWinner | oplus/kernel/charger/oplus_chg_voter.c:86-146 | MIN and MAX name the first enabled client with the winning value, and name nobody exactly when nothing but the sentinel is enabled |
| Voter.ResultUnique | oplus/kernel/charger/oplus_chg_voter.c:73-146 | the set of enabled values determines the result |
| Voter.OccupiedGrows | oplus/kernel/charger/oplus_chg_voter.c:158-167 | a new name goes to the first empty slot, so occupied slots stay a prefix |
| VotableObject.Votable.constructor | oplus/kernel/charger/oplus_chg_voter.c:750-764 | a created votable: no clients, no vote yet, 0 or -EINVAL as its type says |
| VotableObject.Votable.VoteSetAny | oplus/kernel/charger/oplus_chg_voter.c:73-84 | the loop computes the SET_ANY election over the occupied slots |
| VotableObject.Votable.VoteMin | oplus/kernel/charger/oplus_chg_voter.c:99-115 | the loop computes the MIN election over the occupied slots |
| VotableObject.Votable.VoteMax | oplus/kernel/charger/oplus_chg_voter.c:130-146 | the loop computes the MAX election over the occupied slots |
| VotableObject.Votable.GetClientId | oplus/kernel/charger/oplus_chg_voter.c:148-169 | the two loops find or allocate the slot as the lookup function says, including -ENOMEM and the full table |
| VotableObject.Votable.ClientString | oplus/kernel/charger/oplus_chg_voter.c:171-177 | the name in a slot, or none for -EINVAL |
| VotableObject.Votable.RunElection | oplus/kernel/charger/oplus_chg_voter.c:466-481 | the type selects the election |
| VotableObject.Votable.StoreBallot | oplus/kernel/charger/oplus_chg_voter.c:443-454 | the ballot is stored in its slot only, and a repeated ballot is recognised |
| VotableObject.Votable.RecordBallot | oplus/kernel/charger/oplus_chg_voter.c:429-454 | the slot is found or made and holds the ballot, or nothing changes |
| VotableObject.Votable.Settle | oplus/kernel/charger/oplus_chg_voter.c:466-500 | result, client, callback and voted_on change together as the settling step says |
| VotableObject.Votable.Vote | oplus/kernel/charger/oplus_chg_voter.c:416-504 | the whole new state and return code of a vote, slot failures and repeated votes included |
| VotableObject.Votable.VoteOverride | oplus/kernel/charger/oplus_chg_voter.c:527-558 | the whole new state of an override set or cleared, under forcing or not, and after a refusing callback |
| VotableObject.Votable.GetEffectiveResult | oplus/kernel/charger/oplus_chg_voter.c:321-333 | forcing wins over the override, which wins over the election |
| VotableObject.Votable.RerunElection | oplus/kernel/charger/oplus_chg_voter.c:560-577 | only the callback is told, with the visible value |
| VotableObject.Votable.ForceActiveSet | oplus/kernel/charger/oplus_chg_voter.c:616-648 | forcing on and off tells the callback the value that becomes visible |
| VotableObject.Votable.IsClientVoteEnabled | oplus/kernel/charger/oplus_chg_voter.c:232-246 | whether the client's ballot is enabled, with the slot the query itself allocates |
| VotableObject.Votable.GetClientVote | oplus/kernel/charger/oplus_chg_voter.c:273-289 | the client's ballot as a query reports it, with the slot the query itself allocates |
| VoterRuns.CreatedInv | oplus/kernel/charger/oplus_chg_voter.c:750-764 | a created votable satisfies the run invariant |
| VoterRuns.PrefixSuffices | oplus/kernel/charger/oplus_chg_voter.c:103-110 | stopping an election at the first empty slot misses no vote |
| VoterRuns.VoteKeepsInv | oplus/kernel/charger/oplus_chg_voter.c:416-504 | a vote, skipped election included, leaves the cached result equal to a fresh election over all votes |
| VoterRuns.ApplyKeepsInv | oplus/kernel/charger/oplus_chg_voter.c:416-648 | every entry point keeps the invariant and every name in its slot |
| VoterRuns.RunKeepsInv | oplus/kernel/charger/oplus_chg_voter.c:416-648 | after any run: occupied slots are a prefix of distinct names, empty slots abstain, a name keeps its slot, and the cache equals a fresh election |
| VoterRuns.VoteStoresBallot | oplus/kernel/charger/oplus_chg_voter.c:453-454 | an accepted vote leaves its ballot on file, whatever the election says |
| VoterRuns.OthersKeepBallot | oplus/kernel/charger/oplus_chg_voter.c:416-648 | no call changes the ballot of a client it does not vote for, whether or not that client has a slot |
| VoterRuns.OwnVoteSetsBallot | oplus/kernel/charger/oplus_chg_voter.c:429-454 | a client's own vote sets its ballot exactly when it gets a slot |
| VoterRuns.AdmitsIff | oplus/kernel/charger/oplus_chg_voter.c:148-169 | a lookup gets a slot if and only if the name has one, or fewer than 32 names do and allocation works |
| VoterRuns.RefusedVote | oplus/kernel/charger/oplus_chg_voter.c:429-433 | a vote that gets no slot changes nothing and returns -EINVAL for a full table, -ENOMEM otherwise |
| VoterRuns.RunRegisters | oplus/kernel/charger/oplus_chg_voter.c:148-169 | which names have a slot after any run, from its calls alone |
| VoterRuns.RunBallots | oplus/kernel/charger/oplus_chg_voter.c:416-504 | after any run, each client's ballot is its last accepted vote in the run, or what was on file |
| VoterRuns.QueryAnswersLastVote | oplus/kernel/charger/oplus_chg_voter.c:273-289 | after any run, a client query answers with the value of that client's last accepted vote; without an enabled one with 0 for SET_ANY and -EINVAL otherwise, and with -EINVAL when the query gets no slot |
| VoterRuns.OnlyLastVotesMatter | oplus/kernel/charger/oplus_chg_voter.c:416-504 | two runs that agree on every client's last accepted counted vote elect the same value, whatever the order of their calls and whichever were refused |
| VoterRuns.LookupSucceeds | oplus/kernel/charger/oplus_chg_voter.c:148-169 | while at most 32 names are used, every name is admitted |
| VoterRuns.FittingRunsRefuseNobody | oplus/kernel/charger/oplus_chg_voter.c:148-169 | a run whose names fit refuses no vote, so the last accepted vote is the last vote |
| VoterRuns.FittingRunBallots | oplus/kernel/charger/oplus_chg_voter.c:416-504 | after a run that fits, each client's ballot is its last vote |
| VoterRuns.FittingQueryAnswers | oplus/kernel/charger/oplus_chg_voter.c:273-289 | after a run that fits, a client query answers with its last vote |
| VoterRuns.FittingVotesMatter | oplus/kernel/charger/oplus_chg_voter.c:416-504 | two runs that fit and agree on every last counted vote elect the same value |
| VoterRuns.QueriesBlockAVote | oplus/kernel/charger/oplus_chg_voter.c:232-289 | 32 queries before a vote that would win turn it away, though every client's last vote is the same |
| VoterRuns.FailedAllocationBlocksAVote | oplus/kernel/charger/oplus_chg_voter.c:158-167 | so does a slot name that cannot be allocated |
| VoterRuns.ApplyTracksIff | oplus/kernel/charger/oplus_chg_voter.c:527-648 | a call keeps the callback's last value equal to the visible one if and only if it is benign |
| VoterRuns.CallbackTracksVisible | oplus/kernel/charger/oplus_chg_voter.c:485-648 | over every run of benign calls the callback last heard the visible value |
| VoterRuns.VoteAnnouncesChanges | oplus/kernel/charger/oplus_chg_voter.c:485-498 | a vote calls the callback exactly when it is accepted, nothing covers the election, and it is the first vote or changes the result |
| VoterRuns.VoteOnFile | oplus/kernel/charger/oplus_chg_voter.c:443-454 | what an accepted vote leaves on file: SET_ANY keeps 1 or 0, the others the value |
| VoterRuns.AcceptedVoteAnnounces | oplus/kernel/charger/oplus_chg_voter.c:466-500 | an accepted vote that is first or changes an uncovered result calls the callback once, with the new result, the name of a holder of the winning vote (the voter for SET_ANY, nobody without a candidate) and its step flag, and returns the answer; any other calls nobody and returns 0 |
| VoterRuns.OverrideShows | oplus/kernel/charger/oplus_chg_voter.c:527-558 | the callback hears an override under its client's name and decides whether it shows; lifting it shows the election again, whatever the callback answers |
| VoterRuns.OverrideUnderForce | oplus/kernel/charger/oplus_chg_voter.c:527-558 | an override under forcing shows nothing and calls nobody until forcing ends, and is then announced under the name of the override before it |
| VoterRuns.RerunRepeats | oplus/kernel/charger/oplus_chg_voter.c:560-577 | a rerun tells the callback what is visible, under the cached client's name, and changes nothing else |
| VoterRuns.OverrideOutlivesForce | oplus/kernel/charger/oplus_chg_voter.c:616-648 | forcing on and off again leaves an override in force, and the callback hears the forced value and then the override's under the name that made it |
| VoterRuns.LayersLeaveElection | oplus/kernel/charger/oplus_chg_voter.c:506-648 | erasing all overrides, forces and reruns from a run changes nothing about votes, slots, cached result, cached client or voted_on |
| VoterRuns.UntracksFromCreated | oplus/kernel/charger/oplus_chg_voter.c:527-648 | from a created votable, one vote and any call that is not benign leave the callback misinformed |
| VoterRuns.RefusedOverrideUntracks | oplus/kernel/charger/oplus_chg_voter.c:540-549 | such a run exists for every first vote: an override that the callback refuses |
| VoterRuns.ResultStandsIff | oplus/kernel/charger/oplus_chg_voter.c:99-146 | replacing the winner's ballot keeps the result exactly when another client holds it unbeaten, or when it is -EINVAL and no candidate is left |
| VoterRuns.WinnerKeptIff | oplus/kernel/charger/oplus_chg_voter.c:485-488 | a vote leaves the reported client a holder of the winning vote, unless it is that client's own vote for something else and the result stands without it, as the votes before the call decide |
| VoterRuns.TiedWinnerMayWithdraw | oplus/kernel/charger/oplus_chg_voter.c:366-378 | a tied winner that withdraws is still reported as the effective client |
| VoterRuns.TieStaysReported | oplus/kernel/charger/oplus_chg_voter.c:416-504 | from a created votable, two clients tie and the first withdraws: it is still reported |
| VoterRuns.LoneEinvalStaysReported | oplus/kernel/charger/oplus_chg_voter.c:416-504 | from a created votable, a lone client votes -EINVAL and withdraws: it is still reported with nobody enabled |
| OutputInterlock.OutputPolicy.CheckChargeTimeout | oplus/kernel/charger/oplus_chg_comm.c:1688-1721 | counter, flag and timeout vote of one call |
| OutputInterlock.OutputPolicy.CheckBatteryUovp | oplus/kernel/charger/oplus_chg_comm.c:1802-1837 | the over-voltage flag and its vote of one call |
| OutputInterlock.OutputPolicy.CheckTermCurrent | oplus/kernel/charger/oplus_chg_comm.c:1501-1537 | charge done, pending recharge and the output vote of one call |
| OutputInterlock.OutputPolicy.Recharge | oplus/kernel/charger/oplus_chg_comm.c:1892-1900 | the recharge decision and the vote it withdraws |
| OutputInterlock.OutputPolicy.Heartbeat | oplus/kernel/charger/oplus_chg_comm.c:1858-1900 | what the periodic work does to the output-disable votable and the flags behind it, as the composition of its checks in order |
| OutputInterlock.CreatedAgreed | oplus/kernel/charger/oplus_chg_voter.c:750-764 | at start, before any client has a slot, over-voltage flag and vote agree |
| OutputInterlock.OthersKeepUovp | oplus/kernel/charger/oplus_chg_voter.c:443-461 | no call under another name changes the over-voltage ballot, whether or not its client has a slot |
| OutputInterlock.UovpVote | oplus/kernel/charger/oplus_chg_voter.c:429-454 | an over-voltage vote sets that ballot exactly when votable and slot are found |
| OutputInterlock.HeartbeatKeepsLockIff | oplus/kernel/charger/oplus_chg_comm.c:1858-1900 | a heartbeat keeps the vote behind the over-voltage flag if and only if its trip lands |
| OutputInterlock.HeartbeatAgreesIff | oplus/kernel/charger/oplus_chg_comm.c:1858-1900 | it keeps flag and vote in agreement if and only if its trip lands and its release finds the votable |
| OutputInterlock.ResetAgrees | oplus/kernel/charger/op_wlchg_v2/oplus_chg_wls.c:1876-1891 | the receiver's reset puts flag and vote in agreement from any state |
| OutputInterlock.StepKeepsLockIff | oplus/kernel/charger/oplus_chg_comm.c:1802-1837 | an event of the system keeps the interlock if and only if its trip lands |
| OutputInterlock.AlwaysLockedIff | oplus/kernel/charger/oplus_chg_comm.c:1802-1837 | over every run the interlock holds throughout if and only if every trip lands |
| OutputInterlock.OvervoltageKeepsOutputDisabled | oplus/kernel/charger/oplus_chg_comm.c:1802-1837 | over every run whose trips land, of heartbeats, fast-charge votes, resets and calls of other modules, the over-voltage flag means the output is disabled |
| OutputInterlock.DisabledFromCreated | oplus/kernel/charger/oplus_chg_comm.c:1802-1837 | the same from the created votable |
| OutputInterlock.FlagAndVoteAgree | oplus/kernel/charger/oplus_chg_comm.c:1802-1837 | where the votable is found, the vote also leaves with the flag |
| OutputInterlock.LostTripStaysLost | oplus/kernel/charger/oplus_chg_comm.c:1820-1827 | from the start, a trip that finds no slot leaves the output enabled, and the next over-voltage heartbeat does not retry |
| OutputInterlock.TripDisablesIff | oplus/kernel/charger/oplus_chg_comm.c:1820-1827 | a trip disables the output if and only if its vote is accepted or the output was disabled already |
| OutputInterlock.TripAndReleasePoints | oplus/kernel/charger/oplus_chg_comm.c:1820-1836 | it trips exactly above 4500 mV, releases exactly below 4450 mV, and does nothing in between |
| ChargeDone.VotedBallot | oplus/kernel/charger/oplus_chg_voter.c:429-454 | a vote of the policy sets its own client's ballot exactly when it is accepted, and no other |
| ChargeDone.FullDisables | oplus/kernel/charger/oplus_chg_comm.c:1501-1537 | a full report ends the charge, and where its vote is accepted on a wireless charger leaves USER_VOTER's ballot on and the output disabled |
| ChargeDone.HeartbeatExact | oplus/kernel/charger/oplus_chg_comm.c:1858-1900 | what a heartbeat leaves of the charge's state and of USER_VOTER's ballot, in numbers: a recharge that is due turns it off, a full report with room for its vote turns it on, and nothing else changes it |
| ChargeDone.FirstFullDisables | oplus/kernel/charger/oplus_chg_comm.c:1501-1537 | from the start, a first full report disables the output unless the battery is low enough to recharge at once |
| ChargeDone.ResetWithdraws | oplus/kernel/charger/op_wlchg_v2/oplus_chg_wls.c:1876-1891 | the receiver's reset turns off exactly the FFC, USER, STOP and UOVP ballots and forgets the charge's state |
| ChargeDone.DoneStaysOffIff | oplus/kernel/charger/oplus_chg_comm.c:1501-1900 | once USER_VOTER's ballot is on, over every run the output stays disabled throughout if and only if no recharge comes due, no FFC exit, no reset and no withdrawal by another module happens |
| ChargeDone.TimeoutExact | oplus/kernel/charger/oplus_chg_comm.c:1688-1721 | after every run from the start the timeout flag is up if and only if more than 6000 charging heartbeats came in a row since the last reset, those after the end of the charge not counted |
| ChargeDone.ChargingTimesOutIff | oplus/kernel/charger/oplus_chg_comm.c:1703-1720 | n charging heartbeats from the start time out if and only if n > 6000 |
| ChargeDone.TimeoutDisables | oplus/kernel/charger/oplus_chg_comm.c:1708-1720 | the heartbeat that times out, its vote accepted and no USB charger online, leaves TIMEOUT_VOTER's ballot on and the output disabled |
| ChargeDone.TimeoutIsForGood | oplus/kernel/charger/oplus_chg_comm.c:1715 | over every run, resets included, the output then stays disabled unless another module votes as TIMEOUT_VOTER |
| Hysteresis.RegionOf | oplus/kernel/charger/oplus_chg_comm.c:975-982 | the first region whose upper threshold is above the temperature |
| Hysteresis.ThermalTracker.constructor | oplus/kernel/charger/oplus_chg_comm.c:952-955 | dynamic thresholds start as configured, with no region yet |
| Hysteresis.ThermalTracker.Reset | oplus/kernel/charger/oplus_chg_comm.c:946-955 | no region and all thresholds as configured |
| Hysteresis.ThermalTracker.GetRegion | oplus/kernel/charger/oplus_chg_comm.c:960-985 | the search loop finds that first region |
| Hysteresis.ThermalTracker.Rewrite | oplus/kernel/charger/oplus_chg_comm.c:1010-1017 | the loop restores all thresholds but the crossed one, which moves |
| Hysteresis.ThermalTracker.CheckBattTemp | oplus/kernel/charger/oplus_chg_comm.c:1007-1042 | region and thresholds after one battery sample |
| Hysteresis.ThermalTracker.GetFfcTempRegion | oplus/kernel/charger/oplus_chg_comm.c:1072-1109 | region and thresholds after one fast-charge sample |
| Hysteresis.ThresholdsNeverDrift | oplus/kernel/charger/oplus_chg_comm.c:1007-1106 | after any samples at most one threshold is off its configured value, by 20, at the edge of the current region |
| Hysteresis.ReevaluationIsIdle | oplus/kernel/charger/oplus_chg_comm.c:1007-1106 | with ordered thresholds, sampling the same temperature again changes nothing |
| Hysteresis.ReversalIsWide | oplus/kernel/charger/oplus_chg_comm.c:1007-1106 | a fall then a rise is always more than 20 apart; a rise then a fall is when the rise cleared the thresholds below by 20 |
| Hysteresis.BatteryNeverChattersIff | oplus/kernel/charger/oplus_chg_comm.c:960-1042 | the battery region never reverses within 20 decidegrees, in any temperature sequence, if and only if the thresholds rise by at least 20 |
| Hysteresis.FirstEdgeHolds | oplus/kernel/charger/oplus_chg_comm.c:1072-1109 | the fast-charge region is never left upwards below 20 above the first threshold |
| Hysteresis.FfcNeverChattersIff | oplus/kernel/charger/oplus_chg_comm.c:1072-1109 | the fast-charge region never reverses within 20 decidegrees if and only if every threshold above the first one's value has all later ones at least 20 higher |
| Hysteresis.DefaultTableChatters | oplus/kernel/charger/oplus_chg_comm.c:108 | with the built-in table one decidegree at 50 degrees flips the region |
| Ffc.FfcMachine.Switch | oplus/kernel/charger/oplus_chg_comm.c:1111-1181 | entering FAST: state, return code and votes, every error exit included |
| Ffc.FfcMachine.Debounce | oplus/kernel/charger/oplus_chg_comm.c:1276-1293 | the counters and steps one FAST sample earns |
| Ffc.FfcMachine.CheckFast | oplus/kernel/charger/oplus_chg_comm.c:1226-1343 | one FAST check: state, return code and votes |
| Ffc.FfcMachine.CheckIdle | oplus/kernel/charger/oplus_chg_comm.c:1344-1365 | one IDLE check: state, return code and votes |
| Ffc.FfcMachine.Check | oplus/kernel/charger/oplus_chg_comm.c:1183-1379 | one check in any status |
| Ffc.FfcMachine.InitStatus | oplus/kernel/charger/oplus_chg_comm.c:927-958 | the status initialisation's part in fast charging: flag, step, region and thresholds |
| Ffc.ApplyKeepsRanges | oplus/kernel/charger/oplus_chg_comm.c:927-1379 | every switch, check and status initialisation keeps the counters in range, and keeps flag and status in agreement exactly when it is no initialisation outside DEFAULT |
| Ffc.RunKeepsRanges | oplus/kernel/charger/oplus_chg_comm.c:927-1379 | over every run a raised flag means an active status and the counters stay in range |
| Ffc.AlwaysAgreesIff | oplus/kernel/charger/oplus_chg_comm.c:927-1379 | over every run flag and status agree throughout if and only if every status initialisation happens in DEFAULT |
| Ffc.OutOfBoundsIff | oplus/kernel/charger/oplus_chg_comm.c:1267-1268 | a check reads its tables out of bounds if and only if, wireless online and USB offline, FAST meets the remembered region and it is not chargeable |
| Ffc.TablesStayInBounds | oplus/kernel/charger/oplus_chg_comm.c:1226-1343 | no run reads out of bounds if FAST is only entered with a chargeable region remembered |
| Ffc.RememberedRegionFaults | oplus/kernel/charger/oplus_chg_comm.c:1189-1228 | leaving FAST for an unchargeable region, switching and meeting it again reads out of bounds |
| Ffc.FaultFromStart | oplus/kernel/charger/oplus_chg_comm.c:1189-1268 | from the start, with every usable threshold table: normal, hot, normal and hot again reads out of bounds |
| Ffc.InitDropsFlagInFast | oplus/kernel/charger/op_wlchg_v2/oplus_chg_wls.c:1890-1891 | from the start, a switch in the normal region and one status initialisation leave FAST active with its flag down |
| Ffc.LeftFastStaysLeft | oplus/kernel/charger/oplus_chg_comm.c:1183-1379 | checks alone never re-enter FAST |
| Ffc.HighVoltageEndsFast | oplus/kernel/charger/oplus_chg_comm.c:1276-1294 | a FAST phase survives fewer than 6 times step_max samples at the cutoff voltage, wherever they fall |
| Ffc.LowCurrentEndsFast | oplus/kernel/charger/oplus_chg_comm.c:1284-1294 | a FAST phase survives at most step_max + 2 low-current samples in a row |
| Ffc.ExactPace | oplus/kernel/charger/oplus_chg_comm.c:1276-1293 | high samples earn exactly a sixth of a step each; low samples exactly one step each from the fourth on |
| Ffc.IdleEndsAtSeventh | oplus/kernel/charger/oplus_chg_comm.c:1344-1365 | IDLE lasts exactly six checks and ends at the seventh, whatever else happens |
| Ffc.DefaultStays | oplus/kernel/charger/oplus_chg_comm.c:1366-1379 | checks never leave DEFAULT |
| FfcOutcomes.CheckVotes | oplus/kernel/charger/oplus_chg_comm.c:1226-1365 | what a check votes: in FAST last the limits of the step and region it ends in, the float voltage less the decrement; on entering IDLE the output disabled and the battery's float voltage; on returning 1 with wireless online the output enabled; no other check votes on the output; and it returns 1 exactly at the seventh IDLE check without an error |
| FfcOutcomes.CheckReturns | oplus/kernel/charger/oplus_chg_comm.c:1183-1379 | the return code of a check on every path |
| FfcOutcomes.SwitchVotes | oplus/kernel/charger/oplus_chg_comm.c:1111-1181 | a switch enters FAST exactly in a chargeable region with wireless online, USB offline and all votables found, voting the limits of step 0; otherwise it votes nothing |
| FfcOutcomes.IdleIsDisabled | oplus/kernel/charger/oplus_chg_comm.c:1294-1365 | over every run from the start, in IDLE the last vote on the output is to disable it |
| FfcOutcomes.FastLimitsAreVoted | oplus/kernel/charger/oplus_chg_comm.c:1111-1343 | over every run of switches and checks from the start, in FAST the last current votes are the table entries of the current step and region |
| FfcOutcomes.CutoffVoltageEndsFast | oplus/kernel/charger/oplus_chg_comm.c:1267-1294 | a FAST phase survives fewer than 6 times step_max checks at or above the cutoff voltages less the decrement |
| FfcOutcomes.CutoffCurrentEndsFast | oplus/kernel/charger/oplus_chg_comm.c:1267-1294 | it survives at most step_max + 2 checks in a row with a current of either sign below the cutoff currents |
| FfcOutcomes.FastGoesOn | oplus/kernel/charger/oplus_chg_comm.c:1226-1343 | below the cutoff voltages and at or above the cutoff currents, in chargeable regions with everything found, it never ends and never steps |
| FfcOutcomes.FastEndsOutside | oplus/kernel/charger/oplus_chg_comm.c:1226-1265 | a region that turned unchargeable, a USB charger or a missing wireless charger ends FAST |
| FfcOutcomes.InitStartsOver | oplus/kernel/charger/oplus_chg_comm.c:927-958 | a status initialisation in FAST leaves FAST running with its flag down, from step 0 and the configured thresholds |
| FfcOutcomes.IdleErrorKeepsDisabled | oplus/kernel/charger/oplus_chg_comm.c:1344-1365 | an IDLE phase that ends in an error ends in DEFAULT without withdrawing its vote on the output |
| FullDetect.FullChecker.Check | oplus/kernel/charger/oplus_chg_comm.c:1383-1499 | counters and verdict of one call |
| FullDetect.SwSinceIsRow | oplus/kernel/charger/oplus_chg_comm.c:1456-1478 | the software row is all evaluated samples since the last one that cleared, failed or fired, and all of them pass the test |
| FullDetect.HwSinceIsRow | oplus/kernel/charger/oplus_chg_comm.c:1480-1490 | the same for the hardware row |
| FullDetect.CountersAreExact | oplus/kernel/charger/oplus_chg_comm.c:1383-1499 | after any history the two counters are exactly these rows and both latches are down |
| FullDetect.ReportIff | oplus/kernel/charger/oplus_chg_comm.c:1456-1499 | a call reports full if and only if its sample passes and makes a row exceed the limit its own current sets, or the third of the hardware row |
| FullDetect.LatchesDown | oplus/kernel/charger/oplus_chg_comm.c:1383-1499 | after any history both latches are down and no counter exceeds the row of qualifying samples that ends it |
| FullDetect.ReportNeedsRow | oplus/kernel/charger/oplus_chg_comm.c:1441-1499 | a report comes only after the full row of consecutive qualifying samples, software or hardware |
| FullDetect.RowForcesReport | oplus/kernel/charger/oplus_chg_comm.c:1441-1499 | such a row does force a report within it |
| FullDetect.ReportNumbers | oplus/kernel/charger/oplus_chg_comm.c:1441-1499 | a report's last sample is tested and above the float voltage less offset and decrement within the termination current, or at the float voltage plus 18 mV less the decrement |
| FullDetect.ReportNeedsNumbers | oplus/kernel/charger/oplus_chg_comm.c:1456-1490 | a report follows a row of more than ten tested samples (5 num if it still charges) that all pass the first of these tests, or of three that pass the second |
| FullDetect.FullRowReports | oplus/kernel/charger/oplus_chg_comm.c:1456-1490 | after any history, eleven samples in a row that pass the first test at no charging current report among them, as do 5 num + 1 charging ones, and three that pass the second |
| Handshake.Posted | oplus/kernel/charger/oplus_chg_comm.c:2074-2077 | a posted command is its payload, zero-filled to the buffer size |
| Handshake.NextKeepsInv | oplus/kernel/charger/oplus_chg_comm.c:1985-2094 | every atomic step of any thread keeps lock ownership, slot contents and the delivery ledger consistent |
| Handshake.DeliveriesAreSubsequence | oplus/kernel/charger/oplus_chg_comm.c:1985-2094 | with one reader, under every interleaving and timeout, deliveries are a strictly increasing selection of the postings, each byte for byte |
| Handshake.DeliveredWereAsked | oplus/kernel/charger/oplus_chg_comm.c:1985-2094 | with any readers and writers, every accepted request is posted at most once or still carried by its writer, counted as a multiset, and nothing else is posted or delivered: no torn or mixed command |
| Handshake.DeliveredAtMostOnce | oplus/kernel/charger/oplus_chg_comm.c:1985-2094 | with one reader, from the start, no command is delivered more often than it was asked for |
| Handshake.DeliveredAsSet | oplus/kernel/charger/oplus_chg_comm.c:1985-2094 | over every run from the start, each delivered command has a set-command call before it with the same command, size and bytes, zeros after them, and a send-command call before that |
| Handshake.PostedAsSet | oplus/kernel/charger/oplus_chg_comm.c:2074-2077 | a posted command is the call's command, size and bytes with zeros after them |
| Handshake.ReadyIff | oplus/kernel/charger/oplus_chg_comm.c:2066-2069 | the gate is open exactly when some reader called before |
| Handshake.AcceptedIff | oplus/kernel/charger/oplus_chg_comm.c:2061-2069 | over every run a set-command call is accepted if and only if its payload has at most 256 bytes and some reader called before |
| Handshake.DeliveryRepeatsIff | oplus/kernel/charger/oplus_chg_comm.c:2000-2016 | a delivery repeats the previous one exactly when its reader lowered a flag already down |
| Handshake.TwoReadersDeliverTwice | oplus/kernel/charger/oplus_chg_comm.c:2000-2016 | two readers that woke for one posting can both deliver it |
| Handshake.OneRequestTwoDeliveries | oplus/kernel/charger/oplus_chg_comm.c:1985-2094 | from the start, for every command, a run of one writer and two readers posts it once and delivers it twice |
| ChangeNotify.NextKeepsInv | oplus/kernel/charger/oplus_chg_core.c:41-87 | every step of a change or of the worker keeps the protocol invariant |
| ChangeNotify.NoChangeIsLost | oplus/kernel/charger/oplus_chg_core.c:41-87 | a raised flag means the wake source is held and the worker will run; it is released only when every change has been notified |
| ChangeNotify.SettlesWithoutChanges | oplus/kernel/charger/oplus_chg_core.c:41-74 | without new changes every run is finite and can stop only with everything notified and the wake source released |
| ModuleBringup.Loader.FindFirst | oplus/kernel/charger/oplus_chg_core.c:641-664 | the start of the unbroken run of a section's magic |
| ModuleBringup.Loader.FindLast | oplus/kernel/charger/oplus_chg_core.c:666-689 | the end of that run |
| ModuleBringup.Loader.SectionInit | oplus/kernel/charger/oplus_chg_core.c:691-731 | a section comes up as a flat list: in order, and undone in reverse after the first failure |
| ModuleBringup.Loader.BlockInit | oplus/kernel/charger/oplus_chg_core.c:702-731 | the same for a section known by its bounds |
| ModuleBringup.Loader.UndoSection | oplus/kernel/charger/oplus_chg_core.c:722-730 | the rollback calls the exits of the modules before the failing one, last first |
| ModuleBringup.Loader.SectionExit | oplus/kernel/charger/oplus_chg_core.c:733-753 | a section goes down in reverse |
| ModuleBringup.Loader.ModulesInit | oplus/kernel/charger/oplus_chg_core.c:755-790 | from an empty trace: without a failing init exactly the modules joined to a section marker are initialised, core before early before normal before late and by address; otherwise the first failing one in that order decides the return code, and exactly those before it are initialised and exited in reverse |
| ModuleBringup.Loader.ModulesExit | oplus/kernel/charger/oplus_chg_core.c:792-798 | exactly the modules joined to a section marker are exited, in the reverse order |
| ModuleBringup.Loader.AllSectionsInit | oplus/kernel/charger/oplus_chg_core.c:755-790 | four sections with their chained rollbacks amount to one flat bring-up |
| ModuleBringup.AllModulesMembers | oplus/kernel/charger/oplus_chg_core.c:641-689 | the modules are exactly the entries joined to a section's marker by an unbroken run of its magic |
| ModuleBringup.AllModulesAscend | oplus/kernel/charger/oplus_chg_core.c:755-798 | their order is by section and then by address |
| ModuleBringup.BringupIsComplete | oplus/kernel/charger/oplus_chg_core.c:691-790 | on memory and markers alone: which modules a bring-up initialises and exits, in which order, and that a failure returns the failing module's own code |
| ModuleBringup.ShutdownIsComplete | oplus/kernel/charger/oplus_chg_core.c:733-798 | the same for a shutdown |
| ModuleBringup.BringupConcat | oplus/kernel/charger/oplus_chg_core.c:755-790 | bringing up two lists with rollback of the first is bringing up their concatenation |
| ModuleBringup.RollbackIsExact | oplus/kernel/charger/oplus_chg_core.c:691-798 | whichever init fails, the exits called are the successful inits in reverse; with no failure shutdown is |
| ModuleBringup.ShutdownMirrorsIff | oplus/kernel/charger/oplus_chg_core.c:733-798 | shutdown mirrors bring-up if and only if every module has both functions or neither |
| ModuleBringup.RollbackMirrorsIff | oplus/kernel/charger/oplus_chg_core.c:691-731 | a failed bring-up exits exactly its successful inits in reverse if and only if every module before the failing one has both functions or neither |
| ModuleBringup.EachModuleOnce | oplus/kernel/charger/oplus_chg_core.c:691-790 | no module is initialised twice |
| SectionAccounting.SectionTracker.Record | oplus/kernel/charger/oplus_chg_track.c:6032-6168 | the bookkeeping of one sample |
| SectionAccounting.StepBalanced | oplus/kernel/charger/oplus_chg_track.c:6032-6168 | a sample credits its interval to the section it began in, and to no other |
| SectionAccounting.SectionIsExact | oplus/kernel/charger/oplus_chg_track.c:6032-6168 | since the last reset each section's total is exactly the charging intervals that began in it |
| SectionAccounting.TotalIsConserved | oplus/kernel/charger/oplus_chg_track.c:6032-6168 | low, medium and high together conserve all charging intervals below the last section |
| SectionAccounting.TotalTelescopes | oplus/kernel/charger/oplus_chg_track.c:6032-6168 | charging throughout with no interval begun in the section above 90 percent, the totals add up to last reading minus first |
| SectionAccounting.SectionAfter | oplus/kernel/charger/oplus_chg_track.c:6032-6168 | the section after a sample, in numbers: the first or a not charging one goes where its state of charge lies between 50, 75 and 90; a charging one moves one section towards it, except that exactly 90 stays above 90 |
| SectionAccounting.ThreeSamplesSettle | oplus/kernel/charger/oplus_chg_track.c:6032-6168 | whatever came before, three charging samples in a row between the same marks end in their section |
| LedAccounting.LedTracker.constructor | oplus/kernel/charger/oplus_chg_track.c:6763-6790 | what unplugging and plugging in leave |
| LedAccounting.LedTracker.Record | oplus/kernel/charger/oplus_chg_track.c:5269-5311 | the bookkeeping of one sample |
| LedAccounting.LedTimeIsConserved | oplus/kernel/charger/oplus_chg_track.c:5269-5311 | screen-on time, screen-off time and the open stretch conserve the charging intervals, each under the screen state it began in |
| LedAccounting.AveragedWithinContinuous | oplus/kernel/charger/oplus_chg_track.c:5269-5311 | on a clock that does not run backwards the averaged times stay within the continuous ones |
| LedAccounting.AveragesAreTrue | oplus/kernel/charger/oplus_chg_track.c:5294-5310 | time and capacity are credited for the same stretches: at a steady rate both averages are that rate |
| LedAccounting.OnlyLongStretchesCount | oplus/kernel/charger/oplus_chg_track.c:5269-5311 | the averaged times and capacities are exactly the closed stretches of more than 120 seconds, each under the screen state it had |
| RateLimit.Limiter.TryUpload | oplus/kernel/charger/oplus_chg_track.c:1968-2001 | counter, time stamp and verdict of one work run |
| RateLimit.CounterIsChain | oplus/kernel/charger/oplus_chg_track.c:1968-2001 | the counter is the chain of uploads that lead up to now without a gap of more than a period |
| RateLimit.UploadIff | oplus/kernel/charger/oplus_chg_track.c:1968-2001 | a request is uploaded if and only if it is ready and that chain is at most the limit |
| RateLimit.SlidingWindow | oplus/kernel/charger/oplus_chg_track.c:1968-2001 | any 24-hour window of any run holds at most limit + 1 uploads |
| RateLimit.BoundIsReached | oplus/kernel/charger/oplus_chg_track.c:1968-2001 | for every limit some run uploads limit + 1 times in one window |
| OlcConfig.ConfigSet | oplus/kernel/charger/oplus_chg_track.c:1657-1700 | the masks after parsing a text, cut at the buffer size |
| OlcConfig.ConfigGet | oplus/kernel/charger/oplus_chg_track.c:1702-1723 | the buffer holds the sixteen values in hexadecimal, comma-separated, inside its 272 bytes |
| OlcConfig.PrintField | oplus/kernel/charger/oplus_chg_track.c:1716-1719 | one value is printed in full and only its comma can be truncated |
| OlcConfig.HexReadsBack | oplus/kernel/charger/oplus_chg_track.c:1702-1723 | the printed digits have the printed value and never look like a separator |
| OlcConfig.AssignedAt | oplus/kernel/charger/oplus_chg_track.c:1657-1700 | a mask is set exactly when its field parses and no field up to it is overlong; otherwise it keeps its value |
| OlcConfig.NumberIsRead | oplus/kernel/charger/oplus_chg_track.c:1686 | a field of hexadecimal digits, after an optional plus and 0x and before an optional newline, is read as their value unless it does not fit 64 bits |
| OlcConfig.OnlyNumbersAreRead | oplus/kernel/charger/oplus_chg_track.c:1686 | no other field is read |
| OlcConfig.RoundTrip | oplus/kernel/charger/oplus_chg_track.c:1657-1723 | parsing the printed text restores all sixteen masks, whatever they held before |

## Left out

- OutputInterlock.ResetStep: the receiver's reset is one atomic step; a heartbeat cannot fall between its votes.
- OutputInterlock.OutputPolicy.Heartbeat: leaves out the charger-input over-voltage check, whose flag is an input, and the closing temperature check; neither touches the output-disable votable.
- Hysteresis.ThermalTracker.CheckBattTemp: leaves out the guard that skips it outside DEFAULT, which only drops samples, the battery voltage flag, and the power-change vote.
- VoterRuns.ApplyTracksIff: for votables that have a callback; without one nothing is called.
- Handshake.DeliveriesAreSubsequence: the read lock, which only serialises the waits of readers, and the acknowledgement of a command are not modelled.
- RateLimit.SlidingWindow: assumes a clock that does not run backwards.
- Null votables, clients and devices; votable creation failure, destruction and the votable list.
- Overflow of 32-bit counters, of the clock and of accumulated times: they are unbounded integers here, while vote values are true 32-bit integers.
- The build-time variant that skips the timeout check during aging tests.
- The speed figures and verdicts computed from the section and screen totals.
- The other upload limiters, which repeat the modelled one with another limit.
- Registration, use counts and removal of modules; cancelling of pending work.
- `kstrtoull`, `snprintf` and `strsep` are modelled by their documented behaviour.
- Device tree, debugfs and sysfs parsing, logging, and gauge access; what they read is an input. The gauge helpers the policy calls cannot fail, so their error branches are dead and not modelled.
- The second-generation driver tree and the chip drivers.
