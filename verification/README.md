# Verified model of the incident-response agent

A Dafny model of the agent's protocols and algorithms, with proofs of what they
promise. `dafny verify dfyconfig.toml` checks everything.

## What is modelled

**Gated remediation.** `Journal` is the append-only action log; the state of an
action is a fold over it. `Gate` is the single-use, hash-bound, deadline-bound
check that turns an approval into one execution, and the decision handler every
approval surface calls. Above single calls it proves safety over whole histories:
any mix of emissions, repeated, contradictory or late clicks and direct triggers.
`LiveRun` is the incident run as a state machine: the run thread performs one
operation at a time, a control thread clicks or aborts between any two of them,
and any operation may throw before or after taking effect. `LivePhases`,
`LiveLedger` and `LiveTrace` follow its phases, its action journal and its trace,
`LiveInvariant` combines them for every reachable state, `LiveHistory` says what
must have happened before each stage, `LiveEndings` why a run ends as it does, and
`LiveClicks` when a denial, an abort and the deadline are final.

**Event stream.** `EventBus` is the numbered, ring-buffered bus with its
subscribers, `StreamClient` the reconnecting client, `RunView` the reducer that
drops what it has already seen. Together they show when at-least-once delivery
becomes exactly-once state.

**Root cause.** `Ranking` orders the services of a call graph by three regimes, with
the sort keys of `RankKeys` and the coverage of `StarCoverage`; `RootCause` is the
pick, with the model's verdicts as arbitrary inputs. Both work on the effect sizes that
`OnsetStats` computes and proves robust, and `OnsetSpikes` delimits what one outlying
bucket can do to them. `EdgeLatency` attributes slowed call edges, and `ErrorOrigin`
the deepest failing spans.

**Algorithms.** `Framing` (length-prefixed messages), `Topology` (breadth-first
searches), `Spans`, `SpanTree`, `WalkDepth` and `TreeWalk` (walks over
unreliable parent pointers), `Hydration` (window splitting, deduplication and the
parent index), `RateLimiter` (token bucket), `Redaction` (successive token
replacement and hook precedence), `CollectorConfig` (recursive merge),
`Downsample` (exact-cap sampling). `Sorting`, `Frames` and `Common` are shared.

## What the proofs found

Where a promise does not hold of the code as written, the code is modelled as it
is and the exact condition is proved.

- An acknowledged denial rules out execution if and only if the run thread neither
  holds an approval it has read nor is still going to read the last click; the caller
  gets the same answer in all cases (`LiveClicks.AcknowledgedDenialIsFinalIff`). So it
  can come too late (`LiveClicks.AnAcknowledgedDenialCanBeLost`), and an approval that
  follows before the read overwrites it (`LiveClicks.AnAcknowledgedDenialCanBeOverruled`);
  short of such an approval only the first can happen
  (`LiveClicks.DenialStandsUntilOverruled`). An abort rules execution out if and only if
  the thread is not past its abort check with an approval read or still to be read
  (`LiveClicks.AbortIsFinalIff`).
- Once the clock is past the deadline of the proposal for good nothing is executed any
  more, even on an approval acknowledged after the wait timed out
  (`LiveClicks.NothingRunsAfterTheDeadline`). "For good" matters: the clock defaults to
  the wall clock (sentinel/api/livelab/machine.py:61), which may be set back.
- A reconnecting viewer loses frames if and only if some connection that
  delivered anything was served from a ring that had dropped a frame the viewer
  lacked (`StreamClient.LosslessIffNoOverflow`, `StreamClient.OverflowLosesAFrame`).
- The reducer drops a first delivery if and only if first deliveries are not in
  ascending order (`RunView.NothingDroppedIffAscending`).
- Verdicts can move the root-cause pick if and only if the top-ranked service is
  not anomalous and there is a second one (`RootCause.VerdictsCannotMoveThePickIff`).
- The slope pass is meant to ignore a single-bucket spike. Of any post-onset series a
  spike brings at most one more difference above the baseline's median one
  (`OnsetSpikes.SpikeLiftsAtMostOne`), so none fires where one more does not make half
  of them (`OnsetSpikes.OneSpikeIsNotEnough`), and some spike does where one more makes
  most of them (`OnsetSpikes.SomeSpikeIsEnough`); with an even number of buckets that
  is the exact condition (`OnsetSpikes.SomeSpikeFiresIff`). In general a given spike
  fires if and only if it tips the differences over (`OnsetSpikes.SpikeFiresIff`), and
  three heights a bucket decide whether any does (`OnsetSpikes.ThreeSpikesDecide`). Four cpu
  buckets that score nothing score 100 with one of them raised by a tenth, against a
  threshold of 3 (`OnsetSpikes.AQuietSeriesCanBeTipped`). Over a flat series and a
  baseline that does not fall, spikes are ignored with four buckets or more; with
  three, an outer bucket moves the median difference by half its height
  (`OnsetSpikes.SpikeSlopeIff`), and one idle-cpu bucket at a hundredth scores at least
  5 (`OnsetSpikes.ASpikeCanPassForAStep`).
- The edge-latency tool divides by zero if and only if its floor is zero, no
  observed edge rose and one did not move (`EdgeLatency.DividesByZeroIff`); it
  happens with one edge and equal samples (`EdgeLatency.AZeroFloorCanDivideByZero`).
- The hydrated index is complete for every database that fits the answers if and
  only if no page that was kept is full (`Hydration.CompleteIffNoneFull`).
- A restated pipeline names the exporter exactly once if and only if the original
  list did not already repeat it (`CollectorConfig.AppendOnceCounts`,
  `CollectorConfig.RepeatedExporterStaysRepeated`).
- The span-tree walk follows ids, and a live trace is not deduplicated: it ends if
  and only if no span comes under itself below a root, which unique ids rule out
  and one repeated id does not (`WalkDepth.EndlessIffRevisits`,
  `WalkDepth.UniqueIdsEnd`, `WalkDepth.ARepeatedIdCanBeEndless`); under any limit
  on nested calls it fails if and only if children nest deeper (`TreeWalk.Render`).
- Single use is per proposal: two runs of one action id have a proposal of it
  between them (`Gate.SingleUse`), and a proposal in between does allow a second
  run (`Gate.ReproposalRunsAgain`). In practice the catalog draws a fresh uuid4 for
  every action (sentinel/actions/catalog.py:77), so an id is not proposed twice.
- The first decision alone settles a proposal hashed as proposed
  (`Gate.FirstClickSettles`); one whose stored hash differs stays approved until an
  attempt comes too late or presents content with the stored hash
  (`Gate.FirstDecisionWins`).

## Model

| member | source | states |
|---|---|---|
| Journal.ActionJournal.Append | sentinel/actions/journal.py:34-40 | the log grows by exactly the new record |
| Journal.ActionJournal.FoldEvents | sentinel/actions/journal.py:77-104 | the loop over a dictionary of mutable states computes the fold, with illegal transitions and unknown actions ignored |
| Journal.ActionJournal.IsTerminal | sentinel/actions/journal.py:109-111 | true exactly for denied, expired, done and failed |
| Journal.AppendTouchesOneAction | sentinel/actions/journal.py:77-104 | one more event advances its own action and leaves every other action's state alone |
| Journal.InterleavingIsIrrelevant | sentinel/actions/journal.py:77-104 | two logs that agree on an action's own events, in order, agree on its state, however they are interleaved with others |
| Journal.TerminalAbsorbs | sentinel/actions/journal.py:86-103 | after a terminal status nothing but a new proposal changes the state |
| Journal.UndecidedIffOpen | sentinel/actions/journal.py:86-99 | the fold says proposed or posted exactly when the raw history has a proposal in force and no decision since |
| Journal.ApprovedIffHistory | sentinel/actions/journal.py:91-99 | the fold says approved exactly when the proposal's first decision was an approval and no expiry or start followed; it then carries the proposed action and deadline, the approver and the surface |
| Journal.PostedIff | sentinel/actions/journal.py:89-90 | posted exactly when undecided and posted since the proposal, on the surface of the first post |
| Journal.DeniedIff | sentinel/actions/journal.py:93-94 | denied exactly when the first decision on the proposal in force was a denial, by whom it names |
| Journal.ExpiredIff | sentinel/actions/journal.py:95-96 | expired exactly when an expiry came while undecided or approved |
| Journal.ExecutingIff | sentinel/actions/journal.py:97-98 | executing exactly from a start on an approval in force until a result |
| Journal.FinishedIff | sentinel/actions/journal.py:99-101 | done or failed exactly after the first result of a start, as that says, and with its outcome |
| Gate.ExecuteApproved | sentinel/actions/gate.py:31-66 | journal, executor calls and answer of every branch; the answer agrees with the journal before and after and with the call: done, failed and an escaping exception exactly if the executor was called and the action is now done, failed or left executing; expired, consumed, wrong hash and not approved exactly in those states |
| Gate.HandleDecision | sentinel/actions/dispatch.py:22-48 | journal, executor calls and answer of approve, deny, unknown decisions and unknown actions; the answer to an approval is the gate's and is truthful in the same sense |
| Gate.AnswerIsTruthful | sentinel/actions/gate.py:38-66 | whatever the gate is called with, what it answers is what the journal says |
| Gate.MismatchIsTold | sentinel/actions/gate.py:57-59 | the near miss of a wrong hash names the kind and target attempted, by whom and why |
| Gate.EveryRunIsAudited | sentinel/actions/gate.py:31-66 | along every history each execution has a proposal in force, a first decision that approves it, no expiry, the approved hash and an unexpired deadline, and executions match journaled starts one to one |
| Gate.FromEmptyJournal | sentinel/actions/gate.py:31-66 | the same for every history from an empty journal |
| Gate.SingleUse | sentinel/actions/gate.py:38-47 | between two executions of one action id lies a new proposal of it |
| Gate.RunsApprovedContent | sentinel/actions/gate.py:54-59 | with a collision-free hash, the content executed is the content approved |
| Gate.FirstDecisionWins | sentinel/actions/dispatch.py:31-48 | from any undecided proposal, under any clicks and triggers: no run if the first decision denies or none comes, else exactly one run if the first conclusive attempt from that decision on (in time with the approved hash, or late) is in time |
| Gate.FirstConclusiveSettles | sentinel/actions/gate.py:43-66 | an approved action waits, unchanged by attempts with the wrong content, for the first that concludes, and runs once exactly if that is in time |
| Gate.FirstClickSettles | sentinel/actions/dispatch.py:31-48 | corollary for a proposal hashed as proposed: the first decision alone settles it, with one run if it approves in time |
| Gate.ReproposalRunsAgain | sentinel/actions/journal.py:82-85 | two rounds of proposal and approval run one action id twice |
| Gate.SettledForever | sentinel/actions/gate.py:43-47 | once denied, expired or consumed, no click or trigger executes again |
| LiveInvariant.PhasesFollowTheOrder | sentinel/api/livelab/machine.py:178-211 | at any point of any run the phases entered are a prefix of the documented order, and at its end a prefix followed by exactly one of done, failed, cancelled |
| LiveInvariant.EveryFaultIsSwept | sentinel/api/livelab/machine.py:204-209 | every injected fault is followed by a clear before the run is finished |
| LiveTrace.FaultsStartClean | sentinel/api/livelab/machine.py:180-191 | residue is swept before any fault is injected |
| LiveInvariant.ExecutorRunsAtMostOnce | sentinel/api/livelab/machine.py:308-348 | the executor is called at most once, past an abort check, on an approval the thread read, and never with a denial or expiry in the journal |
| LiveInvariant.DoneIsDecided | sentinel/api/livelab/machine.py:308-359 | a run that ends in done leaves the action terminal, and the status follows from the last click acknowledged before the decision was read |
| LiveLedger.GateOutcome | sentinel/api/livelab/machine.py:337-343 | an approved action is executed if the gate sees it by its deadline and expires otherwise |
| LiveInvariant.Always | sentinel/api/livelab/machine.py:178-359 | the invariant of phases, journal, clicks, aborts, sweeps and executions holds after any inputs |
| LiveHistory.InjectionIsEarned | sentinel/api/livelab/machine.py:178-191 | in every run, before a fault is injected preflight passed, all services were seen running, metrics no older than 120 s were seen and the baseline window passed by readings of the clock, in this order |
| LiveHistory.InvestigationWaits | sentinel/api/livelab/machine.py:193-196 | nothing is investigated before a fault was injected and the soak time has passed |
| LiveHistory.DecisionsAreWaitedFor | sentinel/api/livelab/machine.py:312-316 | the thread is past its wait for a decision only if the time allowed had run out by a reading taken in the wait, or somebody had clicked or asked for an abort by then |
| LiveHistory.DecisionsAreHeeded | sentinel/api/livelab/machine.py:313-316 | an operation that does not throw leaves the wait exactly if somebody has acted or the deadline is reached |
| LiveHistory.ExpiryIsEarned | sentinel/api/livelab/machine.py:319-323 | the thread journals that nobody decided only when no click was acknowledged by then and the time allowed had run out |
| LiveEndings.ProposalIsAsElected | sentinel/api/livelab/machine.py:297-303 | the action a run works on is the elected one, hashed as it is, executable until the time allowed after its proposal |
| LiveEndings.PollsAreCounted | sentinel/api/livelab/machine.py:225-240 | at most 36 tries to see the services running, 36 to see fresh metrics and 12 to see recovery, and a poll is given up only after as many |
| LiveEndings.FailureHasACause | sentinel/api/livelab/machine.py:202-204 | a run fails only after an operation threw, a check blocked, a poll was given up, nothing could be proposed or the executor threw |
| LiveEndings.AbortsAreHeeded | sentinel/api/livelab/machine.py:162-164 | at each check an operation that does not throw cancels the run exactly if an abort was asked for |
| LiveEndings.CancelledMeansAborted | sentinel/api/livelab/machine.py:200-201 | and nothing else cancels a run |
| LiveEndings.TheEndTellsWhy | sentinel/api/livelab/machine.py:196-204 | a run ends cancelled only if an abort was asked for, failed only for one of those reasons, and done only by the ordinary course |
| LiveEndings.RecoveryIsWatched | sentinel/api/livelab/machine.py:350-359 | after an execution the run is done only once recovery was seen or twelve tries did not see it |
| LiveEndings.RecoveryIsSeen | sentinel/api/livelab/machine.py:361-369 | recovery is reported only on a reading below the mark, or below a third of the reading before |
| LiveEndings.RecoveryIsNoticed | sentinel/api/livelab/machine.py:344-359 | and such a reading, the executor's or a poll's, is never missed |
| LiveEndings.ThrowsAreCaught | sentinel/api/livelab/machine.py:142-149 | an operation that throws leads to the handler, without effect, with its phase only shown, or with its effect, as it threw early, midway or late |
| LiveEndings.WatchedAgainstTheReport | sentinel/api/livelab/machine.py:338-348 | the reading before is the one the executor reported to the journal |
| LiveClicks.AcknowledgedDenialIsFinalIff | sentinel/api/livelab/machine.py:112-124 | in every reachable state, an acknowledged denial rules out execution, whatever follows, exactly when the thread neither holds an approval it read nor will still read the last click |
| LiveClicks.DenialStandsUntilOverruled | sentinel/api/livelab/machine.py:112-124 | corollary: short of another approval, exactly when the thread does not hold an approval it read |
| LiveClicks.AnAcknowledgedDenialCanBeLost | sentinel/api/livelab/machine.py:319-338 | some run acknowledges a denial and executes all the same |
| LiveClicks.AnAcknowledgedDenialCanBeOverruled | sentinel/api/livelab/machine.py:112-124 | some run acknowledges a denial while it waits, is then sent an approval and executes |
| LiveClicks.AbortIsFinalIff | sentinel/api/livelab/machine.py:108-110 | an abort rules out any further execution exactly when the thread is not past its abort check with an approval read or still to be read |
| LiveClicks.NothingRunsAfterTheDeadline | sentinel/api/livelab/machine.py:301-337 | once the action is proposed, nothing is executed while every later clock reading is past its deadline, whatever is clicked |
| EventBus.Bus.Emit | sentinel/api/livelab/bus.py:48-59 | the frame gets the next number, joins the journal and every queue, and the ring keeps exactly the last frames |
| EventBus.Bus.Backlog | sentinel/api/livelab/bus.py:61-63 | the retained frames above the given number |
| EventBus.Bus.Subscribe | sentinel/api/livelab/bus.py:65-75 | the new queue holds the retained frames above the given number, then an end marker if the bus is closed, and is served from then on |
| EventBus.Bus.Close | sentinel/api/livelab/bus.py:77-87 | one terminal frame unless already closed; every subscriber's stream is the journal from its start followed by one end marker |
| EventBus.Subscription.Take | sentinel/api/livelab/bus.py:32-33 | items come out in the order they were put, once each |
| EventBus.StreamHoldsExactly | sentinel/api/livelab/bus.py:48-75 | a subscriber is handed a frame exactly if it asked for it and the ring held it on joining, and at exactly one place of its stream |
| EventBus.JoinMissesIff | sentinel/api/livelab/bus.py:65-70 | a joiner misses a frame exactly when more frames than the ring holds came after its number |
| RunView.MeaningLists | frontend/src/livelab/state.ts:62-90 | a view holds all phases and actions in order, and the latest of each as the current one |
| RunView.MeaningShowsLatest | frontend/src/livelab/state.ts:83-99 | it shows the latest report and recovery, and done exactly once a done frame came |
| RunView.MeaningKeepsAgents | frontend/src/livelab/state.ts:74-82 | it holds each agent's records in order under its name, and lists each agent once |
| RunView.AgentsComeInOrder | frontend/src/livelab/state.ts:74-82 | agents are listed in the order of their first records |
| RunView.MeaningShowsTheRun | frontend/src/livelab/state.ts:62-97 | target, scenario, timings and window are those of the last phase that gave them; lab and error those last reported |
| RunView.ReduceAllAbsorbsKept | frontend/src/livelab/state.ts:56-105 | from any view and for any frames, resets and frames numbered 0 included, the view is the in-order meaning of the frames since the last reset that bear no number or raise the highest one |
| RunView.NothingDroppedIffAscending | frontend/src/livelab/state.ts:56-59 | no first delivery of a number not seen before is dropped exactly when first deliveries ascend |
| RunView.DuplicatesAreHarmless | frontend/src/livelab/state.ts:103-105 | if first deliveries since the last reset ascend, duplicates and replays leave the view of one duplicate-free delivery, from any view |
| StreamClient.NeverRepeats | frontend/src/livelab/api.ts:63-101 | over any series of reconnects the frames handed over ascend strictly beyond the starting number |
| StreamClient.LosslessIffNoOverflow | frontend/src/livelab/api.ts:71-91 | they are a contiguous stretch of the journal exactly when no ring overflowed past the client |
| StreamClient.OneConnection | sentinel/api/livelab/router.py:248-298 | one connection streams a contiguous stretch, from the client's number exactly if nothing overflowed |
| StreamClient.ViewAfterReconnects | frontend/src/livelab/useLiveLab.ts:73-85 | after the initial reset and any reconnects the view is the meaning of what was handed over, and of the journal prefix if nothing overflowed |
| StreamClient.OverflowLosesAFrame | sentinel/api/livelab/router.py:252-253 | a ring of one frame and a reconnect after two more lose a frame |
| Ranking.Rank | sentinel/oss/topology.py:79-159 | a permutation of the edge endpoints in the regime of a largest effect, quiet only if nothing is anomalous; ordered, comparison by comparison, by effects, masses, depth, role and name (apart from the promotion); its first element is what the regime looks for over calls and effects, the centre of a star in the latency regime, and anomalous whenever any endpoint is |
| Ranking.Dominant | sentinel/oss/topology.py:114-118 | the loop finds a largest effect and its family |
| Ranking.MostDistressed | sentinel/oss/topology.py:152-155 | the promoted callee is in transit distress, free of errors and worst among the callees |
| Ranking.Promote | sentinel/oss/topology.py:150-157 | one hop down at most, the rest of the order kept |
| Ranking.MoveToFront | sentinel/oss/topology.py:156-157 | remove and reinsert keeps every other element in order |
| Ranking.ResourceFirst | sentinel/oss/topology.py:123-124 | under a dominant resource step no effect anywhere exceeds the first service's resource effect |
| Ranking.LatencyFirst | sentinel/oss/topology.py:125-138 | under a dominant latency step the first service stepped, its neighbourhood holds within five hundredths the largest share of the slowed mass, it stands for the traffic only if all such services do, and the centre of a star is first |
| Ranking.CentreIsFirst | sentinel/oss/topology.py:92-96 | a stepped service joined to all others that stepped comes first, however loud they are, if each of them leaves out more than five hundredths of the mass |
| StarCoverage.StarIsNeighbourhood | sentinel/oss/topology.py:132-133 | the services counted for s are those that stepped and are s, call it or are called by it, each once |
| StarCoverage.CoverageIsShare | sentinel/oss/topology.py:131-133 | coverage is the share of the whole stepped mass that they hold |
| StarCoverage.NearBestIff | sentinel/oss/topology.py:134-136 | near-best coverage, in masses |
| Ranking.DemotedIff | sentinel/oss/topology.py:106 | demoted exactly if nobody calls it or it is one of the five synthetic roles |
| Ranking.SortedIsInRank | sentinel/oss/topology.py:120-144 | the sort keys order services as the regimes say |
| Ranking.ErrorFirst | sentinel/oss/topology.py:140-145 | under a dominant error step the first service stepped in errors and has no failing callee if any such service exists |
| Ranking.QuietFirst | sentinel/oss/topology.py:120-121 | with nothing stepped, the largest effect still comes first |
| RootCause.Inject | sentinel/oss/rca.py:102-116 | every anomalous service among the top three is a hypothesis afterwards; the planned ones stay; additions are signed by the family that stepped hardest |
| RootCause.DominantIffAnomalous | sentinel/oss/rca.py:36-41 | a service has a dominant family exactly when it is anomalous, and that family carries its largest effect |
| RootCause.AnomalousIff | sentinel/oss/rca.py:36-41 | a service is anomalous exactly if some family of it has an effect of 3 or more |
| RootCause.ReconciledNeverRefutes | sentinel/oss/rca.py:142-159 | a reconciled verdict on an anomalous candidate supports it, signed by its strongest family and listing the families that stepped; any other keeps its judgement; both name their own candidate |
| RootCause.SurvivorsKeepTheAnomalous | sentinel/oss/rca.py:174-177 | for any verdicts the survivors are a nonempty subsequence of the ranking holding every anomalous service |
| RootCause.PickIsAtOrAboveFirstAnomalous | sentinel/oss/rca.py:174-178 | the pick is never below the first anomalous service |
| RootCause.VerdictsCannotMoveThePickIff | sentinel/oss/rca.py:166-178 | the verdicts have no say exactly when the top-ranked service is anomalous or there is no second one |
| RootCause.PickIff | sentinel/oss/rca.py:174-179 | the pick is the first ranked service that no verdict explicitly refuses unless it stepped, or the first of all if every one is refused |
| RootCause.OnlyRefusalsCount | sentinel/oss/rca.py:175-176 | verdicts that support, or do not say, never change the pick |
| RootCause.RootCauseOf | sentinel/oss/topology.py:225-229 | ranked and picked together: if any service stepped the root cause is the first ranked one, itself anomalous, for all verdicts |
| OnsetStats.LevelZNonNegative | sentinel/tools/stats.py:60-85 | the effect size is never negative |
| OnsetStats.LevelZIgnoresOrder | sentinel/tools/stats.py:49-52 | it depends on the post-onset samples as a multiset |
| OnsetStats.LevelZMonotone | sentinel/tools/stats.py:60-85 | raising post-onset samples never lowers it, across the floors and the demotion |
| OnsetStats.MinorityIsNoStep | sentinel/tools/stats.py:64-70 | it is zero unless at least half of the post-onset samples exceed the baseline median |
| OnsetStats.LevelZPositiveIff | sentinel/tools/stats.py:63-85 | there is a step exactly when the samples suffice and the median rises past a floor, and a placebo match scales it to a quarter, never to nothing |
| OnsetStats.StepOverFlatBaseline | sentinel/tools/stats.py:65-72 | over a flat baseline v a rise of the median measures it over the larger of the noise floor and one percent of v |
| OnsetStats.NoticedIff | sentinel/tools/stats.py:26-37 | for each metric, exactly which rises over a flat baseline score 3 or more |
| OnsetStats.MedianIsMiddle | sentinel/tools/stats.py:49-52 | no more than half of the samples lie above the median, nor below it |
| OnsetStats.MedianOfSorted | sentinel/tools/stats.py:49-52 | of ordered samples the one in the middle, or the mean of the two |
| OnsetStats.MadIsMiddleDistance | sentinel/tools/stats.py:55-57 | the spread is 1.4826 times a distance from the median that no more than half of the samples exceed, nor stay under |
| OnsetStats.DenominatorIs | sentinel/tools/stats.py:72 | a rise is measured in the greatest of the spread, the noise floor and a hundredth of the level |
| OnsetStats.PlaceboIsTheGreaterStep | sentinel/tools/stats.py:76-83 | the placebo is the greater of the baseline's own steps at its thirds |
| OnsetSpikes.SpikeLiftsAtMostOne | sentinel/tools/stats.py:14-17 | moving one bucket of any series brings at most one more difference above any number |
| OnsetSpikes.OneSpikeIsNotEnough | sentinel/tools/stats.py:98-105 | for any series and baseline, no spike makes the slope pass fire where one more difference above the baseline's median one does not make half of them |
| OnsetSpikes.OnlyTheLevelCounts | sentinel/tools/stats.py:98-106 | there the reported step is that of the level pass |
| OnsetSpikes.SomeSpikeIsEnough | sentinel/tools/stats.py:98-105 | where one more such difference makes most of them and the baseline has five samples, some spike makes it fire |
| OnsetSpikes.SomeSpikeFiresIff | sentinel/tools/stats.py:98-105 | with an even number of buckets, some spike makes it fire exactly under that condition |
| OnsetSpikes.SpikeFiresIff | sentinel/tools/stats.py:98-105 | a given spike on any series fires exactly if most of the new differences, or half with the closest of the rest closer, lie above the baseline's median one |
| OnsetSpikes.ThreeSpikesDecide | sentinel/tools/stats.py:98-105 | on any series, if some spike at a bucket fires then one of three computable heights does: taller than all differences, up or down, or levelling the differences on its two sides |
| OnsetSpikes.AQuietSeriesCanBeTipped | sentinel/tools/stats.py:98-105 | four cpu buckets that score 0 over an idle baseline score at least 100 with one raised by a tenth |
| OnsetSpikes.OfThreeBuckets | sentinel/tools/stats.py:104-105 | of any three buckets, an outer one moves the median difference by half its height and the middle one not at all |
| OnsetSpikes.SpikeSlopeIff | sentinel/tools/stats.py:92-106 | over a flat series the slope pass fires on a one-bucket spike exactly if the baseline has five samples and the spike moves the median difference past the baseline's: with four buckets or more it does not move it, with three an outer one moves it by half its height |
| OnsetSpikes.SpikeMovesMedianBy | sentinel/tools/stats.py:14-17 | how far a one-bucket spike over a flat series moves the median of the differences, for every length and place |
| OnsetSpikes.ASpikeCanPassForAStep | sentinel/tools/stats.py:104-105 | three post-onset cpu samples, the last raised by a hundredth, score 5 or more |
| OnsetStats.RampIsSeen | sentinel/tools/stats.py:92-106 | a sustained slope d after a flat baseline scores at least d over a tenth of the noise floor, at any level |
| EdgeLatency.Attribute | sentinel/tools/traces.py:213-345 | no origin when no edge slowed, the division by zero when the total is zero, else the first best-scoring callee, its class, the first twenty slowed edges and the role of every slowed edge |
| EdgeLatency.ReachesDown | sentinel/tools/traces.py:277-288 | the stack search answers exactly whether a chain of slowed edges leads to the target, on any graph |
| EdgeLatency.BestCandidate | sentinel/tools/traces.py:298-307 | no callee of a slowed edge scores higher, and none before it as high |
| EdgeLatency.DegradedAre | sentinel/tools/traces.py:246-262 | the slowed edges are exactly the observed edges whose shift reaches the floor, largest shift first |
| EdgeLatency.TotalIsZeroIff | sentinel/tools/traces.py:298-302 | with no negative shift the divisor is zero exactly when no listed edge slowed |
| EdgeLatency.DividesByZeroIff | sentinel/tools/traces.py:258-302 | the tool fails exactly when the floor is zero, no observed edge rose and one did not move |
| EdgeLatency.AZeroFloorCanDivideByZero | sentinel/tools/traces.py:298-302 | one edge with equal samples before and after fails at a floor of zero |
| EdgeLatency.FullExplanationWins | sentinel/tools/traces.py:213-228 | if some callee explains every slowed edge, so does the attributed service, with at least its caller coverage |
| EdgeLatency.HealthyCallersExonerate | sentinel/tools/traces.py:293-304 | if a callee that explains as large a share as any has no healthy caller, the attributed service explains as large a share and has none either |
| EdgeLatency.NoneOutscores | sentinel/tools/traces.py:293-304 | against every candidate the attributed service explains more milliseconds, or as many with a larger share of slowed callers, or that too with as many slowed edges |
| EdgeLatency.FirstAmongEquals | sentinel/tools/traces.py:304 | among equals it is the one the slowed edges, largest first, enter first |
| EdgeLatency.LeadsToIff | sentinel/tools/traces.py:277-291 | chaining down means a path of slowed edges |
| EdgeLatency.RoleFits | sentinel/tools/traces.py:323-340 | each edge leaves the origin, enters it, leads down to it or has nothing to do with it |
| EdgeLatency.SharedCalleeIsBlamed | sentinel/tools/traces.py:290-305 | when all slowed edges enter one service that one is attributed |
| ErrorOrigin.MeasureDepth | sentinel/tools/traces.py:418-425 | the walk up ends on any parent pointers |
| ErrorOrigin.DepthIsDistance | sentinel/tools/traces.py:418-425 | it measures the distance to the root when there is one |
| ErrorOrigin.FrontierIsDeepestError | sentinel/tools/traces.py:427-431 | with acyclic parents the fallback is not taken and the frontier is exactly the error spans at the greatest error depth |
| ErrorOrigin.DeepestHasNoErrorChild | sentinel/tools/traces.py:415-431 | a deepest error span has no erroring child |
| ErrorOrigin.EdgeVotesAreClear | sentinel/tools/traces.py:438-443 | no edge vote names a callee whose own server spans erred |
| ErrorOrigin.MostCommon | sentinel/tools/traces.py:433-447 | the first of the votes with the highest count |
| ErrorOrigin.WinnerHasMostVotes | sentinel/tools/traces.py:447 | the winner was voted for and no vote has more |
| ErrorOrigin.VotesAreSupport | sentinel/tools/traces.py:430-445 | an edge has as many votes as frontier spans of the caller call the callee, if no server span of the callee erred, and else none; a service has its own non-client spans' votes and those of its callers if its server spans erred |
| ErrorOrigin.WinnerIsMostSupported | sentinel/tools/traces.py:447 | no origin has more such spans, and among equals the winner is spoken for first |
| ErrorOrigin.OneEdgeIsBlamedIff | sentinel/tools/traces.py:436-443 | a frontier of calls from one caller into one callee is that edge exactly if the callee has no erring server span, and else the callee |
| ErrorOrigin.NoClientNoEdge | sentinel/tools/traces.py:432-435 | a frontier without client spans is never an edge |
| ErrorOrigin.CandidatesLead | sentinel/tools/traces.py:421-424 | the candidates are the error spans none of whose children erred, or all if there is none |
| ErrorOrigin.LocateErrorOrigin | sentinel/tools/traces.py:395-462 | unknown exactly without error spans; else the frontier, span by span, the origin that most of its spans speak for (the first to be spoken for on ties) and the earliest error time; a blamed service has an error span, a blamed edge an erroring client span of the frontier and no failing server |
| TreeWalk.Render | sentinel/tools/traces.py:559-588 | on any spans, ids repeated or not: fails exactly if children nest deeper below a root than the limit on nested calls, and with unique ids lists the tree of parents |
| TreeWalk.RendersEveryDescent | sentinel/tools/traces.py:576-587 | on any spans, a span is listed at a depth exactly when a chain of that many child steps leads to it from a root |
| TreeWalk.UniqueIdsRender | sentinel/tools/traces.py:568-587 | with unique ids the walk succeeds once as many calls may nest as there are spans |
| SpanTree.ChildrenIndex | sentinel/tools/traces.py:568-572 | the index built in place lists, under each span's id, the spans that name it, in order |
| Spans.UpIsTheParent | sentinel/tools/traces.py:568-573 | a span hangs under the span whose id it names, and is a root if there is none |
| SpanTree.RendersExactlyTheRooted | sentinel/tools/traces.py:573-587 | a span is shown at a depth exactly when its parents reach a root in that many steps |
| SpanTree.RendersAllIffAcyclic | sentinel/tools/traces.py:573-587 | each span is shown at most once, and all of them exactly when no parent pointers form a cycle |
| SpanTree.DepthsDetermineTheTree | sentinel/tools/traces.py:576-587 | pre-order: each entry follows its parent's with nothing shallower than itself in between |
| SpanTree.SiblingsAreListedByTime | sentinel/tools/traces.py:583-587 | roots, and spans of one parent, appear by time and then id |
| Sorting.TextLeqIff | sentinel/tools/traces.py:583-587 | ids compare by their first different character, a beginning before the whole |
| WalkDepth.EndlessIffRevisits | sentinel/tools/traces.py:576-587 | for any spans, ids repeated or not, the walk never ends exactly when a span comes under itself below some root, and is otherwise no deeper than the number of spans |
| WalkDepth.UniqueIdsEnd | sentinel/tools/traces.py:568-587 | with unique ids the walk always ends, whatever the parent pointers |
| WalkDepth.ARepeatedIdCanBeEndless | sentinel/newrelic/store.py:125-129 | a root and a second span of its id that names that id as parent make the walk endless |
| Topology.Reachable | sentinel/tools/topology.py:56-69 | exactly the services transitively reachable, without the start, in the direction asked for |
| Topology.ReachIsDual | sentinel/tools/topology.py:56-62 | upstream and downstream are converse |
| Topology.BlastRadius | sentinel/tools/topology.py:111-124 | upstream is everything that reaches the service, downstream everything it reaches |
| Topology.ShortestPath | sentinel/tools/topology.py:72-93 | a real call path of least length, and the empty list exactly when there is none |
| Topology.Expand | sentinel/tools/topology.py:79-85 | one iteration of the search keeps the layering of the queue and the predecessor tree |
| Topology.NothingShorter | sentinel/tools/topology.py:78-85 | when the target comes to the head of the queue no path is shorter than its recorded distance |
| Topology.WalkBack | sentinel/tools/topology.py:88-93 | following predecessors rebuilds a path of the recorded length |
| Framing.SendAll | sentinel/sandbox/protocol.py:55-61 | all bytes reach the stream in order under any partial writes, empty ones included |
| Framing.FrameOnTheWire | sentinel/sandbox/protocol.py:16-18 | four bytes, the most significant first, spell the length, then comes the payload |
| Framing.SendMsg | sentinel/sandbox/protocol.py:16-18 | the frame is written, or nothing when the length does not fit 32 bits |
| Framing.SendMessages | sentinel/sandbox/protocol.py:16-18 | one send after the other puts the frames of all messages on the stream, up to the first too long to send |
| Framing.RecvExactly | sentinel/sandbox/protocol.py:21-28 | the next n bytes under any chunking, or nothing once the stream is too short |
| Framing.RecvMsg | sentinel/sandbox/protocol.py:31-39 | the first complete message, or none and the stream used up |
| Framing.RecvObject | sentinel/sandbox/protocol.py:31-39 | the decoded message, none at the end of the stream, or the decoder's failure with the payload consumed |
| Framing.ReceiveAll | sentinel/sandbox/protocol.py:31-39 | repeated receives give all complete messages |
| Framing.Exchange | sentinel/sandbox/protocol.py:16-63 | under any plan of partial writes and of short reads, what one side sends the other receives, all of it and in order |
| Framing.RoundTrip | sentinel/sandbox/protocol.py:16-39 | what was sent is received, in order, and then nothing |
| Framing.TruncatedStream | sentinel/sandbox/protocol.py:21-38 | a stream cut anywhere gives exactly the messages complete by then |
| Framing.NothingInvented | sentinel/sandbox/protocol.py:31-39 | any stream is the frames of what was received plus a rest holding no message |
| Framing.MessagesRoundTrip | sentinel/sandbox/protocol.py:16-39 | with a codec that decodes what it encodes, objects survive the trip |
| Hydration.Store.FetchChunk | sentinel/newrelic/store.py:246-254 | the recursive split ends, returns the pages of its leaf windows in order and counts every request |
| Hydration.Store.Hydrate | sentinel/newrelic/store.py:220-244 | the index is the first row of every id over all leaf windows, and a second call asks for nothing |
| Hydration.Store.AllSpans | sentinel/newrelic/store.py:180-183 | hydrates once and returns the whole index |
| Hydration.Store.ChildrenOf | sentinel/newrelic/store.py:185-187 | the index lookup equals filtering the spans by parent, in order |
| Hydration.Store.constructor | sentinel/newrelic/store.py:66-77 | the end of the window stays clear of the ingest lag |
| Hydration.ToSpanIff | sentinel/newrelic/mapping.py:35-51 | a valid row with an id becomes a span of that id, parent, service, kind and error, at the whole seconds since the origin |
| Hydration.Deduplicate | sentinel/newrelic/store.py:230-236 | the loop with a set of seen ids keeps the first mappable row of each id |
| Hydration.IndexByParent | sentinel/newrelic/store.py:237-240 | the index built in place agrees with filtering for every id |
| Hydration.EarliestWins | sentinel/newrelic/store.py:230-236 | the earliest row of an id is the one kept, and kept rows stay in order |
| Hydration.ChunksAre | sentinel/newrelic/store.py:225-229 | chunk k starts k sizes after the start and is one size long, the last one at most |
| Hydration.MiddleIsMiddle | sentinel/newrelic/store.py:250 | a window is split in its middle |
| Hydration.WindowsTile | sentinel/newrelic/store.py:225-229 | the leaf windows follow one another, none empty, from start to end exactly |
| Hydration.OneWindowPerInstant | sentinel/newrelic/store.py:225-251 | every instant lies in exactly one of them |
| Hydration.LeavesAreWide | sentinel/newrelic/store.py:249-251 | from 1000 ms up no leaf is narrower than 1000 ms, so a chunk of width w has at most w/1000 leaves and costs at most 2w/1000 - 1 pages |
| Hydration.LeavesStop | sentinel/newrelic/store.py:249-254 | a leaf is full only if it is too narrow to split |
| Hydration.IndexIsExact | sentinel/newrelic/store.py:220-254 | if no kept page is full every mappable span of the interval is indexed under exactly one position |
| Hydration.IndexIsSound | sentinel/newrelic/store.py:224-236 | full pages or not, every indexed span is a mapped row of the database |
| Hydration.CompleteIffNoneFull | sentinel/newrelic/store.py:252-253 | the index is complete for every database the answers fit exactly when no kept page is full |
| Hydration.ChildrenAreTheirs | sentinel/newrelic/store.py:237-240 | children are exactly the spans that name the id as parent, as often as they occur |
| RateLimiter.Limiter.TryTake | sentinel/agent/ratelimit.py:38-45 | the locked section takes one step of the bucket and computes the wait |
| RateLimiter.Limiter.Acquire | sentinel/agent/ratelimit.py:34-46 | a lone caller is served at once, or refused once and served after one sleep |
| RateLimiter.ServeIsBounded | sentinel/agent/ratelimit.py:38-44 | in every interleaving the tokens stay between nothing and capacity, and tokens plus grants within capacity plus inflow |
| RateLimiter.NothingIsLost | sentinel/agent/ratelimit.py:38-44 | while the bucket does not fill up, tokens plus grants are exactly what was there and what has flowed in |
| RateLimiter.EveryIntervalIsBounded | sentinel/agent/ratelimit.py:38-44 | any interval of length T grants at most capacity + rate * T |
| RateLimiter.WaitIsExact | sentinel/agent/ratelimit.py:45-46 | a refused caller left alone is served from the end of its wait on, and not before |
| Redaction.RedactInTurn | sentinel/agent/hooks.py:112-115 | the loop replaces the tokens one after the other |
| Redaction.OccursAt | sentinel/agent/hooks.py:114 | a token is in a text exactly if it stands at some position |
| Redaction.SealOutput | sentinel/agent/hooks.py:110-119 | the sealed text, and a redaction counted exactly when a banned token occurred |
| Redaction.SealIsCleanAndIdempotent | sentinel/agent/hooks.py:30-43 | no banned token survives, a second pass changes nothing, and a text is untouched exactly when it held none |
| Redaction.NothingRecreated | sentinel/agent/hooks.py:113-115 | replacing one token never creates another that has no brackets and does not occur in the mark's word |
| Redaction.ReplaceAtFirst | sentinel/agent/hooks.py:114-115 | replacement keeps the text up to the first occurrence, puts the mark for it and goes on with the rest |
| Redaction.ReplacedIsGone | sentinel/agent/hooks.py:114-115 | the replaced token no longer occurs |
| Redaction.PreToolUse | sentinel/agent/hooks.py:275-285 | the first deny wins, else the last modify, else allow |
| CollectorConfig.MergeInto | labs/otel/newrelic_export.py:37-43 | filling a copied dictionary key by key is the recursive merge |
| CollectorConfig.MergeConfigs | labs/otel/newrelic_export.py:45-48 | the loop folds the layers, later ones winning |
| CollectorConfig.MergeSelf | labs/otel/newrelic_export.py:37-43 | merge(x, x) = x |
| CollectorConfig.MergeAbsorbs | labs/otel/newrelic_export.py:37-43 | a layer already merged in is absorbed |
| CollectorConfig.MergedAt | labs/otel/newrelic_export.py:37-43 | at every path the later layer prevails where it has a value or list, the earlier stands where the later has nothing, and maps merge |
| CollectorConfig.LastLayerPrevails | labs/otel/newrelic_export.py:45-48 | of several layers the last to have a value or list at a path prevails |
| CollectorConfig.AppendOnceCounts | labs/otel/newrelic_export.py:57-59 | original entries stay in order, and the name is there once exactly unless the list repeated it |
| CollectorConfig.RepeatedExporterStaysRepeated | labs/otel/newrelic_export.py:57-59 | a list that names the exporter twice keeps naming it twice |
| CollectorConfig.RestateKeepsTheRest | labs/otel/newrelic_export.py:56-66 | other keys of a pipeline are unchanged and its lists keep their entries in order |
| CollectorConfig.RestatedListsName | labs/otel/newrelic_export.py:57-65 | a restated pipeline keeps its exporters in order plus the New Relic one, named once unless it was repeated, and a metrics pipeline its processors plus the delta processor likewise |
| CollectorConfig.RestateTwice | labs/otel/newrelic_export.py:56-66 | restating a restated pipeline changes nothing |
| CollectorConfig.ApplyPipelines | labs/otel/newrelic_export.py:51-76 | after the merge the accepted pipelines are the restated ones and all others are unchanged |
| CollectorConfig.TakenAreRestated | labs/otel/newrelic_export.py:53-66 | exactly the pipelines whose names begin with traces, metrics or logs are restated |
| CollectorConfig.BuildsIff | labs/otel/newrelic_export.py:51-66 | the extras can be built exactly if there is a map of pipelines and those taken hold lists where lists are extended |
| CollectorConfig.BuildErrors | labs/otel/newrelic_export.py:51-53 | a missing key, a value that is no mapping and pipelines that are no mapping are told apart |
| CollectorConfig.ApplyDefines | labs/otel/newrelic_export.py:67-76 | the result defines the exporter with its endpoint and key, and the delta processor |
| CollectorConfig.ApplyLeavesTheRest | labs/otel/newrelic_export.py:67-76 | no other top-level key, service key, exporter or processor changes |
| CollectorConfig.ApplyIsIdempotent | labs/otel/newrelic_export.py:51-76 | generating and merging the extras again changes nothing |
| Downsample.Cap | sentinel_rcaeval/normalize.py:106-116 | all rows when they fit, else exactly cap rows in their original order, all priority rows among them if fewer than cap have priority and only the first cap of those otherwise |
| Downsample.KeptIsExact | sentinel_rcaeval/normalize.py:109-116 | exactly cap rows in original order, with every priority row when fewer than cap have priority, else the first cap of those |
| Downsample.SampleIndexRises | sentinel_rcaeval/normalize.py:113-114 | floor(i * n / k) rises strictly for n > k |
| Downsample.SampleIndexIsFloor | sentinel_rcaeval/normalize.py:113-114 | the index is i * n / k rounded down |
| Downsample.SamplesAreEvenlySpaced | sentinel_rcaeval/normalize.py:112-116 | the places left over go to the low-priority rows at those indices |

## Left out

- Executors, the telemetry backend, model workers, the clock, health readings and preflight checks are arbitrary inputs or parameters.
- Gate.HandleDecision: does not post the outcome to the Slack thread; the gate's result it returns is modelled.
- Interleavings inside one gate call, inside the bus's close and inside the limiter's lock: each is one atomic step. The gate's read and append are not under one lock in the source, so two simultaneous calls are not covered.
- LiveRun is on values, not a class: its two threads interleave between any two operations, and proofs over all interleavings need the state as a value. Aliasing between its objects is not captured. Each click is one step; that a waiting run eventually proceeds is not shown; the error event, the snapshot, lab frames, report contents and usage are not modelled; emitting a terminal phase and closing the bus are taken not to throw, as are snapshot and journal writes; the run's journal file is fresh.
- Journal.ActionJournal.Append: does not model the record's time stamp and duration, nor the error for an unknown kind, which the event type rules out.
- The gate's hook guard for mutating tools, and Slack posting.
- Params hashing is any function of kind, target and params; JSON encoding is any codec that decodes what it encodes.
- Floating-point rounding: effect sizes, tokens, shifts, deadlines and the sampling index are exact.
- LiveInvariant.PhasesFollowTheOrder: takes entering a terminal phase not to throw; a write that fails while entering done would append failed after it.
- EventBus.Subscription.Take: a wait on an empty queue is an error at once; blocking and time-outs are not modelled.
- Frame time stamps, and JSON payloads the reducer only stores.
- Reader and writer errors, and a raw reader that has no data yet but is not at its end.
- Deriving call edges from spans and deciding the callee of a span: edges and callees are parameters. Sets are walked in any order, of which the source's sorted order is one.
- Choosing a metric's floors by substring of its name: metrics are enumerated.
- Ties the source breaks by set iteration order: the order is a parameter or left open.
- TreeWalk.Render: how many nested calls the interpreter grants is a parameter; operation names, kinds, statuses and durations of a listed span are read off the span.
- ErrorOrigin.LocateErrorOrigin: span ids are taken as unique in the depth results, as the stores deduplicate them; with repeated ids the source looks up the last span of an id and the model the first. The evidence text is left out, and the trace id and kind are those of the first frontier span.
- EdgeLatency.Attribute: percentiles are any function of the samples, and the evidence is reduced to the role each line gives its edge.
- Hydration.Store.Hydrate: a page is a function of its window, so a backend that answers the same window differently within one hydration is not covered; the other queries of the store are left out.
- RateLimiter.Limiter.Acquire: with several callers waiting, how often one of them is refused is not bounded, as the source does not bound it.
- Redaction.SealOutput: is about the serialized text, not its re-parsing; the input-side check that lower-cases its text, the budget, report and finding guards, and the chaining of output hooks are left out.
- A mapping under a pipeline's list key, which Python would list by its keys, is treated as the type error.
- Prompts, planning, synthesis, scenario and dataset tables, cost reports, charts and pages: data or presentation.
