# hk in Dafny: fleet metrics and loss-tolerant protocols

This project models two parts of hk (handoffkeep) and proves what they promise.

**The fleet-metrics engine** (`internal/fleetmetrics`) turns task histories, job events and
completion-sentinel samples into a report. Missing data must lower coverage and never be counted
as zero. The modules `Waits`, `TaskReplay`, `Sentinel`, `Lineage`, `Percentiles`, `UnitSpans`,
`SlotReport`, `SlotWindow`, `SlotTotals`, `LeadTime` and `LeadTimeReport` hold its loops in
imperative form, each proved against a direct definition; `SlotWork` reads the slot states off the
sentinel's words, and `SlotTruth` and `SlotGaps` measure the slot report against what may truly have
happened. Instants and durations are whole nanosecond ticks.

**The protocols that survive crashes and losses.** Each is a step machine in which an adversary
chooses what the network, the remote, the operators and the scheduler do, and any call may stop
between two steps; and, where the source drives the protocol from one function, also a class whose
methods perform that function and whose effects are proved to be a run of the machine.

| module | protocol |
|---|---|
| `Capacity`, `Admission`, `AdmissionHold`, `AdmissionResend`, `AdmissionClient` | serialized Linear issue creation: durable reservations, the ceiling, the hold |
| `Ask`, `AskQuestions`, `AskDesk` | asking the operator through Linear, on top of the admission |
| `Outbox`, `Delivery` | the hub outbox forwarder: backoff, and delivery with receipts |
| `KeyCache`, `KeyCacheRuns`, `KeyCacheAges` | the signing-key cache with numbered refreshes |
| `ReleaseTags`, `ReleaseWorkflow` | the patch-tag reservation race |

Two text algorithms complete it: `Board` (the marker-delimited section of an issue description)
and `Discord` with `DiscordLimits` (messages cut to 2000 runes). `Common`, `Vocabulary` and `Text`
are shared.

`dafny verify dfyconfig.toml` checks everything.

## Where the code does less than its words

Each of these is proved; the model follows the code.

- **The range of the empty minutes.** The report calls the empty-with-ready range a lower and an
  upper bound, and the package's rule is that missing data never becomes an empty slot. `SlotTruth`
  lets everything vary that the records leave open: which minutes with unknown ready work had some,
  when a job without a timed claim held a slot, how long before a later claim one with an untimed
  claim did, and how early one ended whose end carries no time, was not observed, or comes of linked
  tasks whose histories were not fetched. Five families of inputs then put the truth outside the range,
  each shown on one machine in `SlotGaps`: unknown ready work, an untimed claim, an open end, a unit
  that ended at or before Since in the window's first minute, which starts at Since cut to a minute,
  and a job without a timed claim or a role. `SlotTruth.RangeHoldsExactly` gives the exact condition,
  `Complete`, which a caller can compute from the records; on a window from a whole minute it is a
  guard on every minute (`SlotTruth.WholeMinuteExactly`). `SlotTotals.TotalHoldsExactly` and
  `SlotTotals.TotalByMachine` lift both to the total.
- **Rows without a kind.** Every state reader treats an event row without a kind as a transition,
  but such a row into `needs_decision` begins no wait (`Waits.UntypedEntryIsNotCounted`).
  `Waits.KindMattersExactly` says at which ticks that is missed and `Waits.WaitMissesExactly` by how
  much, and exactly when, the wait of a window falls short.
- **Sending an id twice.** A reservation keeps two creates from being unresolved at once, but a
  create can be sent for an id whose issue exists (`AdmissionResend.SentAgainAfterLanding`). An
  attempt can come to do so exactly when an earlier create of its id is unresolved as it takes the
  gate (`AdmissionResend.SentAgainExactly`), and then the id is reserved as uncertain, which the
  caller can look up: no run sends an existing id from an attempt that did not find it so
  (`AdmissionResend.SentAgainWasUncertain`). With such a reservation and no issue either a second send
  is possible or the request is lost and nothing is ever sent again, whoever tries
  (`AdmissionResend.UncertainOutcome`, `AdmissionResend.WedgedForGood`). After a second send one issue
  results because the remote refuses a second one with the same id.
- **Key age.** A key served without a refresh is under 24 hours old only on the clock the lookup read
  before it waited for the mutex: `KeyCacheRuns.StaleKeyServed` is a run that serves an older one, and
  `KeyCacheRuns.AgeExactly` gives the exact bound, a day plus the lookup's wait.

The messages to the operator keep their limits: `DiscordLimits` shows that under the limits records
are stored with, every message fits and every link arrives as long as the console's or the issue's
address stays under 900 runes, and that an address as long as a whole message would be cut
(`DiscordLimits.LongAddressLosesLink`) or overflow (`DiscordLimits.LongAddressOverflows`). The general
conditions on the lengths of the parts are in `Discord`.

## Model

| member | source | states |
|---|---|---|
| `Waits.WaitTime` | internal/fleetmetrics/metrics.go:332-349 | for events in time order, the ticks of the window at which replaying the events leaves the task waiting |
| `Waits.Overlap` | internal/fleetmetrics/metrics.go:351-363 | the length of the intersection of two half-open intervals |
| `Waits.SpansAreWaitingTicks` | internal/fleetmetrics/metrics.go:332-363 | the overlaps the loop adds up count exactly the waiting ticks, any nesting of starts and ends |
| `Waits.WaitingExactly` | internal/fleetmetrics/vocab.go:67-75 | at a tick a task waits exactly when the flag was set or a typed transition led into needs_decision, and nothing since cleared the flag or led out |
| `Waits.WaitWithinWindow` | internal/fleetmetrics/metrics.go:329-349 | a wait is between 0 and the window's length |
| `Waits.WaitIsAdditive` | internal/fleetmetrics/metrics.go:329-349 | splitting the window at any point splits the wait |
| `Waits.KindMattersExactly` | internal/fleetmetrics/vocab.go:67-75 | at every tick, reading rows without a kind as transitions changes the replay exactly when an untyped entry began a wait that was not open and nothing has started or ended one since; it never removes a wait |
| `Waits.WaitMissesExactly` | internal/fleetmetrics/metrics.go:329-349 | over a window the wait falls short of that of the typed rows by the missed ticks, and agrees exactly when there is none |
| `Waits.UntypedEntryIsNotCounted` | internal/fleetmetrics/vocab.go:67-75 | a concrete history whose untyped entry into needs_decision begins no wait, though it is a state event |
| `TaskReplay.StateAt` | internal/fleetmetrics/linkage.go:316-340 | absent exactly before it was created, unfetched exactly from then to the last change without a history, else where the last transition at or before the time led |
| `TaskReplay.ScanFindsLast` | internal/fleetmetrics/linkage.go:328-340 | the forward scan that stops early finds the last transition at or before the time |
| `TaskReplay.CycleStart` | internal/fleetmetrics/linkage.go:265-274 | the index after the last reopen |
| `TaskReplay.CycleStartOf` | internal/fleetmetrics/vocab.go:61-65 | no event from that index on is a reopen, and the one before it is |
| `TaskReplay.FirstInto` | internal/fleetmetrics/vocab.go:77-98 | the first event of the current cycle into a wanted state, None exactly when there is none |
| `TaskReplay.LastInto` | internal/fleetmetrics/linkage.go:287-314 | the time of the last event into a state, None exactly when there is none |
| `TaskReplay.JobTaskEnd` | internal/fleetmetrics/metrics.go:618-638 | known exactly when a task is linked and all have ended; then the latest of their ends |
| `Sentinel.ParseSentinelLog` | internal/fleetmetrics/sources.go:147-174 | ordered runs that touch only at boundaries, are maximal, and read back as what the samples observed |
| `Sentinel.StatusAt` | internal/fleetmetrics/metrics.go:479-487 | the binary search answers as the first run ending at or after the time |
| `Sentinel.RunsReportObserved` | internal/fleetmetrics/sources.go:131-174 | at every tick: the status of the last sample before it if the next follows within the gap, else of a sample at it, else none |
| `Sentinel.RunsWellFormed` | internal/fleetmetrics/sources.go:147-174 | neighbouring runs of one status are separated by more than the gap |
| `Lineage.Builder.Find` | internal/fleetmetrics/linkage.go:224-233 | returns the root; path compression changes no root and keeps links pointing down, so find terminates |
| `Lineage.Builder.Union` | internal/fleetmetrics/linkage.go:234-244 | exactly the two groups merge, under the smaller root |
| `Lineage.Builder.JoinOrigins` | internal/fleetmetrics/linkage.go:245-251 | a task ends up with every snapshot origin it names; no group is split; members stay connected to their root |
| `Lineage.Builder.BuildLineage` | internal/fleetmetrics/linkage.go:220-255 | for any two iteration orders of the map, every task gets the smallest id of its connected component |
| `Lineage.Builder.ReadRoots` | internal/fleetmetrics/linkage.go:252-254 | reading the roots while compressing gives each task its component's least id |
| `Lineage.Compressing` | internal/fleetmetrics/linkage.go:224-233 | pointing a node at its root changes the root of none |
| `Lineage.Linking` | internal/fleetmetrics/linkage.go:234-244 | pointing one root at a smaller one moves exactly its group |
| `Lineage.RootIsLeast` | internal/fleetmetrics/linkage.go:220-255 | with every edge joined, a root is the least id connected to the task |
| `Percentiles.Percentiles` | internal/fleetmetrics/linkage.go:342-356 | nearest-rank P50 and P90 and the maximum of any nonempty values, in order |
| `Percentiles.RankIsNearest` | internal/fleetmetrics/linkage.go:345-352 | at least the given share of the values is at most the percentile, a smaller share strictly below |
| `Percentiles.OrderIrrelevant` | internal/fleetmetrics/linkage.go:346-347 | the summary depends only on the multiset of values |
| `UnitSpans.UnitFor` | internal/fleetmetrics/metrics.go:539-594 | a builder's span: from its first claim to its earliest recorded end of any kind, or open from its last observation |
| `UnitSpans.ScanEvents` | internal/fleetmetrics/metrics.go:543-563 | first claim, earliest terminal event and latest event, in one pass |
| `UnitSpans.RecordedEnd` | internal/fleetmetrics/metrics.go:544-585 | the earliest recorded end of a job's slot, none exactly when none is recorded |
| `UnitSpans.EventStateIsLastWord` | internal/fleetmetrics/metrics.go:489-506 | without samples a builder works unless the last deciding event so far made it wait |
| `SlotReport.CountTask` | internal/fleetmetrics/metrics.go:600-610 | one task's share of the ready and unknown counts of every minute |
| `SlotReport.ReadyMinutes` | internal/fleetmetrics/metrics.go:596-616 | per minute: how many tasks are ready, or -1 when none is seen and some state is unknown |
| `SlotReport.ReadyExactly` | internal/fleetmetrics/metrics.go:596-616 | the count is that of the tasks then in backlog, unstarted or reopened; -1 exactly when there is none and some task's state is unknown |
| `SlotReport.CapAtIsLastInForce` | internal/fleetmetrics/metrics.go:671-679 | the capacity at a time is that of the last listed entry in force, -1 exactly when none is |
| `SlotReport.AddMinute` | internal/fleetmetrics/metrics.go:728-786 | each total grows by its own share of the minute, working units before held ones, and the partition and the reasons keep adding up |
| `SlotReport.CountUnits` | internal/fleetmetrics/metrics.go:737-752 | the units working, held and unknown at a minute; which those are is `SlotWork.CountsExactly` |
| `SlotReport.MachineSlots` | internal/fleetmetrics/metrics.go:727-788 | a machine's totals are the sums over its minutes, Working + HeldIdle + Empty + Unobserved = SlotMinutes, reasons sum to Empty; what moves between Working and HeldIdle is `SlotWork.SeenWorking` |
| `SlotReport.HeldRange` | internal/fleetmetrics/metrics.go:508-537 | the slots truly held lie between occupied and occupied plus unknown, for any true ends |
| `SlotReport.TruthInRange` | internal/fleetmetrics/metrics.go:760-786 | for every choice of unobserved ends the truly empty minutes with ready work lie in the reported range |
| `SlotReport.RangeIsTight` | internal/fleetmetrics/report.go:80-84 | both ends of the range are reached by some choice of ends |
| `SlotWork.WordsRead` | internal/fleetmetrics/sources.go:131-174 | reading the folded runs at a time as working or idle is reading the logged words: working, or idle, done or blocked |
| `SlotWork.EventsDecide` | internal/fleetmetrics/metrics.go:489-506 | by its events a job works unless, of the events read before an untimed or later one, it reported or asked and was not started again since |
| `SlotWork.StateExactly` | internal/fleetmetrics/metrics.go:508-537 | a unit works when it surely holds its slot and some worker of it, or its builder, was logged as working, or the builder as neither working nor waiting and its events do not make it wait; it is held when it holds its slot otherwise |
| `SlotWork.CountsExactly` | internal/fleetmetrics/metrics.go:737-752 | of the units that surely hold a slot at a minute, working counts those that work by log and events, and held the rest |
| `SlotWork.SeenWorking` | internal/fleetmetrics/metrics.go:727-770 | over a window, a builder logged as working where it was idle never lowers working, never raises held, and leaves empty and unobserved slots alone |
| `SlotWindow.BuildUnits` | internal/fleetmetrics/metrics.go:693-717 | one unit for every claimed builder of the machine, in snapshot order, and the window keeps exactly those it should |
| `SlotWindow.UnitInWindow` | internal/fleetmetrics/metrics.go:695-708 | a unit exactly for a builder of the machine with a timed claim, kept exactly when it held a slot in the window, its end left open only inside it |
| `SlotWindow.LaneOwners` | internal/fleetmetrics/metrics.go:715-716 | the last builder of each lane |
| `SlotWindow.AttachWorkers` | internal/fleetmetrics/metrics.go:718-726 | a unit gets exactly the machine's workers of the lane it owns, and its span does not change |
| `SlotTruth.CountedMay` | internal/fleetmetrics/metrics.go:693-752 | at no minute are more slots counted as held, surely or perhaps, than jobs may hold |
| `SlotTruth.CountedMust` | internal/fleetmetrics/metrics.go:693-752 | from Since on every slot surely held is counted as occupied, and when no end is left open no other is |
| `SlotTruth.TruthBetween` | internal/fleetmetrics/metrics.go:754-786 | over every choice of what was not observed the truth lies between a least and a most that the records give |
| `SlotTruth.RangeHoldsExactly` | internal/fleetmetrics/metrics.go:640-788 | over every choice of unknown ready work and of when each job held a slot, the truth lies in a machine's range if and only if the report is complete |
| `SlotTruth.WholeMinuteExactly` | internal/fleetmetrics/metrics.go:727-788 | from a whole minute on, complete means in every minute: no uncounted holder below a positive lower bound, no counted slot that may have been empty beside ready work, no slot that may have been empty beside unknown work |
| `SlotTruth.WholeMinuteIsComplete` | internal/fleetmetrics/metrics.go:641-704 | enough for that: ready work is known, ends are firm, and every job that may be a builder has a timed first claim or had ended before |
| `SlotTruth.BothEndsReached` | internal/fleetmetrics/report.go:80-84 | the lower end of a complete range is the truth for some choice, and from a whole minute on so is the upper |
| `SlotGaps.UnknownReadyCanBeWrong` | internal/fleetmetrics/metrics.go:605-616 | one task without a fetched history: the truth lies above the upper bound |
| `SlotGaps.UntimedClaimCanBeWrong` | internal/fleetmetrics/metrics.go:551-557 | a live builder with an untimed claim before a timed one: the truth lies below the lower bound |
| `SlotGaps.OpenEndCanBeWrong` | internal/fleetmetrics/metrics.go:558-585 | a builder reaped at no recorded time, or linked to an unfetched task: the truth lies above the upper bound |
| `SlotGaps.FirstMinuteCanBeWrong` | internal/fleetmetrics/metrics.go:702-704 | a reaped builder in a window from half past a minute: the truth lies below the lower bound |
| `SlotGaps.UnplacedCanBeWrong` | internal/fleetmetrics/metrics.go:695-701 | a live job without a timed claim, or without a role: the truth lies below the lower bound |
| `SlotTotals.EndsOfTasks` | internal/fleetmetrics/metrics.go:618-638 | for every job, when the tasks linked to it had all ended |
| `SlotTotals.MachineReport` | internal/fleetmetrics/metrics.go:665-788 | from tasks and jobs to a machine's totals, which contain the truth over every choice if and only if the report is complete |
| `SlotTotals.SlotTotals` | internal/fleetmetrics/metrics.go:640-797 | every machine's report and their sum, partitioned like each of them, from one computation of the ready work |
| `SlotTotals.TotalHoldsExactly` | internal/fleetmetrics/report.go:80-84 | over every choice on every machine, with one choice of the ready work, the total truth lies in the total range if and only if the total is complete |
| `SlotTotals.TotalByMachine` | internal/fleetmetrics/report.go:80-84 | from a whole minute on, the total is complete exactly when every machine's report is |
| `SlotTotals.TotalLowReached` | internal/fleetmetrics/report.go:80-84 | the lower end of a complete total is the truth for some choice |
| `SlotTotals.TotalHighReached` | internal/fleetmetrics/report.go:80-84 | so is its upper end on a window from a whole minute |
| `LeadTime.FirstRecord` | internal/fleetmetrics/metrics.go:119-127 | the earliest dated record of a repository's services |
| `LeadTime.InclusionExactly` | internal/fleetmetrics/metrics.go:134-165 | a record includes a merge exactly when it names the PR, is of its commit up to abbreviation, or GitHub says its ref contains it; it is undecided exactly when it lists no PRs, is not of the commit and GitHub was not asked |
| `LeadTime.ShortNamesOne` | internal/fleetmetrics/metrics.go:134-147 | a short entry repo#n names the pull request n of that repository and no other |
| `LeadTime.EarliestIncluding` | internal/fleetmetrics/metrics.go:134-170 | the earliest dated success at or after the merge that includes it, and whether some record is undecided |
| `LeadTime.PrUsable` | internal/fleetmetrics/metrics.go:88-181 | each state in terms of the merge and the records, usable at the earliest qualifying record |
| `LeadTime.UsableAfterMerge` | internal/fleetmetrics/metrics.go:98-181 | usable never precedes merged, and equals it without a deploy stream |
| `LeadTime.MoreRecordsNeverLater` | internal/fleetmetrics/metrics.go:134-180 | adding deploy records never takes usability away or makes it later |
| `LeadTimeReport.AdvanceSumsUp` | internal/fleetmetrics/metrics.go:234-258 | over the pull requests: latest usable, latest merge, the group, and the first failing state that is not only waiting is kept |
| `LeadTimeReport.OverPRs` | internal/fleetmetrics/metrics.go:225-258 | every pull request is answered and the carried progress sums the answers up |
| `LeadTimeReport.MeasureTask` | internal/fleetmetrics/metrics.go:213-287 | each outcome exactly when it applies: unclaimed, no link, some PR not usable and in which state, all usable before the first claim, or else counted with its times |
| `LeadTimeReport.Phase` | internal/fleetmetrics/metrics.go:268-287 | implement + verify_fix + install is the whole order-to-usable time, divided at the first review entry |
| `LeadTimeReport.LeadTimes` | internal/fleetmetrics/metrics.go:194-305 | each merged task of the window is in one group's times or missing, by its own outcome; none becomes a zero |
| `Capacity.NewPolicy` | internal/api/linear_capacity_policy.go:9-33 | accepted exactly when 0 <= low < high < limit-5 |
| `Capacity.ReleasePassesCeiling` | internal/api/linear_admission.go:182-208 | the count that clears a hold passes the ceiling check of the same attempt |
| `Capacity.AddPage` | internal/api/linear_admission.go:160-167 | a page is accepted exactly when its ids are nonempty, new and distinct |
| `Capacity.ActiveIssueCount` | internal/api/linear_admission.go:139-180 | terminates whatever the remote answers, with the page-by-page result |
| `Capacity.CountIsExact` | internal/api/linear_admission.go:139-180 | on a remote that lists each active issue once, the count is the number of issues cut at the ceiling |
| `Admission.StepKeepsInv` | internal/api/linear_admission.go:27-114 | every step of an attempt, the remote, a crash, or the board taking over an issue keeps the reservation invariant |
| `Admission.SafeInEveryRun` | internal/api/linear_admission.go:27-114 | in every run at most one create is unresolved, sent once and reserved, and active issues with it stay within the ceiling |
| `Admission.SendsOnlyWhenResolved` | internal/api/linear_admission.go:45-81 | when a create is sent nothing earlier is unresolved, no hold stands and there is room |
| `Admission.HoldStays` | internal/api/linear_admission.go:182-195 | a recorded hold blocks until a count at or below the archive target, or under a ceiling whose limit is below the recorded one, releases it |
| `Admission.NoSendUnderHold` | internal/api/linear_admission.go:88-99 | no create is sent after a hold without a releasing count first, which also passes the ceiling |
| `Admission.AtRelease` | internal/api/linear_admission.go:182-208 | at the release the count is at or below the archive target or the limit below the recorded one, and the active issues are below the ceiling |
| `AdmissionHold.HeldUntilRelieved` | internal/api/linear_admission.go:182-195 | while every count of a run is above the archive target and no limit is below the recorded one, the hold stays and nothing is sent |
| `AdmissionHold.LiftedExactly` | internal/api/linear_admission.go:182-208 | at the check an attempt lifts the hold and goes on to reserve if and only if its count is at most the archive target, or under the ceiling with a limit below the recorded one; else it gives up |
| `AdmissionResend.SentAgainExactly` | internal/api/linear_admission.go:34-87 | an attempt can come to send an id whose issue exists if and only if an earlier create of the id is unresolved as it takes the gate |
| `AdmissionResend.SentAgainWasUncertain` | internal/api/linear_admission.go:38-87 | in every run, an id is sent beside its issue only by an attempt that took the gate with the id reserved as uncertain and its issue not there |
| `AdmissionResend.SentAgainAfterLanding` | internal/api/linear_admission.go:49-66 | from no reservation and no issue, two attempts of which the second sends the id again beside its issue |
| `AdmissionResend.WedgedForGood` | internal/api/linear_admission.go:49-66 | an uncertain reservation whose request was lost blocks every later create: it stays, and no run sends anything |
| `AdmissionResend.UncertainOutcome` | internal/api/linear_admission.go:49-66 | an uncertain reservation without its issue: a second send beside the issue is possible if and only if the reservation is not such a one |
| `AdmissionClient.Client.AdmittedCreate` | internal/api/linear_admission.go:27-114 | a run of the machine that sends at most one create, after reserving it; a success is an existing issue with its reservation gone; a refusal sends nothing and its reason stands; a rejection is on record; any other create that was sent leaves its issue or its reservation; it fails otherwise only when an operation failed or a reply was lost |
| `AdmissionClient.Client.CreateUnreserved` | internal/api/linear_admission.go:67-112 | the same for the part after the reservations are drained, from no reservation at all |
| `AdmissionClient.Client.ReserveAndSend` | internal/api/linear_admission.go:82-112 | the run gains a reservation and then the one send, and what was sent is accounted for |
| `AdmissionClient.Client.DrainReservations` | internal/api/linear_admission.go:45-66 | nothing is left reserved, or the attempt is refused for one earlier create that is uncertain |
| `AdmissionClient.Client.DrainOne` | internal/api/linear_admission.go:49-66 | this reservation is given up, its issue existing or its create known rejected, or it blocks; any other that is gone has its issue |
| `AdmissionClient.Client.Resolved` | internal/api/linear_admission.go:49-63 | goes on only when the issue exists or the create is known rejected; else the attempt is refused |
| `AdmissionClient.Client.AdmissionCapacity` | internal/api/linear_admission.go:196-208 | goes on without a hold on a count below the ceiling, or is refused for one of them |
| `AdmissionClient.Client.CheckCapacityHold` | internal/api/linear_admission.go:182-195 | goes on without a hold, clearing one only on a count at most the archive target, or under the ceiling with a limit below the recorded one |
| `AdmissionClient.Client.RecordRefusal` | internal/api/linear_admission.go:88-110 | a reported rejection left its hold with the limit if it was for capacity, and its mark or no reservation |
| `AdmissionClient.Client.ReadRejected` | internal/api/linear_admission.go:98-110 | a rejected create ends in success only when its issue is there, else in its rejection, and is accounted for |
| `AdmissionClient.ClientIsSafe` | internal/store/linear_admission.go:62-88 | after any calls, whatever failed in them, the guarantees of runs hold |
| `Ask.Record` | internal/store/decision_request.go:624-715 | a re-send of the latest request returns it unchanged; anything new is open under a higher revision; each refusal exactly when it applies |
| `Ask.StepKeepsInv` | internal/api/linear_decisions.go:81-136 | every step keeps links to derived, existing issues and never changes one |
| `Ask.AskIsSafe` | internal/api/linear_decisions.go:81-136 | one link per request, one request per linked issue, links never change, and an open request's success carries the derived link |
| `Ask.RunProjects` | internal/api/linear_admission.go:18-22 | the creates of any run of asks, with everybody else's, are one run of the admission |
| `Ask.OneIssuePerRequest` | internal/api/linear_decisions.go:112-117 | every attempt begun for a request carries its derived id; a request gets at most one issue ever, no issue two requests; at most one create is unresolved, sent once, within the ceiling |
| `Ask.ResendsShareOneRequest` | internal/api/linear_decisions.go:81-95 | however often one input is sent for a task, all its calls work on one request |
| `AskQuestions.NeverUsedAgain` | internal/store/decision_request.go:683-690 | in every run a newly recorded request has an id no call, no link and no attempt had before |
| `AskQuestions.NewQuestionNewId` | internal/store/decision_request.go:683-690 | its revision is above that of every request recorded, linked or begun for its task |
| `AskQuestions.AnswersItsQuestion` | internal/api/linear_decisions.go:86-136 | in every run calls on one request ask the same content, and calls answered with one link asked the same question |
| `AskQuestions.ClosedStays` | internal/store/decision_request.go:624-690 | the operator's answer closes the request, and no step opens it again |
| `AskQuestions.FindsItsIssue` | internal/api/linear_decisions.go:101-136 | whatever was lost, a call whose derived issue exists comes to be answered with the request's link, without another create |
| `AskQuestions.SentWhileOpen` | internal/api/linear_admission.go:67-78 | in every run a call's attempt gets past the task check only by one made while its request was current and open |
| `AskDesk.Desk.AskOperator` | internal/api/linear_decisions.go:86-136 | the call is a run of the machine; a success is an answered call with the stored link, an error comes of a failed operation, a refused request or an issue that was not made |
| `AskDesk.Desk.CreateAndStore` | internal/api/linear_decisions.go:112-136 | create, read back when the create fails, store; a success comes of the call's own attempt or of the read |
| `AskDesk.Desk.CreateIssue` | internal/api/linear_decisions.go:113-117 | the call's attempt takes the gate and runs to its end among everybody else's steps; issue made, read needed, or stopped |
| `AskDesk.SuccessCarriesLink` | internal/store/linear_decisions.go:379-436 | every successful call on an open request carries the link to the issue derived from it |
| `Outbox.Forwarder.TryRow` | internal/hubforward/forwarder.go:99-116 | one row's retry entry after it is skipped, fails or is delivered; skipped exactly while it waits, failed only when something was lost; no other entry moves |
| `Outbox.Forwarder.Forward` | internal/hubforward/forwarder.go:126-133 | post and mark among everybody else's steps; success means the row is marked, failure that a request, an answer or a mark was lost |
| `Outbox.Forwarder.PostRow` | internal/hubforward/forwarder.go:135-179 | a receipt the forwarder holds, or none when the request or its answer was lost |
| `Outbox.MarkedIsDelivered` | internal/store/outbox.go:188-215 | in every run a marked row is in the hub under the id it is marked with |
| `Outbox.Forwarder.Once` | internal/hubforward/forwarder.go:91-124 | a run of the delivery; every listed row moves as its attempt went, nothing unlisted is kept, the counts are exact, and a row counted as sent is marked with the hub's id for it |
| `Outbox.BackoffDoubles` | internal/hubforward/forwarder.go:104-113 | after its k-th failure in a row a row waits min(30s * 2^(k-1), 10min) from that try |
| `Delivery.HubIdOf` | internal/hubforward/forwarder.go:137-179 | the hub's id for a key, none exactly when it has no such row |
| `Delivery.StepKeepsInv` | internal/hubforward/forwarder.go:126-179 | every step of any forwarder keeps receipts genuine and hub rows unique |
| `Delivery.DeliveredOnce` | internal/hubforward/forwarder.go:126-179 | each event is in the hub at most once, a sent row carries that row's id, and no receipt held conflicts |
| `Delivery.ReceiptsStay` | internal/store/outbox.go:188-215 | a stored receipt is never replaced and hub rows never move |
| `KeyCache.Verifier.LookUp` | internal/cfaccess/cfaccess.go:161-184 | what a lookup decides from its own clock reading, and that it starts at most one background refresh |
| `KeyCache.Verifier.BeginRefresh` | internal/cfaccess/cfaccess.go:205-224 | for an unknown key id a fetch is skipped exactly when the keys come from one begun after the lookup; for a known one exactly when they are set, within their time and under a day old; else it gets the next number |
| `KeyCacheRuns.StepKeepsInv` | internal/cfaccess/cfaccess.go:161-260 | every step keeps the counters ordered and the invariant of locks and refreshes |
| `KeyCacheRuns.SafeInEveryRun` | internal/cfaccess/cfaccess.go:161-260 | one background refresh at a time; unknown key ids let through a minute apart; completed never passes fetched; a key served without a refresh is under a day old plus the lookup's wait |
| `KeyCacheRuns.EveryFetchBegan` | internal/cfaccess/cfaccess.go:205-224 | each fetch number was opened by some step of the run |
| `KeyCacheRuns.RefreshedAfterLookup` | internal/cfaccess/cfaccess.go:161-260 | after a refresh for an unknown key id, the installed keys come from a fetch begun after that lookup |
| `KeyCacheRuns.AgeExactly` | internal/cfaccess/cfaccess.go:162-175 | over all runs, lookups that wait at most w are served sets younger than a bound exactly when the bound is at least a day plus w |
| `KeyCacheRuns.StaleKeyServed` | internal/cfaccess/cfaccess.go:162-175 | for every wait a run that serves a set of a day plus the wait, less one tick |
| `KeyCacheAges.LookedUpExactly` | internal/cfaccess/cfaccess.go:161-184 | which lookups are served at once and with which key, which wait for a refresh, and which are refused |
| `KeyCacheAges.StaleIsRefreshed` | internal/cfaccess/cfaccess.go:165-200 | in every run, when a key is served from a set past its time a background refresh is under way |
| `KeyCacheAges.RefreshedIsYoung` | internal/cfaccess/cfaccess.go:186-224 | in every run, a key read after a refresh comes, for an unknown id, from a set fetched after the lookup arrived, else from one within its time and under a day old at the refresh's check, or fetched since |
| `ReleaseTags.Latest` | scripts/auto-tag.py:12-15 | no strictly spelled tag is above it, and it is one of them or zero |
| `ReleaseTags.NextTag` | scripts/auto-tag.py:12-15 | a new tag above every valid tag listed |
| `ReleaseTags.CreatedIsNewest` | scripts/auto-tag.py:35-54 | a tag that is made is the next patch of the newest valid tag the remote has then, above every other, and its commit had none |
| `ReleaseTags.StepKeepsInv` | scripts/auto-tag.py:35-54 | every step of any run keeps tags fixed and commits apart |
| `ReleaseTags.OneTagPerCommit` | scripts/auto-tag.py:35-54 | over all interleavings and retries, and however late a push lands, no tag changes commit, no commit gets two, tags rise |
| `ReleaseWorkflow.Repository.AutoTag` | scripts/auto-tag.py:35-54 | the loop is a run of the race and ends with a tag of its own commit, or after twenty pushes reported as failed |
| `ReleaseWorkflow.Repository.ChooseTag` | scripts/auto-tag.py:38-45 | the newest of the commit's own tags if it has any, else a reservation to try |
| `ReleaseWorkflow.Repository.PushTag` | scripts/auto-tag.py:45-54 | the push is reported as done only when the remote has the tag at this commit, else it counts as a failed one |
| `ReleaseWorkflow.Newest` | scripts/auto-tag.py:41-43 | the largest version among the commit's tags |
| `Board.BoardMarkersValid` | internal/api/linear_board.go:326-359 | the four marker constants satisfy what the proofs ask of a pair of markers |
| `Board.EscapeClean` | internal/api/linear_board.go:326-359 | an escaped text contains neither marker, whatever it was |
| `Board.EscapeOfClean` | internal/api/linear_board.go:358 | a text without a marker is not changed |
| `Board.EscapeFirst` | internal/api/linear_board.go:358 | else all before the first marker stands, its stand-in follows, and the rest is escaped alike |
| `Board.LinkedAfterTag` | internal/api/linear_board.go:228-231 | the task link stands right after the first tag and nothing else of the section changes; without a base URL or a tag nothing does |
| `Board.SectionClean` | internal/api/linear_board.go:228-235 | neither does the section with its task link put in |
| `Board.ReplaceAt` | internal/api/linear_board.go:306-324 | what a rewrite does to a description with one section, and when it refuses |
| `Board.ReplaceComposed` | internal/api/linear_board.go:306-324 | a rewrite changes nothing outside the section and is not refused |
| `Board.FirstRewrite` | internal/api/linear_board.go:306-324 | an accepted first rewrite puts the section between the text it found |
| `Board.AcceptedExactly` | internal/api/linear_board.go:306-324 | the descriptions accepted: no marker, or one start whose first end is followed by none |
| `Board.PutPut` | internal/api/linear_board.go:306-324 | a later rewrite overwrites an earlier one |
| `Board.RunsKeepOperatorText` | internal/api/linear_board.go:228-235 | over any run of rewrites and operator edits the operator's text stands around the newest section, none refused |
| `Discord.ClipRunes` | internal/api/decision_discord.go:265-274 | the length after the cut, the kept prefix and the mark |
| `Discord.DecisionDigestText` | internal/api/decision_discord.go:372-403 | a prefix of the requests and the count of the rest, as many as fit; within the limit exactly when header, link and the full count fit |
| `Discord.MoreLineShrinks` | internal/api/decision_discord.go:386-393 | the room a shorter count line gives back is bounded by the shortest request line |
| `DiscordLimits.LinkNamesRequest` | internal/api/decision_discord.go:291-304 | the links of two requests on one console differ |
| `Discord.OpenNotice` | internal/api/decision_discord.go:323-370 | an open request's message fits, and keeps its link exactly when all but the question fits |
| `Discord.NoticeShows` | internal/api/decision_discord.go:323-370 | when all but the question fits, an open request's message stands in order around the question, shown whole if it fits, else as much as there is room for |
| `Discord.ClosedNotice` | internal/api/decision_discord.go:328-363 | when a closed request's message fits, and exactly when its link survives |
| `Discord.AnnouncementFits` | internal/api/linear_decisions.go:200-222 | options and link always arrive; within the limit exactly when room is left for the question, which is shown whole if it fits and else cut to the room |
| `DiscordLimits.NoticesKeepLink` | internal/api/decision_discord.go:328-370 | under the store's limits every open or closed message fits and ends in its link, for any question and an address of at most 900 runes |
| `DiscordLimits.AnnouncementAlwaysFits` | internal/api/linear_decisions.go:200-222 | under the store's limits the announcement fits and ends in the issue's address |
| `DiscordLimits.DigestAlwaysFits` | internal/api/decision_discord.go:374-378 | header, link and full count of a digest always leave room under those limits |
| `DiscordLimits.ContextLength` | internal/api/decision_discord.go:306-321 | the source, lane and task of a stored record take at most 385 runes |
| `DiscordLimits.LongAddressLosesLink` | internal/api/decision_discord.go:322-370 | with an address as long as a message no open request's message keeps its link |
| `DiscordLimits.LongAddressOverflows` | internal/api/linear_decisions.go:200-222 | with an address as long as a message the announcement is over the limit |

## Left out

Assumptions of the protocol models:

- Linear admission: the gate is mutual exclusion and its lease writes are durable; hk is the only creator and nobody unarchives an issue; a reply to a create means the remote has decided that request.
- Linear admission: guards on a missing admission, an empty id or a task number below 1, and the 45-second timeout, are not modelled beyond "an operation may fail".
- Ask: the derivation of issue ids from request ids is an arbitrary injective function whose ids no other creator uses; validation of the input and the announcement and close operations queued with the link are left out.
- Hub: it dedupes on lane and event id and answers a duplicate with the existing row; nobody posts an outbox event id under another lane. The retry of a 401 with a re-read token is part of one post.
- Outbox: a failing listing of unsent rows ends a pass before anything changes and is not modelled.
- Release tags: only this workflow creates tags, and none is deleted. Two runs for one commit are allowed, though the workflow's concurrency group prevents them. The docs-only skip, the checks of the environment and the dispatch of the release workflow are left out.
- Key cache: the clock does not go back; the fetch itself, its status and JSON checks are one step that succeeds with some keys or fails.

Representation:

- Issue, event, key and task ids are numbers where only their identity matters; a lineage task id is a 64-bit integer.
- Integers are unbounded elsewhere: `time.Duration` overflow and Go's int width are not modelled.
- `Percentiles.Percentiles`: values are reals, the sort is an insertion sort on values instead of the library's in-place sort, and rounding to two decimals is left out, because rounding is not what the ranks are about.
- `Sentinel.ParseSentinelLog`: starts from parsed samples; for samples out of time order only the runs themselves are specified.
- `Waits.WaitTime`: for events out of time order only the accumulated overlaps are specified, since no replay in time is meant there.
- `SlotTruth.RangeHoldsExactly`: a machine's jobs are those of the snapshot; jobs whose directories were not read at all, and tasks that are not in it, are outside. The times that are recorded are taken as true, a gone sample as an end, and a job holds its slot once, from its first claim to its first recorded end.
- `SlotReport.CapAtIsLastInForce`: the timeline is taken in the order it has after the stable sort by start.
- `SlotWindow.BuildUnits`: the end of a job's tasks is a parameter, which `SlotTotals.EndsOfTasks` computes from the linked tasks; which tasks are linked is given, the link tiers are left out.
- `SlotReport.HeldRange`: sentinel lookups inside a unit's state use the function `StatusAt` is proved equal to.
- `Board.SectionClean`: the text renderBoard builds before escaping is an arbitrary string.
- `Discord.DecisionDigestText`: header, link, ages and contexts are arbitrary strings; `DiscordLimits.NoticesKeepLink` builds them from records whose rendered times take at most 20 runes and ages at most 16.
- `LeadTimeReport.MeasureTask`: the linked pull requests are given; the tiers that select them are left out.

Not modelled at all, mostly plumbing or easy members:

- rounds, decisions, the normal-path metric, coverage counts and their strings
- link tiers, repair tags, reading of job directories, logs, capability documents and deploy documents, regular expressions
- HTTP handlers, GraphQL queries, the JSON of requests and responses, error tables, CLI and rendering
- JWT, RSA and UUID derivation, and who may pass the Access verifier
- labels, comments and state changes of board issues
