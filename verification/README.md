# Verified model of the assembly execution, Connect outbox, balancing, queue and numbering code

A Dafny 4.11 project. `dafny verify dfyconfig.toml` checks all of it.

## What is modelled

- **One unit on its route** (`Execution`, `UnitRecord`): the event log, the unit's status, quality gates, rework
  orders and release decisions, as pure functions from record to record and as a class whose methods assign the
  fields in place and are proved to produce exactly those records. A refused operation leaves the record as it was.
  `Outcomes` states case by case what each operation answers and leaves, without the functions that compute it;
  `Finishing`, over `Pushing`, decides which units can still be finished.
- **Deliveries** (`Intake`, `FirstCopies`, `Settlement`): machine messages, terminal events and offline captures over
  many units.
- **The Connect outbox** (`Outbox`, `Connect`, `Flushing`): queueing, sending, flushing, reconciling and requeueing. The
  transport is an arbitrary success or failure at an arbitrary moment.
- **Balancing and measured times** (`Balancing` over `Moves`, `Capacity`, `Cycles`): the greedy redistribution, the capacity
  arithmetic in exact rationals, the one-pass pairing of starts with completions, and takt intervals.
- **Serials and the line queue** (`Serials`, `LineQueue`).
- **Document numbers** (`Numbering`, over `Lexical`): emission transactions interleaved statement by statement, each
  seeing the committed rows and its own, with the advisory lock held to the end of the transaction.

Rows refer to each other by position: a step by its position among the active steps of the route in sequence order, a
gate, a rework, a message or a queue item by its position in its table. Times are integers, "the latest event" is the
greatest by (time, key), and an event may claim any time unless a statement says otherwise.

## Main results

1. A blocked unit never moves (`HoldSafety.BlockedUnitNeverMoves`): in every reachable record with an unresolved
   blocking gate the unit is on hold or in rework and every station event is refused, REWORK_OUT and REWORK_IN
   included. The assumptions are only that a row, also a reinspection's, is not back-dated within its own step and that
   a passed or waived gate is not reviewed again; stations need not be distinct. Neither can be dropped: `HoldLimits`
   and `GatedDeadlock` give runs in which a back-dated completion, a back-dated reinspection and a second review really
   lose the hold, and `HoldLimits` states for every event, every reinspection and every second review exactly when the
   hold survives.
2. RELEASED is final exactly when the current step offers no rework move (`HoldLimits.ReleasedIsFinalExactlyWhenQuiet`).
3. Route order over all runs and at any claimed times (`RouteOrder`), and station histories as paths of the action
   automaton (`StationAutomaton`). Station events alone always lead an ungated route with distinct stations to its end
   (`Progress.NoDeadlock`). Which units can be finished at all is decided exactly (`Finishing`), for any route and any
   record that any run reaches, at any times and with any reviews, reworks and release decisions: a unit can be finished
   if and only if it is finished, or it is not stuck and every unfinished step is its station's first and, if gated,
   has at most one gate. Stuck is a released unit, or one on hold without any gate, that has no open rework and whose
   current step offers no rework move; a release rejected right after registration makes one. A gated route reaches
   both obstacles: a reinspection adds a second gate at a step not yet completed, after which no completion there is
   recorded (`GatedDeadlock.GatedRouteCanDeadlock`).
4. Deliveries (`Intake`, `FirstCopies`, `Settlement`): each (source, reference) has at most one event under every
   interleaving, and repeated deliveries change nothing. A machine message is PROCESSED exactly when its one event is on
   file and REJECTED exactly when none is, and a capture is SYNCED exactly when its one event is on file. Later copies of
   a settled machine message can be dropped from any interleaving with terminals, captures and operations. First copies
   alone decide every sequence of machine messages exactly when no unit can be worked on to a lookup that finds two gates
   or two reworks, a condition on the units' records.
5. The outbox delivers (`OutboxRetry`, `OutboxLoop`, `OutboxClosing`, `Flushing`): a flush serves the oldest waiting
   messages, each due one by exactly one call, and touches no other; attempts are bounded and spaced, flushes empty
   the queue, reconciliation is exact, and k rounds of reconcile, requeue and flush leave a gap of at most
   max(0, gap - 200k). Such rounds can bring the gap to zero exactly when no missing event is beyond recovery. All of it
   holds for contracts whose codes do not go on, after a colon, where another's ends, and for no others is every
   message made (`OutboxLoop.MessagesAreMadeExactlyWhenNoCodeExtends`).
6. The redistribution (`Balancing.BuildSimulation`) keeps its accounts and its order: sources and targets are served in
   station order, and amounts and order determine the whole list of moves (`Moves.RebalancingIsUnique`). The capacity
   figures (`Capacity`) and the pairing (`Cycles`) meet independent specifications.
7. The serial search ends because the format is injective, and splitting a batch changes nothing (`Serials`).
8. A move permutes the line as asked, is undone by moving back, and sequences stay distinct over all runs (`LineQueue`).
9. What recording, reviewing, reworking and releasing answer and leave is stated case by case (`Outcomes`): an event is
   recorded exactly when it may follow its step's latest event, the unit's status lets it through and its lookup finds
   one row at most; and with the last obstacle gone a unit is COMPLETED at the route's last step and IN_PROCESS before.
10. The codes committed in a year are exactly 1..n (`Numbering.CommittedCodesCountUp`), and every n up to 1,000,000 is
   reached (`Numbering.EveryCountIsReached`).

## Where the code does less than it promises

Each entry names the run that shows it and the exact condition.

- `station_event_issue_for` is documented to keep a unit from continuing during a hold. A completion or a reinspection
  claimed to have happened before the step's latest event leaves that event the latest, so the unit can leave through
  REWORK_OUT and REWORK_IN with its gate pending (`HoldLimits.BackdatedCompletionLosesHold`,
  `HoldLimits.BackdatedReinspectionLosesHold`; exactly when: `HoldLimits.HoldSurvivesExactlyWhenInOrder`,
  `HoldLimits.ReinspectionKeepsHoldExactlyWhenInOrder`). A second review that fails a passed gate does not hold a unit at
  work (`GatedDeadlock.SecondReviewLosesHold`, `HoldLimits.RereviewKeepsHoldExactlyWhenQuiet`).
- A completion at a gated step that also has a reinspection gate always fails, and a release rejected before any event
  leaves a unit no event can move (`GatedDeadlock.GatedRouteCanDeadlock`, `Finishing.RejectedAtRegistrationIsStuck`;
  exactly when a unit or a step can be finished: `Finishing.RouteFinishesExactlyWhen`,
  `Finishing.StepFinishesExactlyWhen`).
- `process_equipment_event` is documented to create its event once. A lookup that finds two gates or two reworks raises
  an error it does not catch, the message row is rolled back with it, and the same message is taken up again
  (`FirstCopies.FailingLookupIsReachable`, `FirstCopies.CopiesCountExactlyWhenLookupFails`).
- `queue_from_event` joins contract code and event key with a colon. Where one code goes on, after a colon, where
  another ends, two contracts can claim one key and the second message is never made (`OutboxLoop.ColonLosesAMessage`,
  `OutboxLoop.MessagesAreMadeExactlyWhenNoCodeExtends`).
- `requeue_missing` does not bring back a discarded message (`OutboxClosing.LostEventIsReached`,
  `OutboxLoop.RequeueSendsExactlyTheRecoverable`).
- Codes are read back in text order, so after the 1,000,000th code of a year every further emission fails
  (`Numbering.ExhaustionIsReached`, `Numbering.EmissionFailsExactlyWhenExhausted`).

## Model

| member | source | states |
|---|---|---|
| `HoldSafety.BlockedUnitNeverMoves` | assembly/services.py:77-94 | over every run from registration, a unit with an unresolved blocking gate is in QUALITY_HOLD or REWORK and every station event is refused |
| `HoldSafety.RunKeepsSound` | assembly/services.py:339-381 | the inductive invariant behind the hold survives every run of events, reviews, rework actions and release decisions |
| `HoldSafety.StepKeepsSound` | assembly/models.py:2421-2451 | one operation keeps the invariant, whoever of the several writers assigns the status |
| `HoldSafety.BlockedUnitRefusesEveryEvent` | assembly/services.py:87-93 | under the invariant a blocked unit is on hold and the recorder refuses every event, rework moves included |
| `HoldSafety.RecordKeepsSound` | assembly/services.py:106-162 | an accepted event keeps the invariant, REWORK_IN included although it sets IN_PROCESS without looking at gates |
| `HoldSafety.ReviewKeepsSound` | assembly/services.py:206-263 | a first review of a gate keeps the invariant for all three verdicts |
| `HoldSafety.ReinspectionKeepsSound` | assembly/models.py:2557-2605 | sending a rework to reinspection keeps the invariant, whichever step it reopens |
| `HoldSafety.ManagementKeepsSound` | assembly/models.py:2607-2633 | the guarded rework actions keep the invariant |
| `HoldSafety.DecisionKeepsSound` | assembly/models.py:2690-2700 | release decisions keep the invariant |
| `HoldSafety.AcceptedRequestWrites` | assembly/services.py:139-161 | an accepted event writes one row on the current step, of an action on offer there, and opens at most one gate or one rework |
| `HoldSafety.CurrentAfterRow` | assembly/services.py:62-74 | after a row in time order the current step is unchanged, or later when the row is a completion |
| `HoldLimits.HoldSurvivesExactlyWhenInOrder` | assembly/services.py:147-161 | after an accepted event at any claimed time, a blocked unit refuses every event if and only if the event did not back-date the completion that opened the step's first gate |
| `HoldLimits.HeldUnitRefusesExactlyWhenQuiet` | assembly/services.py:77-94 | a held or released unit refuses every event if and only if its current step offers no rework move |
| `HoldLimits.ReworkMoveIsAccepted` | assembly/services.py:87-94 | a rework move on offer is recorded whatever the unit's status |
| `HoldLimits.BackdatedCompletionIsHeld` | assembly/services.py:342-356 | concrete run: a back-dated completion of a gated step leaves the unit held with its gate pending |
| `HoldLimits.BackdatedCompletionLetsReworkOut` | assembly/services.py:49-50 | concrete run: that held unit then accepts REWORK_OUT |
| `HoldLimits.BackdatedCompletionLosesHold` | assembly/services.py:340-341 | concrete run: and REWORK_IN returns it to IN_PROCESS with the gate still pending |
| `HoldLimits.ReinspectionKeepsHoldExactlyWhenInOrder` | assembly/models.py:2557-2605 | a rework sent to reinspection at any claimed time puts its unit on hold, and the unit then refuses every event if and only if the row is not earlier than its step's latest event or the current step offers no rework move |
| `HoldLimits.ReworkOutAheadOfTime` | assembly/services.py:369-379 | concrete run: a started unit goes out for rework with an event that claims a time to come |
| `HoldLimits.ReinspectionBeforeReworkOut` | assembly/models.py:2572-2605 | concrete run: that rework is reinspected before the claimed time, and the unit is held with its gate pending |
| `HoldLimits.BackdatedReinspectionLosesHold` | assembly/services.py:87-94 | concrete run: REWORK_IN is then accepted and returns the unit to IN_PROCESS with the gate still pending |
| `HoldLimits.RereviewKeepsHoldExactlyWhenQuiet` | assembly/models.py:2424-2429 | failing an already resolved gate blocks the unit, and the hold is kept if and only if the current step offers no rework move |
| `HoldLimits.ReleasedIsFinalExactlyWhenQuiet` | assembly/models.py:2690-2700 | a released unit stays RELEASED over every run, at any times and with any reviews, if and only if its current step offers no rework move |
| `HoldLimits.SealedRunStaysSealed` | assembly/models.py:2421-2423 | a released unit with nothing open and no rework move on offer stays so over every run |
| `HoldLimits.ReleaseOfFinishedRouteIsFinal` | assembly/models.py:2667-2700 | a unit released with every active step completed is never taken out of RELEASED |
| `RouteOrder.RecorderFollowsRoute` | assembly/services.py:62-86 | over all station events at any times, finished steps are a prefix of the route, later steps have no rows, and the current step never goes back |
| `RouteOrder.EventsAreWrittenInRouteOrder` | assembly/services.py:139-144 | over all runs with reworks at any times, each recorded row was written when every earlier step's latest event was COMPLETED, and each reinspection on a step already worked |
| `StationAutomaton.StationHistoriesAreLawful` | assembly/services.py:46-59 | over every run on time each station's history is a path of the explicit relation of turns with reinspection re-entries, completed at most once more than it was sent to reinspection |
| `StationAutomaton.CompletionsArePaidFor` | assembly/models.py:2572-2586 | on any such path, completions are at most the reinspections plus one if the last event is a completion |
| `Progress.StatusFollowsLastEvent` | assembly/services.py:339-364 | on an ungated route the unit's status is a function of the last accepted event |
| `Progress.NoDeadlock` | assembly/services.py:46-94 | on an ungated route with distinct stations, from every record that station events on time reach with r unfinished steps, at most 2r + 2 accepted station events finish the route |
| `Progress.RepeatedStationIsNeverReached` | assembly/services.py:38-38 | a second step at a station never gets a row in any run |
| `Progress.TwiceGatedStepNeverCompletes` | assembly/services.py:343-355 | the obstacle of a gated step: unfinished with two gates, it is never completed again by any run |
| `GatedDeadlock.GatedRouteCanDeadlock` | assembly/models.py:2557-2571 | an admissible run reaches a record from which no run whatever completes the step |
| `GatedDeadlock.SecondReviewLosesHold` | assembly/models.py:2421-2451 | concrete run: after a second review fails a passed gate of a unit at work, the unit is blocked and held, and a station event is still recorded |
| `Finishing.RouteFinishesExactlyWhen` | assembly/services.py:77-94 | from any record of the invariant every run keeps, some run of any operations finishes the route if and only if it is finished, or the unit is not stuck and every unfinished step is its station's first and, if gated, has at most one gate |
| `Finishing.StepFinishesExactlyWhen` | assembly/services.py:339-381 | the same for a single step: it can be completed if and only if it is, or the unit is not stuck and the way up to and including the step is clear |
| `Finishing.ReachedUnitFinishesExactlyWhen` | assembly/services.py:62-94 | the condition decides every record that any run from registration reaches, at any times, with any reviews, reworks and release decisions |
| `Finishing.FinishableExactlyWhenStationsDistinct` | assembly/services.py:38-39 | any route, gated or not, can be finished from registration if and only if no station serves two of its steps |
| `Finishing.FirstStepsFinishExactlyWhen` | assembly/services.py:62-74 | the same condition for the first steps of the route, up to any number of them |
| `Finishing.RejectedAtRegistrationIsStuck` | assembly/models.py:2690-2700 | after a release rejected at registration no run ever writes an event |
| `Finishing.StuckRunStaysStuck` | assembly/models.py:2421-2451 | a stuck unit gets no further row in any run |
| `Finishing.ImpassableStepStaysUnfinished` | assembly/services.py:342-356 | a step that is not its station's first, or whose gate lookup finds two rows, is not completed by any run |
| `Finishing.TakeOffHold` | assembly/models.py:2536-2555 | closing every rework and then passing every gate takes a unit that has either off its hold |
| `Finishing.RunKeepsStanding` | assembly/services.py:106-162 | the invariant behind these results survives every run, at any times and with any reviews |
| `Pushing.PushIsRecorded` | assembly/services.py:46-94 | at a current step worked from its own station, the next event on offer is recorded if and only if its lookup of the gate or rework finds at most one row |
| `Pushing.PushShortens` | assembly/services.py:339-381 | every such event leaves less work ahead of the unit |
| `EventLog.LatestIsFirstByTimeAndKey` | assembly/services.py:42-43 | the latest event is the row a descending sort by time and then key puts first |
| `EventLog.FirstPendingIsUnique` | assembly/services.py:70-74 | the scan's step is the only one with all earlier steps finished and itself unfinished |
| `EventLog.StationAndStepHistoriesAgree` | assembly/services.py:142-145 | the check by station and the check by step read the same rows |
| `EventLog.RowInOrder` | assembly/services.py:71-71 | a row in time order becomes its step's latest event and changes no other step |
| `Execution.StepFor` | assembly/services.py:38-39 | the first step at the station, or none when no step works there |
| `Execution.FirstPending` | assembly/services.py:70-74 | the first step whose latest event is not COMPLETED |
| `Outcomes.EventIsRecordedExactlyWhen` | assembly/services.py:46-94 | a request at a routed station is recorded if and only if it is cleared, its step is the first unfinished one, the event may follow the step's latest event by an explicit relation, hold, rework and release let only rework moves through, and the gate or rework lookup finds at most one row |
| `Outcomes.ActionsAreTheTurns` | assembly/services.py:46-59 | the actions on offer are those that may follow the latest event, told from the event that comes next |
| `Outcomes.RefusalNamesTheObstacle` | assembly/services.py:77-94 | each refusal is given exactly when its obstacle is the first that stands in the way |
| `Outcomes.UnroutedStationIsRefused` | assembly/services.py:38-39 | a station no step works at is refused |
| `Outcomes.RecordedEventLeaves` | assembly/services.py:339-381 | a recorded event leaves its row, one gate when a gated completion finds none, one rework when REWORK_OUT finds none of its defect, and the status its kind calls for |
| `Outcomes.ReviewAnswers` | assembly/services.py:220-228 | a review is accepted if and only if it has a verdict, evidence, notes unless it passes, and a gate, and refused for the first it lacks |
| `Outcomes.ReviewLeaves` | assembly/models.py:2421-2451 | the verdict changes its gate alone; reworks still open that name the gate are closed, or back in progress after FAILED; with an obstacle left the status stays, with none it is COMPLETED at the route's last step and IN_PROCESS before; after FAILED it is REWORK if and only if an open rework names the gate, and QUALITY_HOLD otherwise |
| `Outcomes.ResolveSettles` | assembly/models.py:2536-2555 | after a rework is settled the status is QUALITY_HOLD with an unresolved blocking gate, REWORK with an open rework, and otherwise COMPLETED at the route's last step and IN_PROCESS before |
| `Outcomes.ActionAnswers` | assembly/views.py:3278-3285 | start, reinspection, closing and cancelling are each accepted in exactly the statuses that offer them |
| `Outcomes.ActionLeaves` | assembly/models.py:2557-2633 | after an action its rework is IN_PROGRESS, QA_REVIEW, CLOSED or CANCELLED, every other rework is as it was, and gate, row and unit status follow |
| `Outcomes.DecisionLeaves` | assembly/models.py:2667-2700 | an approval releases exactly a documented unit with nothing left against it, a rejection holds any unit not released, and nothing else changes |
| `UnitRecord.Unit.FindCurrentStep` | assembly/services.py:62-74 | the scan returns the current step, or none when all are finished |
| `UnitRecord.Unit.FindEventIssue` | assembly/services.py:77-94 | the decision whether an event may be recorded, with its reason |
| `UnitRecord.Unit.RecordStationEvent` | assembly/services.py:139-162 | the new record is the one the step function gives, and a refusal, also one found after the row was written, changes nothing |
| `UnitRecord.Unit.ApplyStationEvent` | assembly/services.py:339-381 | status, gate and rework effects of an event, or the lookup error |
| `UnitRecord.Unit.SyncReinspectionReworks` | assembly/models.py:2388-2412 | every live rework the gate reinspects follows its verdict and no other changes |
| `UnitRecord.Unit.ReviewQualityGate` | assembly/services.py:220-263 | the reviewed record, or a refusal that changes nothing |
| `UnitRecord.Unit.ApplyResult` | assembly/models.py:2421-2451 | a verdict's effect on reworks and status, the status also told by what is left and by the gate's place in the route |
| `UnitRecord.Unit.ManageReworkOrder` | assembly/views.py:3278-3285 | an action is refused exactly when its status does not offer it, and otherwise has its effect |
| `UnitRecord.Unit.SendToQualityReview` | assembly/models.py:2557-2605 | gate, row, rework and status written by a reinspection |
| `UnitRecord.Unit.RefreshAfterResolution` | assembly/models.py:2536-2555 | status after a rework is closed or cancelled, told by what is left and by the rework's place in the route |
| `UnitRecord.Unit.ApplyDecision` | assembly/models.py:2690-2700 | status after a release decision, or the refusal of an approval |
| `Intake.ReferencesStayUnique` | assembly/services.py:121-127 | under every interleaving of deliveries and operations each (source, reference) has at most one event |
| `Intake.TerminalRedeliveryIsIdle` | assembly/services.py:121-127 | once a referenced terminal event is on file, a later delivery of it changes nothing, whatever came between |
| `Intake.CaptureRedeliveryIsIdle` | assembly/models.py:1854-1879 | once an offline capture's event is on file, syncing it again touches no unit |
| `Intake.AcceptedTerminalEventIsFiled` | assembly/services.py:147-162 | an accepted delivery with a reference is on file afterwards |
| `Intake.RejectedDeliveryTouchesNoUnit` | assembly/services.py:465-467 | a rejected machine, terminal or offline delivery adds no event and changes no unit |
| `FirstCopies.FirstCopiesSuffice` | assembly/services.py:386-402 | any interleaving of machine messages with terminals, captures and operations gives the world that the first copy of each machine message gives, when no machine message raises |
| `FirstCopies.FirstCopiesSufficeExactlyWhenNothingFails` | assembly/services.py:386-402 | first copies suffice for every interleaving if and only if no deliveries lead to a world where an unknown message passes every check and its lookup finds two rows |
| `FirstCopies.SafeLookupsSettle` | assembly/services.py:343-379 | while no unit has two gates at a step or two reworks of one code there, no machine delivery raises |
| `FirstCopies.CopiesCountExactlyWhenLookupFails` | assembly/services.py:404-467 | some copy of a delivered message still has an effect if and only if, before the delivery, its identifier was unknown and its event passed every check while its gate or rework lookup found two rows |
| `FirstCopies.RaisesExactlyWhenLookupFails` | assembly/services.py:343-379 | recording raises an error the machine service does not catch if and only if the event passes every check and the lookup it needs finds two rows |
| `FirstCopies.SettledCopiesCanBeDropped` | assembly/services.py:386-402 | from any interleaving, the copies of machine messages already settled can be left out, even when other messages raise |
| `FirstCopies.FirstCopiesSufficeExactlyWhenNoneCanFail` | assembly/services.py:384-467 | for units on their routes, first copies suffice for every sequence of machine messages if and only if no unit's record lets machine events work one step after another up to a step with two gates, or two reworks of one code |
| `FirstCopies.ReachedWorldNeedsFirstCopiesExactlyWhen` | assembly/services.py:384-467 | the same condition decides every world that any deliveries and operations reach from newly registered units |
| `FirstCopies.FailingLookupIsReachable` | assembly/services.py:343-379 | concrete deliveries reach a unit whose completion, delivered twice by a machine, leaves no trace either time although it is not rejected |
| `Intake.DeliveriesGrow` | assembly/services.py:386-402 | deliveries only extend the units' logs and the table of machine messages |
| `Settlement.RowsTellWhatIsOnFile` | assembly/services.py:463-467 | over every interleaving from a world without message rows and synced captures, a message is PROCESSED if and only if exactly one event of its is on file and REJECTED if and only if none is; a capture is SYNCED if and only if exactly one is, and none is otherwise |
| `Settlement.MessageAddsEventExactlyWhenProcessed` | assembly/services.py:386-467 | a new message changes a unit if and only if it settles as PROCESSED, and then adds exactly its own event |
| `Settlement.CaptureSettlesByAnswer` | assembly/models.py:1854-1886 | a capture not synced, refused before or not, is tried again and settles by the answer |
| `Settlement.DeliveriesTell` | assembly/models.py:1854-1886 | the invariant behind this survives every interleaving |
| `Intake.IntakeDesk.RecordStationEvent` | assembly/services.py:120-162 | the terminal service leaves the world the delivery function describes |
| `Intake.IntakeDesk.ProcessEquipmentEvent` | assembly/services.py:384-467 | the machine service does too, an uncaught error taking the message row back |
| `Intake.IntakeDesk.Sync` | assembly/models.py:1854-1886 | so does the offline sync |
| `Release.CleanApproval` | assembly/models.py:2667-2688 | an approval is accepted if and only if no rework is open, every blocking gate is passed or waived, every active requirement is satisfied and every required parameter's latest measurement is conclusive; else the first refusal in the code's order |
| `Release.AsBuiltIssues` | assembly/models.py:445-481 | the issues listed are exactly the missing quantities and the untraceable pieces, and none exactly when every requirement is satisfied |
| `Release.MeasurementIssues` | assembly/models.py:496-514 | a parameter is listed exactly when it has no measurement or its latest is FAIL or PENDING |
| `Release.LatestMeasurement` | assembly/models.py:500-509 | the last related measurement by time and key |
| `Release.NewMeasurementDecides` | assembly/models.py:500-509 | a measurement no earlier than all others becomes the parameter's latest if and only if it names the parameter, or its step and code |
| `Release.SatisfiedStaysSatisfied` | assembly/services.py:165-203 | a satisfied requirement stays satisfied under any sequence of installations |
| `Release.InstallationCounts` | assembly/services.py:165-203 | an installation of an active requirement with a positive quantity and the numbers asked for adds its row and raises the installed quantity of its step and part by its own and no other; any other is refused |
| `Release.InstallingKeepsApproval` | assembly/services.py:165-203 | installations never turn an acceptable approval down |
| `OutboxLoop.KeyNamesContractAndEvent` | connect/services.py:51-56 | while no speaking contract's code goes on, after a colon, where another's ends, a key is taken exactly by the message of its contract and event |
| `OutboxLoop.ColonLosesAMessage` | connect/services.py:51-56 | concrete input: with a colon in a code a second contract's message is never made |
| `OutboxLoop.OneMessagePerContractAndEvent` | connect/services.py:40-68 | under that condition, over every run, there is at most one message per contract and event, and queueing an event reaches every listening contract |
| `OutboxLoop.MessagesAreMadeExactlyWhenNoCodeExtends` | connect/services.py:40-68 | over all runs and events, queueing makes the message of every listening contract if and only if no speaking contract's code goes on, after a colon, where another's ends |
| `OutboxLoop.ExtendedCodeLosesAMessage` | connect/services.py:51-56 | where one code goes on so, two events exist of which the second's message is never made |
| `OutboxLoop.QueueCoversContracts` | connect/services.py:47-67 | queueing adds only new messages of the event and covers every listening contract |
| `OutboxLoop.RequeueCoversEvents` | connect/services.py:221-229 | requeueing adds only new messages of the listed events and covers each of them |
| `OutboxLoop.NewMessageExactlyWhenCarried` | connect/services.py:40-68 | queueing makes a new message for a contract if and only if contract and connector are active and outgoing and the contract covers the event's type |
| `OutboxLoop.NewMessagesFollowTheContracts` | connect/services.py:47-67 | the messages queueing adds stand in the order of their contracts |
| `OutboxLoop.ReconciliationIsExact` | connect/services.py:179-218 | the gap is the number of expected events without a SENT message, and a run is clean if and only if none is missing and no expected event's message failed or was discarded |
| `OutboxLoop.FiguresCount` | connect/services.py:198-213 | each figure of a run as a number of events or messages |
| `OutboxLoop.ExpectedAreCovered` | connect/services.py:185-196 | an event is expected if and only if an active outbound contract of the connector covers its type and its day is in the period |
| `OutboxLoop.ListedKeys` | connect/services.py:214-214 | the missing list holds the least 200 missing keys, or all of them |
| `OutboxLoop.ListedAreLeast` | connect/services.py:214-214 | the missing list holds min(200, missing) distinct missing keys, each before every missing key not listed |
| `OutboxLoop.RequeueSendsExactlyTheRecoverable` | connect/services.py:221-229 | after requeue and successful flushes to empty, a listed unsent event is sent if and only if one of its messages is not discarded or a listening contract had none |
| `OutboxLoop.RoundShrinksGap` | connect/services.py:179-229 | one successful round lowers the gap by 200, or to 0 |
| `OutboxLoop.UndiscardedIsRecoverable` | connect/services.py:47-67 | with an active sending connector and no discarded message of an expected event, nothing missing is beyond recovery |
| `OutboxLoop.LoopCloses` | connect/services.py:179-229 | from any reachable outbox with no missing event beyond recovery, k successful rounds leave a gap of at most max(0, gap - 200k) |
| `OutboxClosing.OneFlushEmpties` | connect/services.py:122-139 | a flush late enough whose sends succeed leaves nothing live |
| `OutboxClosing.LoopCanClose` | connect/services.py:179-229 | from such an outbox successful rounds exist, no more than the gap divided by 200 and rounded up, that bring the gap to zero |
| `OutboxClosing.LostStaysLost` | connect/services.py:221-229 | a missing event beyond recovery is missing after any number of successful rounds |
| `OutboxClosing.LostEventIsReached` | connect/services.py:93-119 | concrete run: after one failed send of a connector with one attempt, an expected event is missing and beyond recovery |
| `OutboxClosing.LoopCanCloseExactlyWhenRecoverable` | connect/services.py:179-229 | successful rounds can bring a reachable outbox's gap to zero if and only if no missing event is beyond recovery |
| `OutboxRetry.AttemptsAreBounded` | connect/services.py:93-119 | over every run a message has at most max(1, max_attempts) attempts, one transport call each, and exactly one successful call if it is SENT and none otherwise |
| `OutboxRetry.SettledStaysSettled` | connect/services.py:95-98 | a SENT or DISCARDED message never changes again and is never sent again |
| `OutboxRetry.AttemptsAreSpaced` | connect/models.py:112-113 | under flushing, attempt n comes at least backoff * n(n - 1) / 2 seconds after the first |
| `OutboxRetry.FlushSpendsWhatItCounts` | connect/services.py:122-139 | a flush lowers the summed remaining attempts by exactly sent + failed |
| `OutboxRetry.DueFlushSpends` | connect/services.py:131-139 | when all live messages are due, a flush counts every message it selects, and at least one if any is live |
| `OutboxRetry.FlushesEmptyTheQueue` | connect/services.py:122-139 | as many due flushes as attempts remain leave no live message, whatever the transport answers |
| `Flushing.FlushServesTheOldest` | connect/services.py:122-139 | a flush of a reachable outbox visits the oldest min(limit, waiting) messages of the connector, calls each due one exactly once in order and no other, changes each by its one attempt and no other, and counts its calls |
| `Flushing.OldestAreSelected` | connect/services.py:124-131 | the selection holds min(limit, waiting) waiting messages in order, and every waiting one left out comes after all of them |
| `Flushing.AttemptLeaves` | connect/services.py:93-119 | an attempt is SENT if the call succeeds, DISCARDED if it fails with the budget used up, and FAILED otherwise with the next attempt backoff times attempts after it ended |
| `Flushing.SendAnswers` | connect/services.py:95-98 | a message is attempted if and only if it is queued or failed, and refused for being sent or discarded otherwise |
| `Flushing.SpacingIsAttained` | connect/models.py:112-113 | retried at once whenever due, attempt n + 1 comes exactly backoff * (1 + ... + n) after the first, and the last failure discards |
| `Connect.Render` | connect/models.py:170-179 | over payload values of any kind, the body is the fixed fields overlaid by each mapped field read from its source, or by the whole payload when nothing is mapped |
| `Connect.ConnectOutbox.QueueFromEvent` | connect/services.py:40-68 | the table after queueing is the one the queueing function gives |
| `Connect.ConnectOutbox.SendMessage` | connect/services.py:93-119 | one attempt's effect on status, attempts and next time, or the refusal for a settled message |
| `Connect.ConnectOutbox.FlushOutbound` | connect/services.py:122-139 | the table and the counters after a flush |
| `Connect.ConnectOutbox.ReconcileConnector` | connect/services.py:179-218 | the run's gap is the number of expected events without a SENT message, its missing list holds the least 200 of them in distinct keys, its queued and failed figures count the expected events' messages QUEUED and FAILED or DISCARDED, and it is clean if and only if none is missing and none failed or was discarded |
| `Connect.ConnectOutbox.RequeueMissing` | connect/services.py:221-229 | the table after requeueing the listed keys |
| `Balancing.BuildSimulation` | assembly/balancing.py:92-149 | each station gives away exactly its excess, none is lifted above the takt, moves are positive and come in order of source and then of target, a move passes a station only when that has received its whole slack, and extra capacity comes last; in sum station-to-station seconds total min(excess, slack), extra capacity max(0, excess - slack), and station-to-station moves number at most over + under - 1 |
| `Moves.RebalancingIsUnique` | assembly/balancing.py:115-149 | exact accounts, order and filling targets first determine the whole list of moves |
| `Moves.NextMoveIsSame` | assembly/balancing.py:117-136 | after equal beginnings the next move is the same: from the first source with excess left to the first target with room, as many seconds as both allow |
| `Balancing.Redistribute` | assembly/balancing.py:115-149 | the same account and order for any lists of over- and underloaded stations |
| `Balancing.PlaceSource` | assembly/balancing.py:117-136 | placing one source keeps the running accounts and the order of the moves, and work is left over only when every slack is used up |
| `Balancing.ListedExactlyWhenPositive` | assembly/balancing.py:96-113 | a station is listed exactly when it is over, or under, the takt, and with that amount |
| `Capacity.AccumulateSteps` | assembly/balancing.py:213-230 | each station's seconds are the sum of its steps, and the pass fails exactly when a step's station has no row |
| `Capacity.StationLoadsSumToTotal` | assembly/balancing.py:213-221 | station loads sum to the total of the steps |
| `Capacity.CapacityIsTheLeast` | assembly/balancing.py:286-286 | line capacity per shift is the least of the working stations' capacities |
| `Capacity.EfficiencyIsFullExactlyWhenLevel` | assembly/balancing.py:277-285 | efficiency is at most 100 percent, and 100 if and only if all stations carry the same seconds |
| `Capacity.GapExactlyWhenOverloaded` | assembly/balancing.py:314-316 | a positive demand gap is reported if and only if some station's load exceeds 100 percent |
| `Capacity.GapShowsABottleneck` | assembly/balancing.py:78-89 | with a gap some station shows as BOTTLENECK, whatever was measured |
| `Capacity.GapFillsTheDemand` | assembly/balancing.py:314-316 | a positive gap and the capacity add up to the planned units, and there is no gap otherwise |
| `Capacity.CapacityFillsTheShift` | assembly/balancing.py:286-286 | the shift holds the capacity's units and not one more |
| `Capacity.StatusNamesTheCause` | assembly/balancing.py:78-89 | a station is a BOTTLENECK if and only if its load exceeds 100 percent or its standard, measured cycle or takt exceeds a given target, and UNDERLOADED if and only if not so and its work is under three quarters of the target |
| `Capacity.EfficiencyIsTheShare` | assembly/balancing.py:281-285 | efficiency is 100 times the work over the stations' time at the line's pace, and absent exactly without work |
| `Cycles.MeasuredTimes` | assembly/balancing.py:48-60 | the single pass tabulates exactly the cycle times and completion times of the specification |
| `Cycles.CompletionTimesAreTheStations` | assembly/balancing.py:48-60 | a station's completion times are those of the completions there, each once and in row order |
| `Cycles.CycleTimesAreTheStations` | assembly/balancing.py:55-60 | its cycle times are those of the rows there that yield one, each once and in row order |
| `Cycles.PartnerIsTheOneThatPairs` | assembly/balancing.py:51-60 | a completion's partner is the last start of its unit and step with no start or completion between, and unique |
| `Cycles.CycleIsTheTimeSinceItsStart` | assembly/balancing.py:51-60 | a row yields a cycle if and only if it is a completion not earlier than the start it pairs with, and then the time between |
| `Cycles.RecordedCompletionsPair` | assembly/balancing.py:55-60 | in every history the recorder writes on time, each completion is paired with the event just before it |
| `Cycles.RecordedCompletionsYieldCycles` | assembly/metrics.py:41-50 | wherever a report lists such a history, every completion yields a cycle equal to the time since the preceding event |
| `Cycles.BlockKeepsPartner` | assembly/metrics.py:43-48 | rows of other work do not change a completion's partner |
| `Cycles.IntervalsTelescope` | assembly/balancing.py:65-69 | intervals of chronological times number one less than the times and sum to last minus first |
| `Cycles.IntervalsAreTheStepsForward` | assembly/metrics.py:77-82 | of times in any order, intervals and falls together number the steps, and intervals less falls sum to last minus first |
| `Cycles.StudyTaktIsSpanOverCount` | assembly/balancing.py:63-73 | the study's takt is (last - first) / (n - 1) |
| `Cycles.ReportAgreesWhenChronological` | assembly/metrics.py:77-85 | the unsorted version agrees when the completions come in time order |
| `Cycles.ReportTaktCountsFalls` | assembly/metrics.py:77-85 | the report's takt for rows in any order: last minus first plus all falls, over the number of steps that are not falls |
| `Cycles.SortedIsChronological` | assembly/balancing.py:64-64 | sorted times are chronological |
| `Cycles.CompletedUnits` | assembly/metrics.py:112-122 | a unit is counted on a line if and only if a completion there is of the active step with its route's greatest sequence |
| `Cycles.CountedUnitFinishedItsRoute` | assembly/metrics.py:119-122 | a recorded completion of the last step found every earlier step finished |
| `Serials.UnitTable.GenerateSerializedUnits` | assembly/models.py:675-702 | on a refusal nothing changes; otherwise the units created carry the first free numbers from linked + 1 upward, all serials stay distinct, and the plan's linked quantity grows by the quantity to at most the target |
| `Serials.UnitTable.CreateUnits` | assembly/models.py:684-702 | the search ends and finds the first free numbers |
| `Serials.TakenLeavesFewerAhead` | assembly/models.py:686-690 | every taken number tried leaves strictly fewer existing serials ahead |
| `Serials.SerialIsInjective` | assembly/models.py:687-687 | the padded format never gives two numbers one serial |
| `Serials.PrefixIsAsked` | assembly/models.py:683-683 | serials carry the prefix asked for, or the plan's code when none is, without the white space around it |
| `Serials.SerialShape` | assembly/models.py:687-687 | a serial is its prefix, a dash and the number in at least four digits, exactly four up to 9999 |
| `Serials.GenerationAnswers` | assembly/models.py:675-681 | a request is accepted if and only if the plan is open, the quantity positive and within the plan's balance, and refused for the first of these |
| `Serials.LinkedCounts` | assembly/models.py:611-618 | the linked quantity is the number of the plan's rows |
| `Serials.FirstFreeIsUnique` | assembly/models.py:684-690 | being the first free numbers determines them |
| `Serials.BatchesAddUp` | assembly/models.py:685-690 | two batches in a row create what one batch of both sizes creates |
| `LineQueue.MoveReordersTheLine` | assembly/models.py:1018-1032 | a move takes the item out of the line's order and puts it at min(position, n), numbers the line 1..n and leaves every other row alone |
| `LineQueue.MoveWritesOnlyNewNumbers` | assembly/models.py:1030-1032 | a row is stamped if and only if its number changed, and nothing else of it changes |
| `LineQueue.MovingBackRestoresTheOrder` | assembly/models.py:1007-1032 | moving back to the old position restores the order |
| `LineQueue.StayingPutIsIdleExactlyWhenCompact` | assembly/models.py:1030-1032 | moving an item to its own position writes nothing if and only if the line is already numbered 1..n |
| `LineQueue.OrderIsUnique` | assembly/models.py:1020-1024 | the order by sequence and key is determined by the items listed |
| `LineQueue.QueueingAppends` | assembly/models.py:962-990 | queueing a plan gives each of its units exactly one item, keeps all rows and appends the new items to the line's order |
| `LineQueue.QueueingAnswers` | assembly/models.py:964-971 | only plans released or in execution, with a route and with units, are queued |
| `LineQueue.NewItemsFollowThePlan` | assembly/models.py:972-989 | the rows added are queued items for the plan's units in their order, numbered on from the last sequence |
| `LineQueue.QueueingAgainIsIdle` | assembly/models.py:973-975 | queueing a plan whose units have items adds nothing |
| `LineQueue.RunKeepsSane` | assembly/models.py:962-1032 | over every run of queueing, moving and guarded status changes, movable sequences on a line stay distinct and units have at most one item |
| `LineQueue.RevivalIsSafeExactlyWhenNumberIsFree` | assembly/models.py:1052-1062 | without the guard, making a finished item movable keeps sequences distinct if and only if no movable item of the line has its number |
| `LineQueue.StatusChangeKeepsTheOrder` | assembly/models.py:1052-1062 | cancelling removes the item from the order, and holding or readying changes no order |
| `LineQueue.ActionAnswers` | assembly/views.py:1409-1442 | an action is refused on finished items, a move also below position 1; ready, hold and cancel write READY, HOLD and CANCELLED and nothing else but the stamp |
| `LineQueue.QueueTable.CreateFromPlan` | assembly/models.py:962-990 | the table after queueing a plan and the keys created, or the refusal |
| `LineQueue.QueueTable.Resequence` | assembly/models.py:1007-1034 | the table after a move, or the refusal |
| `LineQueue.QueueTable.WriteNumbers` | assembly/models.py:1030-1032 | the loop writes exactly the differing numbers |
| `LineQueue.QueueTable.TakeAction` | assembly/views.py:1409-1442 | an action is refused on finished items; ready, hold and cancel leave READY, HOLD and CANCELLED, and a move renumbers |
| `Numbering.CommittedCodesCountUp` | core/pdf_utils.py:131-159 | under every interleaving with aborts the codes committed in a year are distinct and exactly 1..n in order |
| `Numbering.EveryCountIsReached` | core/pdf_utils.py:131-159 | for every n up to 1,000,000 some interleaving commits exactly n codes of the year |
| `Numbering.EmissionFailsExactlyWhenExhausted` | core/pdf_utils.py:146-149 | an insert meets a taken code if and only if the year has used 1,000,000 codes |
| `Numbering.ExhaustionIsReached` | core/pdf_utils.py:146-149 | some interleaving commits 1,000,000 codes of the year, after which an insert meets a taken code |
| `Numbering.ExhaustedYearStaysExhausted` | core/pdf_utils.py:139-147 | such a year never gets another code |
| `Numbering.InterleavingKeepsConsistent` | core/db_locks.py:27-39 | the invariant of committed and pending rows and lock holders survives every interleaving |
| `Numbering.CodesSortByNumber` | core/pdf_utils.py:142-142 | up to 999,999 the text order of a year's codes is their numeric order |
| `Numbering.OverflowSortsLow` | core/pdf_utils.py:142-147 | the 1,000,000th code sorts before the 999,999th |
| `Numbering.ParseOfCode` | core/pdf_utils.py:146-147 | reading a formatted code gives its number back |
| `Numbering.CodeShape` | core/pdf_utils.py:147-147 | a code is DOC, the year and the number joined by dashes, the number in at least six digits and exactly six up to 999,999 |
| `Numbering.YearOfCode` | core/pdf_utils.py:141-141 | the prefix filter finds a code for its own year only |
| `Numbering.LastCodeOfCount` | core/pdf_utils.py:139-145 | the query finds the last of 1..n, or the 999,999th when there are more |
| `Numbering.ReportRegistry.RegisterEmission` | core/pdf_utils.py:135-149 | one emission is lock, read and insert in order, and waits while another transaction holds the year |
| `Lexical.ValueOfPadded` | core/pdf_utils.py:147-147 | zero padding is undone by reading the digits |
| `Lexical.SameLengthSortsNumerically` | core/pdf_utils.py:142-142 | digit strings of one length sort as their numbers |
| `Lexical.JoinIsInjective` | connect/services.py:51-51 | two joins are equal only part by part unless one first part goes on, after the separator, where the other ends |
| `Lexical.JoinsMeetExactlyWhenOneGoesOn` | connect/services.py:51-51 | two distinct first parts have equal joins for some second parts if and only if one goes on, after the separator, where the other ends |

## Left out

- FirstCopiesSuffice: assumes that no machine message raises when it is delivered; `SettledCopiesCanBeDropped` assumes nothing, and the exact conditions are `FirstCopiesSufficeExactlyWhenNoneCanFail` and `FirstCopiesSufficeExactlyWhenNothingFails`.
- NoDeadlock: about records that station events alone reach; `ReachedUnitFinishesExactlyWhen` decides every record that any run reaches.
- TwiceGatedStepNeverCompletes: one obstacle; `StepFinishesExactlyWhen` states exactly when a step can be completed.
- KeyNamesContractAndEvent: needs codes that do not extend one another by a colon; `MessagesAreMadeExactlyWhenNoCodeExtends` shows that without it messages are lost.
- LoopCloses: assumes that each round's flushes all succeed and go on until the connector has nothing live; `LoopCanClose` shows that such rounds exist.
- CountedUnitFinishedItsRoute: about the completion's own moment; a later reinspection can reopen an earlier step.
- SatisfiedStaysSatisfied: uses the uniqueness of (step, part) among requirements, which the database enforces.
- Recording from the station console view: it is not one transaction and writes the same rows by its own code.
- Edit screens and the admin, which overwrite statuses, gates, reworks and sequences without any guard.
- A queue item's route other than the approved route: the route is one fixed sequence of active steps.
- Operators, qualification, equipment calibration and unknown or inactive stations: one boolean on each request.
- Evidence, notes, defect codes of a review and inspectors: booleans, or absent.
- The defect code a station event gives a rework when none is passed: part of the request.
- The time stamp inside a reinspection's own reference: its row is modelled without a reference.
- Deleting rows, and the references that deletion clears or cascades through.
- Hash collisions of the advisory lock key, and several tenants in one database: a year's lock is a year's lock.
- The other series that share the advisory lock.
- The content, hash and user of a registered report.
- HTTP, headers, time-outs and response bodies of the transport: each attempt is a success or a failure at a time.
- The number of messages that requeueing reports.
- Receiving and marking inbound Connect messages, and connector authentication.
- Rounding and formatting of displayed figures; divisions are exact rationals.
- The date window of a study or report, which can cut a history in the middle; failure and rework counts, productivity and recommendations.
- The choice of takt when a study or station names none.
- The length limits of serial numbers, document codes and idempotency keys.
- Looking up a plan's route and ordering its units by serial number: given with the plan.
- Linking an existing unit to a plan, which does not check the remaining quantity.
- Concurrent requests, except for document numbers: operations on a unit, a plan, a line or the outbox run one after another.
- Audit logging, andon, downtime, kits, mix plans, production orders and change control.
