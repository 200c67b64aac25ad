# Verified model of the personal secretary's core

The project models five parts of the secretary and proves what each keeps over all inputs or
over all runs:

- **Day planner** (`Ordering`, `Planner` and the modules whose names begin with it): fixed
  reservations, greedy placement of flexible activities, the internal plan that tiles the day, its
  projection to calendar blocks, the explanations and the difference to a baseline. The imperative code is proved equal to functions of the
  *set* of activities, which is what makes it independent of their order.
- **Conversation delivery** (`Journal`, `RelayStore`, `RelayTransactions`, `RelayAccess`,
  `RelayBatches`, `Outbox`, `Delivery`, `DeliveryClient`, `DeliveryReach`): the ordering gate of a conversation, the store that takes batches whole, the
  device's outbox with its two durable writes, and the two ends joined by a network that loses,
  delays and repeats messages.
- **Calendar adapter** (`CalendarProvider`, `CalendarPlan`, `CalendarAdapter`, `CalendarDrafts`,
  `CalendarRecovery`, `DurableRecovery`): the drafts of a proposed calendar, incremental sync, applying a plan with bounded retries and crashes, rolling it
  back, and the verdicts of recovery.
- **Authority and jobs** (`Consumption`, `Authority`, `AuthorityHistory`, `JobOutbox`,
  `JobOutboxStore`, `JobClaims`, `DurableCalendar`): one-shot keys, approvals and resets, durable jobs and the verified claim.
- **Audit chain** (`Audit`): appending, verifying, pruning behind an anchor, and the variant with a
  bound head.

Objects that the program updates in place are classes; each method is proved against a function of
the old state, and the theorems are about those functions and about runs of them. The members named
`...Exactly` and `...InFields` tell what an operation decides in the fields of its inputs alone. Every
induction is written out; automatic induction is switched off throughout. Tables are built by updates and
removals, never by map comprehensions, because the verifier takes any two empty ones to have equal values.

Conventions and assumptions:

- Instants are whole minutes in UTC. The merge test of the calendar projection compares local
  date-times; equal local times are taken to be equal instants.
- Hashes and signatures are injective: a payload hash is the payload, an event identity is its owner
  and key, an entry's signature is the tuple of what it covers. Whether a proof is allowed and its
  signature verifies is a boolean of the fact, or a function of it where it is checked again later.
- A database transaction is one step. Tables are maps and sequences. How an event identity is written
  out, and how drafts are written as a payload, are parameters.
- Randomly chosen identities are parameters; the device's new events have identities it has not
  used before.

Where the code and its description differ, the model follows the code:

- `ledger.py` says that pruning cuts off a verified prefix. It deletes everything up to the *last*
  entry older than the cutoff, so with a clock that went back it also deletes newer entries, and the
  count it returns is then not the number deleted (`Audit.PruneCountIsExact`).
- The memory store of consumed keys accepts a claim that names one key twice, the database store
  refuses it (`Consumption.StoresAgree`). No transition makes such a claim
  (`Authority.LifecycleKeysDistinct`), so for the lifecycle the two are interchangeable.
- Applying a plan again is idempotent only if drafts with equal keys are equal; the plan type does
  not require it (`CalendarPlan.ReapplySettles`).
- `apply` decides all operations first but refuses one only when it reaches it, so a refused apply may
  have written the drafts before it (`CalendarPlan.RefusalMayFollowAWrite`). It left the calendar as it
  was exactly when none of those was to be written (`CalendarPlan.StoppedApplyIsClean`), which the
  preview of the plan shows beforehand.
- The transitions of a calendar block start from the last *distinct* segment title, which is not always
  the block before (`PlannerSegments.TransitionFromPrevious`).
- An earlier deadline is meant to count for more. On windows longer than 4067 minutes a deadline at the
  end of the window scores less than one after it (`PlannerScoring.SoonerScoresMoreExactly`).
- The names of calendar blocks and the event keys made from them join identifiers with a separator that
  identifiers may contain. Different blocks then share a name or a key in exactly the cases of
  `PlannerProjection.NamesClashExactly` and `CalendarDrafts.SameKey`, and such a plan cannot be applied
  twice (`CalendarDrafts.PublishedPlanSettles`).

## Model

| member | source | states |
|---|---|---|
| PlannerModel.CountDependentsIsCardinality | mac/secretary_service/src/secretary_service/planner_placement.py:42-49 | the dependent count of an activity is the number of activities that name it as a dependency, whatever their order |
| PlannerScoring.EnergyScoreIsBestWindow | mac/secretary_service/src/secretary_service/planner_scoring.py:9-61 | the energy score is the best that any window holding the whole slot offers, whatever the order of the windows, and zero only if none offers more |
| PlannerScoring.EnergyScoreExactly | mac/secretary_service/src/secretary_service/planner_scoring.py:32-42 | in fields: a window counts when it holds the whole activity, for 300 less 100 for each level it is off; the score is the best of these and never negative |
| PlannerScoring.ScoreDifferences | mac/secretary_service/src/secretary_service/planner_scoring.py:30-52 | one more dependent adds 400, one more point of importance or goal weight 100, one more minute of travel takes 5, and nothing else counts but deadline and energy |
| PlannerScoring.DeadlineDifferences | mac/secretary_service/src/secretary_service/planner_scoring.py:16-29 | a minute nearer inside the window, a minute more missed up to thirty days, or an hour nearer beyond the window adds one; a missed deadline outscores every other; a deadline far away counts like none |
| PlannerScoring.SoonerScoresMoreExactly | mac/secretary_service/src/secretary_service/planner_scoring.py:16-29 | an earlier deadline never scores less than a later one exactly on windows of up to 4067 minutes |
| PlannerPlacement.PlacementBounds | mac/secretary_service/src/secretary_service/planner_placement.py:196-227 | the bounds are missing exactly when a dependency is unplaced; otherwise a minute lies between them exactly when window, earliest start, latest end, deadline, predecessors and placed successors all allow it |
| PlannerPlacement.CountsAgreeWhenPlaced | mac/secretary_service/src/secretary_service/planner_placement.py:203-210 | comparing the two counts decides whether every dependency is placed |
| PlannerPlacement.BestPlacement | mac/secretary_service/src/secretary_service/planner_placement.py:166-193 | returns nothing exactly when no minute is feasible, and otherwise the earliest of the highest-scoring feasible minutes |
| PlannerPlacement.BestIsUnique | mac/secretary_service/src/secretary_service/planner_placement.py:166-193 | that result is determined by the placements alone |
| PlannerFixed.PlaceFixed | mac/secretary_service/src/secretary_service/planner_placement.py:52-86 | the conflicts are precisely the fixed or protected activities that break the window or a time bound or overlap another one; without any, the reservations are those activities in order |
| PlannerFixed.ConflictsAreExact | mac/secretary_service/src/secretary_service/planner_placement.py:59-86 | the pairwise scan in sorted order finds every overlap and nothing else |
| PlannerFlexible.ReportSorted | mac/secretary_service/src/secretary_service/planner_placement.py:100-163 | reports are the same for every order of the listed activities |
| PlannerFlexible.ChooseOutranks | mac/secretary_service/src/secretary_service/planner_placement.py:130-137 | the activity chosen and its minute, against every feasible minute of every eligible activity: none scores higher, none of the same score starts earlier, none of both has a lesser identifier |
| PlannerFlexible.ChooseIsBest | mac/secretary_service/src/secretary_service/planner_placement.py:130-137 | the same against each eligible activity's own best placement |
| PlannerFlexible.Round | mac/secretary_service/src/secretary_service/planner_placement.py:106-163 | one round places at most one activity, which outranks every feasible minute of every activity whose turn it is, and places one whenever there is such a minute; otherwise it gives up on the eligible ones or on all; it always leaves fewer |
| PlannerFlexible.PlaceFlexible | mac/secretary_service/src/secretary_service/planner_placement.py:89-163 | the loop ends and computes a function of the set of activities and the fixed reservations; what that function picks is PlannerGreedy.FlexOutranks |
| PlannerGreedy.FlexOutranks | mac/secretary_service/src/secretary_service/planner_placement.py:106-163 | over the whole loop from any reservations: each placement outranks every feasible minute, at its turn, of every activity still waiting with its dependencies placed; what was given up never gets room again |
| PlannerGreedy.PlacementsAreGreedy | mac/secretary_service/src/secretary_service/planner_placement.py:89-163 | in a plan each placement after the fixed ones was, at its turn, the highest-scoring one any waiting activity could have had, ties going to the earlier start and then to the lesser identifier |
| PlannerRules.FeasibleExactly | mac/secretary_service/src/secretary_service/planner_placement.py:196-256 | in fields: window, earliest start, latest end, deadline unless missed and recoverable, dependencies placed and over, dependents not begun, and no shared minute with travel included |
| PlannerRules.PlanInFields | mac/secretary_service/src/secretary_service/planner_placement.py:52-270 | each reservation in the fields of its activity: full length, window, bounds, fixed times, score of its minute, and every dependency over before it starts |
| PlannerRules.PlanIsApart | mac/secretary_service/src/secretary_service/planner_placement.py:230-234 | no activity twice and no two reservations, travel included, in one minute |
| PlannerRules.ConflictingExactly | mac/secretary_service/src/secretary_service/planner_placement.py:52-86 | the first refusal names exactly the fixed activities that leave the window, break their own bounds or share a minute with another fixed one, told in their fields |
| PlannerRules.BrokenExactly | mac/secretary_service/src/secretary_service/planner_placement.py:259-270 | the second refusal names exactly the fixed activities that depend on something not reserved or on a fixed one that ends after they start |
| PlannerRules.LeftOutInFields | mac/secretary_service/src/secretary_service/planner_placement.py:106-163 | why an activity is left out and exactly which dependencies are named as blocking it, in ascending order |
| PlannerSchedule.PlanIsSound | mac/secretary_service/src/secretary_service/planner_placement.py:52-270 | in a plan that is not refused all reservations with travel are disjoint and inside the window, every time bound is met, and every dependency is placed and ends before its dependent starts, for fixed activities too |
| PlannerSchedule.PlanPartitions | mac/secretary_service/src/secretary_service/planner_placement.py:89-163 | every activity is placed or unscheduled, none is both, and none is reported twice |
| PlannerSchedule.PlanIsMaximal | mac/secretary_service/src/secretary_service/planner_placement.py:106-163 | an unscheduled activity is flexible and has a dependency that is not placed, or no minute that fits against the final placements |
| PlannerSchedule.BrokenIsExact | mac/secretary_service/src/secretary_service/planner_placement.py:259-270 | the broken set holds exactly the fixed activities with a dependency that is not placed or is a fixed one ending too late; never a flexible one |
| PlannerTiling.BuildInternalPlan | mac/secretary_service/src/secretary_service/planner_explanation.py:22-65 | the list built by appending, sorting and moving a cursor is the tiling of the rendered reservations |
| PlannerTiling.PlanTilesWindow | mac/secretary_service/src/secretary_service/planner_explanation.py:22-65 | positive-length blocks from the start to the end of the window, each beginning where the previous ends, whose minutes sum to its length |
| PlannerTiling.PlanKeepsBlocks | mac/secretary_service/src/secretary_service/planner_explanation.py:53-65 | filling the gaps neither loses nor repeats an activity or travel block and keeps them in order |
| PlannerTiling.FreeMinutesAreExact | mac/secretary_service/src/secretary_service/planner_explanation.py:53-65 | each minute has one block, and that block is free time exactly when no reservation holds the minute |
| PlannerTiling.SortChains | mac/secretary_service/src/secretary_service/planner_explanation.py:53 | sorting blocks that do not overlap puts them end to end |
| PlannerProjection.ProjectCalendar | mac/secretary_service/src/secretary_service/planner_projection.py:14-69 | the loop that replaces the last block computes the projection of the eligible blocks |
| PlannerProjection.ProjectionSettles | mac/secretary_service/src/secretary_service/planner_projection.py:14-69 | calendar blocks are in order and apart, and no two neighbours could still be merged |
| PlannerProjection.ProjectionConservesTime | mac/secretary_service/src/secretary_service/planner_projection.py:14-69 | a minute is in a calendar block exactly when it is in an eligible activity or travel block |
| PlannerProjection.SourcesExact | mac/secretary_service/src/secretary_service/planner_projection.py:27-69 | the sources of a calendar block are exactly the activities of the blocks merged into it |
| PlannerProjection.SourcesDisjoint | mac/secretary_service/src/secretary_service/planner_projection.py:27-69 | no activity is a source of two calendar blocks |
| PlannerProjection.CalendarNamesDistinct | mac/secretary_service/src/secretary_service/planner_projection.py:27-69 | when no identifier has a colon, different calendar blocks have different names |
| PlannerProjection.NamesClashExactly | mac/secretary_service/src/secretary_service/planner_projection.py:27-69 | two calendar blocks share a name exactly when their first and last activities interlock at a colon inside an identifier |
| PlannerProjection.ColonsMayClash | mac/secretary_service/src/secretary_service/planner_projection.py:27-69 | a block from a to b:c and one from a:b to c get the same name |
| PlannerSegments.CalendarCollects | mac/secretary_service/src/secretary_service/planner_projection.py:27-68 | the deadlines and codes of a calendar block are exactly those of the blocks merged into it |
| PlannerSegments.CalendarCollectsTexts | mac/secretary_service/src/secretary_service/planner_projection.py:27-68 | so are its guidance and its segment titles |
| PlannerSegments.CalendarListsOnce | mac/secretary_service/src/secretary_service/planner_projection.py:123-131 | each source, title, deadline and code is listed once |
| PlannerSegments.TransitionsExact | mac/secretary_service/src/secretary_service/planner_projection.py:41-45 | one transition for each merged block, to its title from the title last new in the calendar block |
| PlannerSegments.TransitionFromPrevious | mac/secretary_service/src/secretary_service/planner_projection.py:41-45 | a transition starts from the block before it exactly unless that block repeats a title used before the newest one |
| PlannerSegments.TransitionsMayMisname | mac/secretary_service/src/secretary_service/planner_projection.py:41-45 | after segments A, B and A again the step to C is written as one from B |
| PlannerDiff.ComputeDiff | mac/secretary_service/src/secretary_service/planner_projection.py:72-107 | one pass over the identifiers of both dictionaries computes the difference of the two lists |
| PlannerDiff.DiffPatches | mac/secretary_service/src/secretary_service/planner_projection.py:72-107 | carrying out the difference turns the baseline into the proposal |
| PlannerDiff.DiffUnpatches | mac/secretary_service/src/secretary_service/planner_projection.py:72-107 | taking it back restores the baseline |
| PlannerDiff.DiffEmptyExactly | mac/secretary_service/src/secretary_service/planner_projection.py:72-107 | the difference is empty exactly when both have the same intervals |
| PlannerDiff.AddedExactly | mac/secretary_service/src/secretary_service/planner_projection.py:74-82 | a plan block is added exactly when the baseline list has no block with its identifier, with what the plan lists |
| PlannerDiff.MovedExactly | mac/secretary_service/src/secretary_service/planner_projection.py:92-106 | where both lists have a block it is moved exactly when the intervals differ, with both intervals |
| PlannerDiff.RemovedExactly | mac/secretary_service/src/secretary_service/planner_projection.py:83-91 | a baseline block is removed exactly when the plan list has no activity block with its identifier |
| PlannerDiff.DiffReachesPlan | mac/secretary_service/src/secretary_service/planner_projection.py:72-107 | carried out on the listed baseline the difference leaves exactly the plan's identifiers, each with the interval the plan lists |
| PlannerDiff.DiffReturnsToBaseline | mac/secretary_service/src/secretary_service/planner_projection.py:72-107 | taken back from the listed plan it leaves exactly the baseline's |
| PlannerDay.PlanIsDrawn | mac/secretary_service/src/secretary_service/planner_explanation.py:22-65 | the blocks of a sound plan give each activity and its travel as neighbours that abut |
| PlannerDay.CalendarSettled | mac/secretary_service/src/secretary_service/planner_projection.py:14-69 | the calendar of every sound plan is in normal form |
| PlannerDay.CalendarShowsExactly | mac/secretary_service/src/secretary_service/planner_projection.py:14-69 | a minute is shown exactly when the reservation of an eligible activity that is no micro-event, travel included, holds it |
| PlannerDay.CalendarKeepsActivitiesWhole | mac/secretary_service/src/secretary_service/planner_projection.py:14-69 | every eligible activity lies in exactly one calendar block, and that block shows every minute of its reservation, travel included |
| PlannerDay.CalendarTitled | mac/secretary_service/src/secretary_service/planner_projection.py:25-26 | a calendar block bears the display title and group of every activity in it, by default its own title and identifier |
| PlannerDay.CalendarNamesTellApart | mac/secretary_service/src/secretary_service/planner_projection.py:27-69 | the calendar blocks of a sound plan have distinct names when no identifier has a colon |
| PlannerExplanation.FindReason | mac/secretary_service/src/secretary_service/planner_explanation.py:80-81 | the reason of an activity that is not placed is always found, so explaining never fails |
| PlannerExplanation.ExplainOne | mac/secretary_service/src/secretary_service/planner_explanation.py:68-130 | the code, score and block identities of one explanation |
| PlannerExplanation.NamedBlocksExist | mac/secretary_service/src/secretary_service/planner_explanation.py:118-130 | an explanation names exactly the blocks the internal plan has for its activity |
| Planner.ProposeDay | mac/secretary_service/src/secretary_service/planner.py:54-152 | the whole method, explanations included, computes a function of the request and never fails to explain an activity |
| Planner.OrderIndependence | mac/secretary_service/src/secretary_service/planner.py:54-152 | permuting the activities changes neither plan, calendar, status nor difference, and reports and explanations only in their order |
| Planner.NonEmptyPlanTiles | mac/secretary_service/src/secretary_service/planner.py:118-152 | every non-empty proposed plan tiles the window |
| Planner.StatusIsHonest | mac/secretary_service/src/secretary_service/planner.py:96-152 | feasible exactly when everything is placed, partial exactly when something but not everything is, infeasible on every refusal |
| Planner.ExplanationsAreTrue | mac/secretary_service/src/secretary_service/planner.py:126-152 | every activity of a plan is explained in request order, as infeasible exactly when it is unscheduled, and otherwise by exactly its blocks in the plan |
| PlannerProposals.StaleExactly | mac/secretary_service/src/secretary_service/planner.py:56-60 | stale exactly when the expected revision is not the current one, and both are named |
| PlannerProposals.ConflictReportsExact | mac/secretary_service/src/secretary_service/planner.py:72-83 | each activity in conflict is reported once, ascending, blocked by exactly the others |
| PlannerProposals.ConflictDay | mac/secretary_service/src/secretary_service/planner.py:66-95 | a day refused for conflicts plans nothing, removes the baseline, and explains exactly the activities in conflict, with the score of their fixed start |
| PlannerProposals.BrokenDay | mac/secretary_service/src/secretary_service/planner.py:98-125 | a day refused for dependencies plans nothing and rejects every activity in request order, blocked by exactly the broken ones |
| PlannerProposals.ExplanationInFields | mac/secretary_service/src/secretary_service/planner_explanation.py:68-130 | a placed activity is explained with its own score and as overdue, fixed, protected or scheduled by its own fields; one not placed with the score at the start of the window |
| PlannerProposals.BlocksInFields | mac/secretary_service/src/secretary_service/planner_explanation.py:22-52 | each occupied block is an activity or a travel of it, with its identity, kind, title, exact minutes and the fields it carries over; free blocks carry none |
| PlannerProposals.CalendarInFields | mac/secretary_service/src/secretary_service/planner_projection.py:14-69 | the proposed calendar shows a minute exactly when it lies in the reservation of an activity that may be shown |
| Journal.ConversationJournal.Accept | mac/secretary_service/src/secretary_service/conversation_api.py:228-299 | accepts and advances, or rejects with the first broken rule and stays |
| Journal.GateReadsTrace | mac/secretary_service/src/secretary_service/conversation_api.py:288-299 | the four state variables are functions of the accepted trace |
| Journal.AcceptedExactly | mac/secretary_service/src/secretary_service/conversation_api.py:250-286 | the exact condition under which an event extends an accepted trace |
| Journal.RejectionExactly | mac/secretary_service/src/secretary_service/conversation_api.py:228-286 | which rejection an event gets, by the first rule it breaks, read off the accepted trace |
| Journal.AcceptedNumbering | mac/secretary_service/src/secretary_service/conversation_api.py:250-268 | accepted traces are numbered 1 to n with distinct identities |
| Journal.TurnDiscipline | mac/secretary_service/src/secretary_service/conversation_api.py:270-299 | a final closes the turn the latest turn change opened; no transcript belongs to the cancelled turn until a resume or another cancellation; a resume names the cancelled turn; open and cancelled turns differ |
| Journal.AcceptedStays | mac/secretary_service/src/secretary_service/conversation_api.py:214-268 | binding more devices never invalidates an accepted trace |
| RelayTransactions.ConversationRelayStore.Provision | mac/secretary_service/src/secretary_service/relay_store.py:85-122 | binds identity and device together, acknowledges the same binding again, and keeps nothing of a conflict |
| RelayTransactions.ConversationRelayStore.Create | mac/secretary_service/src/secretary_service/relay_store.py:131-176 | creates once for the device's participant, acknowledges an equal creation of a member, denies every device that is no member's, and changes nothing then |
| RelayTransactions.ConversationRelayStore.Events | mac/secretary_service/src/secretary_service/relay_store.py:312-330 | denied exactly unless the bound device's participant is a member; otherwise the page of the log after a cursor, within bounds |
| RelayTransactions.ConversationRelayStore.ReadPage | mac/secretary_service/src/secretary_service/relay_api.py:246-261 | granted exactly to a bound device of a member within bounds: at most 100 events with the number of the last one as cursor, or the given cursor when there is none |
| RelayTransactions.ConversationRelayStore.Append | mac/secretary_service/src/secretary_service/relay_store.py:332-372 | the transaction with its replay and batch loops computes the append function; a failed one stores nothing |
| RelayStore.PageIsSlice | mac/secretary_service/src/secretary_service/relay_store.py:312-330 | a page of an accepted log is a slice of it |
| RelayStore.AppendExtends | mac/secretary_service/src/secretary_service/relay_store.py:332-397 | an accepted batch only extends the log, by accepted events of this device under new identities, and the whole batch is in it |
| RelayStore.FailedBatchChangesNothing | mac/secretary_service/src/secretary_service/relay_store.py:332-372 | a batch that is not accepted leaves the store as it was |
| RelayStore.ReachableLogs | mac/secretary_service/src/secretary_service/relay_store.py:85-397 | in every reachable store logs are numbered 1 to n with n at most 10,000, the bounded history read is complete and replays fully |
| RelayStore.RunExtends | mac/secretary_service/src/secretary_service/relay_store.py:85-397 | bindings, conversations and logs only grow |
| RelayStore.ResendIsIdempotent | mac/secretary_service/src/secretary_service/relay_store.py:332-372 | re-sending an accepted batch at any later time succeeds and changes nothing |
| RelayAccess.ConversationsHaveMakers | mac/secretary_service/src/secretary_service/relay_store.py:131-176 | over every run a conversation exists exactly when a bound device created it, and its only member is that device's participant |
| RelayAccess.EventsExactly | mac/secretary_service/src/secretary_service/relay_store.py:231-244 | over every run reading events is granted exactly to the bound devices of the participant who made the conversation, and every other device is denied |
| RelayAccess.PagesExactly | mac/secretary_service/src/secretary_service/relay_api.py:246-261 | over every run so is reading a page |
| RelayAccess.PageContents | mac/secretary_service/src/secretary_service/relay_api.py:246-261 | a page holds the next events of the log in order, as many as there are up to the limit, and its cursor is where the next page goes on |
| RelayAccess.CreateExactly | mac/secretary_service/src/secretary_service/relay_store.py:131-176 | over every run the answer to a creation and the store after it, by who made the conversation before |
| RelayAccess.StrangersCannotAppend | mac/secretary_service/src/secretary_service/relay_store.py:332-342 | over every run a device of any other participant is denied and changes nothing |
| RelayAccess.ProvisionExactly | mac/secretary_service/src/secretary_service/relay_store.py:85-122 | a device is bound exactly when it is the presented identity's and neither is known differently |
| RelayAccess.BindingsStay | mac/secretary_service/src/secretary_service/relay_store.py:113-117 | the participant of a bound device never changes |
| RelayBatches.AppendExactly | mac/secretary_service/src/secretary_service/relay_store.py:332-372 | which batches are taken, event by event in fields, what the log then is, and which refused ones are denied rather than in conflict |
| RelayBatches.TakenExactly | mac/secretary_service/src/secretary_service/relay_store.py:374-397 | an identity is in use exactly when a record or another conversation's log has it |
| RelayBatches.AgentRecordKeepsIdentity | mac/secretary_service/src/secretary_service/relay_store.py:275-305 | an agent's record takes an identity no log has, after which no batch brings a new event under it |
| RelayBatches.ScopeExactly | mac/secretary_service/src/secretary_service/relay_store.py:245-253 | an append is judged by the conversation's members and exactly their bound devices |
| Outbox.EncryptedOutbox.Send | ios/SecretaryApp/SecretaryApp/Client/EncryptedOutbox.swift:29-37 | the new events follow those of every conversation, and each next number becomes one past the highest new number or stays |
| Outbox.EncryptedOutbox.NextNumber | ios/SecretaryApp/SecretaryApp/Client/EncryptedOutbox.swift:72-77 | one past everything delivered or queued of the conversation |
| Outbox.EncryptedOutbox.PersistCursors | ios/SecretaryApp/SecretaryApp/Client/EncryptedOutbox.swift:51-60 | the first write raises the cursors and leaves the queue |
| Outbox.EncryptedOutbox.Acknowledge | ios/SecretaryApp/SecretaryApp/Client/EncryptedOutbox.swift:51-70 | the second write removes exactly the acknowledged events |
| Outbox.EncryptedOutbox.Snapshot | ios/SecretaryApp/SecretaryApp/Client/SignedConversationRelay.swift:208-216 | the longest allowed prefix of one conversation within count and size |
| Outbox.DeliveredCursor | ios/SecretaryApp/SecretaryApp/Client/EncryptedOutbox.swift:55-58 | a cursor becomes the highest delivered number of its conversation |
| Delivery.ExactlyOnceInOrder | ios/SecretaryApp/SecretaryApp/Client/EncryptedOutbox.swift:29-77 | over every run with lost, late and repeated messages, rejections and stops between the two writes: the log is a prefix of the issued events, the queue a suffix starting at or before its end, and the next number is one more than the number issued |
| Delivery.AnythingMayHappen | ios/SecretaryApp/SecretaryApp/Client/SignedConversationRelay.swift:112-127 | what the runs cover: requests arrive any number of times, answers are taken up whenever they pass the test, the device stops at any point, and others do anything but write its conversations |
| Delivery.RunKeeps | ios/SecretaryApp/SecretaryApp/Client/SignedConversationRelay.swift:204-220 | the invariant behind it holds in every reachable state |
| Delivery.NextIsIssuedPlusOne | ios/SecretaryApp/SecretaryApp/Client/EncryptedOutbox.swift:72-77 | the next number never repeats or skips |
| Delivery.SliceAppend | mac/secretary_service/src/secretary_service/relay_store.py:332-372 | when a slice of one stream is accepted, and that it leaves the stream up to the slice's end |
| Delivery.RequestOutcome | mac/secretary_service/src/secretary_service/relay_store.py:332-372 | a request is taken exactly when the device may write and the stream up to its end is acceptable; otherwise the server does not change |
| Delivery.HonestAnswer | ios/SecretaryApp/SecretaryApp/Client/SignedConversationRelay.swift:112-127 | every answer of the server passes the device's test |
| Delivery.TrustsExactly | ios/SecretaryApp/SecretaryApp/Client/SignedConversationRelay.swift:112-127 | an answer is trusted exactly when it lists the batch's identities in order and its number is past every event of it |
| Delivery.PersistKeeps | ios/SecretaryApp/SecretaryApp/Client/EncryptedOutbox.swift:51-60 | stopping after the first write is harmless |
| Delivery.DrainedMeansDelivered | ios/SecretaryApp/SecretaryApp/Client/SignedConversationRelay.swift:204-220 | an empty queue means the log holds everything issued |
| Delivery.TranscriptIsIssued | ios/SecretaryApp/SecretaryApp/App/ConversationSession.swift:564-574 | remote events followed by the pending ones not among them are exactly the issued events, in order |
| Delivery.RoundDelivers | ios/SecretaryApp/SecretaryApp/Client/SignedConversationRelay.swift:204-220 | an undisturbed round of an acceptable batch puts it in the log |
| Delivery.RoundEmpties | ios/SecretaryApp/SecretaryApp/Client/SignedConversationRelay.swift:204-220 | and takes exactly the batch off the queue |
| DeliveryClient.SignedConversationRelay.Flush | ios/SecretaryApp/SecretaryApp/Client/SignedConversationRelay.swift:204-220 | under every fault the server took the whole batch or nothing, and the queue shrinks only after a trusted answer |
| DeliveryReach.DeliveredFromStart | ios/SecretaryApp/SecretaryApp/Client/SignedConversationRelay.swift:204-220 | from the empty system, binding the device, creating the conversation, issuing up to a batch of events the gate accepts and flushing once leaves exactly them in the log and nothing in the queue |
| Delivery.FlushIsRun | ios/SecretaryApp/SecretaryApp/Client/SignedConversationRelay.swift:204-220 | one flush under every fault is a run of the protocol steps, so the delivery theorem covers it |
| Delivery.SendIsRun | ios/SecretaryApp/SecretaryApp/Client/EncryptedOutbox.swift:29-37 | sending events numbered on from the next number is a run of issue steps, so the delivery theorem covers it |
| DeliveryClient.SignedConversationRelay.Drain | ios/SecretaryApp/SecretaryApp/App/ConversationSession.swift:575-577 | under any faults the flush loop ends and is a run of the protocol; it ends idle exactly with an empty queue, and then every log holds all that was issued |
| DeliveryClient.SignedConversationRelay.Resume | ios/SecretaryApp/SecretaryApp/App/ConversationSession.swift:564-571 | following the cursors page by page never fails the device's test of a page and returns the whole log |
| DeliveryClient.GatheredIsGapless | ios/SecretaryApp/SecretaryApp/Client/SignedConversationRelay.swift:129-140 | whatever a server answers, what the device takes over is numbered from 1 without a gap and of one conversation |
| CalendarProvider.GoogleCalendarSandbox.WriteEvent | mac/secretary_service/src/secretary_service/google_calendar_sandbox.py:163-182 | the exact new state, including failures before and after the commit |
| CalendarProvider.GoogleCalendarSandbox.DeleteEvent | mac/secretary_service/src/secretary_service/google_calendar_sandbox.py:184-196 | removes the event and logs a tombstone, or does nothing |
| CalendarProvider.GoogleCalendarSandbox.ListEvents | mac/secretary_service/src/secretary_service/google_calendar_sandbox.py:71-77 | the events sorted by their identity |
| CalendarProvider.ListingLists | mac/secretary_service/src/secretary_service/google_calendar_sandbox.py:71-77 | the sorted listing has every event once and folds back to the calendar |
| CalendarProvider.GoogleCalendarSandbox.SyncEvents | mac/secretary_service/src/secretary_service/google_calendar_sandbox.py:136-161 | the sorted full listing, the changes after a token in order, or a refusal of stale and malformed tokens |
| CalendarProvider.RunKeepsValid | mac/secretary_service/src/secretary_service/google_calendar_sandbox.py:95-202 | over every history the change log replays to the calendar and only grows |
| CalendarProvider.CatchUp | mac/secretary_service/src/secretary_service/google_calendar_sandbox.py:136-202 | folding the later changes onto an earlier calendar gives the later one |
| CalendarProvider.TokenAcceptedExactly | mac/secretary_service/src/secretary_service/google_calendar_sandbox.py:136-161 | a token taken at one point is accepted later exactly when tokens were never expired after a change made since |
| CalendarProvider.ListingAscends | mac/secretary_service/src/secretary_service/google_calendar_sandbox.py:71-77 | a listing is in the order of the written identities |
| CalendarAdapter.IncrementalIsFull | mac/secretary_service/src/secretary_service/google_calendar.py:110-136 | after every history of writes, edits, deletes and expiries, syncing from an earlier state equals a full sync |
| CalendarAdapter.FollowingIsFull | mac/secretary_service/src/secretary_service/google_calendar.py:110-136 | and so does any chain of incremental syncs |
| CalendarAdapter.GoogleCalendarAdapter.Sync | mac/secretary_service/src/secretary_service/google_calendar.py:110-136 | the fold over the page computes that function, with fallback for stale tokens |
| CalendarAdapter.GoogleCalendarAdapter.WriteWithRetries | mac/secretary_service/src/secretary_service/google_calendar_operations.py:80-105 | succeeds on the attempt after the pending failures, within the bound; says whether the event was committed |
| CalendarAdapter.GoogleCalendarAdapter.Apply | mac/secretary_service/src/secretary_service/google_calendar.py:71-108 | wherever it ends, the calendar is what the drafts reached make of it, and is unchanged exactly when none of those was to be written; without faults it completes exactly when each draft's identity is free, this owner's with the draft's content and tags, or this owner's from another payload; a completed one with consistent keys leaves every draft published |
| CalendarAdapter.GoogleCalendarAdapter.Reconcile | mac/secretary_service/src/secretary_service/google_calendar.py:138-146 | compares without changing anything |
| CalendarAdapter.GoogleCalendarAdapter.RollBack | mac/secretary_service/src/secretary_service/google_calendar.py:148-202 | deletes exactly the events with the plan's owner, proposal and payload, in listing order, only for an applied plan with a current matching authorization |
| CalendarPlan.StoppedApplyResumes | mac/secretary_service/src/secretary_service/google_calendar.py:71-108 | stopping after any prefix and applying again is not refused, gives the contents of an uninterrupted run and writes exactly what was missing |
| CalendarPlan.ReapplySettles | mac/secretary_service/src/secretary_service/google_calendar_operations.py:118-140 | re-applying a complete plan finds nothing to do exactly when drafts with equal keys are equal |
| CalendarPlan.ClashingKeysRefuse | mac/secretary_service/src/secretary_service/google_calendar_operations.py:118-140 | two different drafts with one key: the second apply refuses what the first wrote |
| CalendarPlan.StoppedApplyIsClean | mac/secretary_service/src/secretary_service/google_calendar.py:86-103 | an apply stopped at any draft left the calendar as it was exactly when no draft before it was to be written |
| CalendarPlan.RefusalMayFollowAWrite | mac/secretary_service/src/secretary_service/google_calendar.py:86-103 | a free first draft is written before the second is refused for meeting a foreign event |
| CalendarPlan.RollbackUndoesApply | mac/secretary_service/src/secretary_service/google_calendar.py:148-176 | rolling back restores the calendar exactly when it held none of the reached identities and no event of the plan |
| CalendarPlan.ForeignEventsStay | mac/secretary_service/src/secretary_service/google_calendar_operations.py:118-140 | events not tagged with this owner never change, even when apply is refused halfway |
| CalendarPlan.RollbackKeepsForeign | mac/secretary_service/src/secretary_service/google_calendar.py:154-161 | nor does rollback touch them |
| CalendarPlan.CleanFits | mac/secretary_service/src/secretary_service/google_calendar_operations.py:118-140 | a calendar without the plan's identities is never refused |
| CalendarPlan.CompareExactly | mac/secretary_service/src/secretary_service/google_calendar_operations.py:118-140 | each operation in the fields of the event found under the draft's identity, for applying and for reconciling |
| CalendarPlan.FitsExactly | mac/secretary_service/src/secretary_service/google_calendar_operations.py:118-140 | no draft is refused exactly when each identity is free, this owner's with the draft's content and tags, or this owner's from another payload |
| CalendarPlan.CompletedExactly | mac/secretary_service/src/secretary_service/google_calendar.py:86-103 | once every draft went through, each identity holds its summary, times and tags, older events of the owner included, and every other identity what it held |
| CalendarDrafts.SameKey | mac/secretary_service/src/secretary_service/slice/service.py:364-373 | two calendar blocks get one event key exactly when, with colons as dashes, their first and last activities are equal or interlock at a dash |
| CalendarDrafts.DraftsExactly | mac/secretary_service/src/secretary_service/slice/service.py:364-373 | a calendar becomes drafts exactly when every block name is an admitted key once its colons are dashes; each draft is its block's title and times under that key |
| CalendarDrafts.ConsistentExactly | mac/secretary_service/src/secretary_service/slice/service.py:364-373 | the drafts of a settled calendar have consistent keys exactly when no two blocks clash |
| CalendarDrafts.PublishedPlanSettles | mac/secretary_service/src/secretary_service/slice/service.py:364-373 | for the calendar of a sound plan, applying it again finds nothing to do exactly when no two blocks clash |
| CalendarDrafts.PublishedKeysDistinct | mac/secretary_service/src/secretary_service/slice/service.py:364-373 | identifiers without colons that have no dashes, or all have one length, never clash |
| CalendarDrafts.DashesMayClash | mac/secretary_service/src/secretary_service/slice/service.py:364-373 | blocks with different names, a to b-c and a-b to c, get the same valid key |
| CalendarRecovery.Classify | mac/secretary_service/src/secretary_service/durable_calendar.py:188-226 | the verdict is a function of one read of the calendar |
| CalendarRecovery.AppliedIsTrue | mac/secretary_service/src/secretary_service/durable_calendar.py:188-226 | applied exactly when every approved event is present with its content and tags and no other event carries the proposal |
| CalendarRecovery.ResetIsTrue | mac/secretary_service/src/secretary_service/durable_calendar.py:188-232 | reset exactly when the plan has events, none is there, and nothing in the calendar carries the proposal |
| CalendarRecovery.VerdictExactly | mac/secretary_service/src/secretary_service/durable_calendar.py:188-232 | all four verdicts in the fields of the calendar's events |
| CalendarRecovery.VerdictAfterWrites | mac/secretary_service/src/secretary_service/durable_calendar.py:188-232 | the verdict after any number of clean writes of any plan, repeated keys included |
| CalendarRecovery.VerdictCountsWrites | mac/secretary_service/src/secretary_service/durable_calendar.py:188-232 | with distinct keys: applied after all writes, reset after none of some, partial otherwise |
| DurableRecovery.Recover | mac/secretary_service/src/secretary_service/durable_calendar.py:162-256 | the plan is read from the stored proposal itself; it becomes applied exactly when every event is held and nothing else carries the proposal, and is reset exactly when the plan has events, none is there and nothing carries it; only a granted reset consumes keys, and the calendar is only read |
| DurableRecovery.PlanDeterminesRecord | mac/secretary_service/src/secretary_service/durable_calendar.py:189-195 | proposals with the same plan have the same identity and payload |
| Consumption.MemoryConsumptionStore.CountRounds | mac/secretary_service/src/secretary_service/authority_consumption.py:32-34 | counts the consumed resets of a proposal |
| Consumption.MemoryConsumptionStore.Claim | mac/secretary_service/src/secretary_service/authority_consumption.py:36-41 | all keys at once or none |
| Consumption.EncryptedConsumptionStore.Claim | mac/secretary_service/src/secretary_service/authority_consumption.py:62-74 | the insert loop with rollback: all keys at once or none, and a key twice refuses |
| Consumption.ClaimIsAtomic | mac/secretary_service/src/secretary_service/authority_consumption.py:62-74 | a refused claim changes nothing; an accepted one adds exactly its keys, all new |
| Consumption.StoresAgree | mac/secretary_service/src/secretary_service/authority_consumption.py:25-74 | the two stores agree on a claim exactly when its keys are distinct or one is already consumed |
| Consumption.StoresMayDiffer | mac/secretary_service/src/secretary_service/authority_consumption.py:25-74 | a fresh claim naming a key twice is accepted by one and refused by the other |
| Authority.ProposalLifecycle.Handle | mac/secretary_service/src/secretary_service/authority.py:298-472 | for each kind the exact condition, in the fields of record and fact and the keys still unused, under which it is granted, the state it leads to, and that a refusal consumes nothing |
| Authority.LifecycleKeysDistinct | mac/secretary_service/src/secretary_service/authority.py:298-472 | the keys of one transition are distinct, so both stores treat it alike |
| Authority.GenerationCountsResets | mac/secretary_service/src/secretary_service/authority_consumption.py:32-34 | over every run the generation is the number of granted resets |
| Authority.ApprovalsBounded | mac/secretary_service/src/secretary_service/authority.py:298-324 | over every run, stale records included, a proposal is approved at most once more than it was reset |
| Authority.AcceptedAtMostOnce | mac/secretary_service/src/secretary_service/authority.py:298-472 | each fact is accepted at most once per kind of transition, and each device and idempotency pair at most once for approvals and for resets |
| Authority.RefusedChangesNothing | mac/secretary_service/src/secretary_service/authority.py:298-472 | a refused request leaves every key as it was |
| Authority.ResetReopens | mac/secretary_service/src/secretary_service/authority.py:433-466 | after a granted reset a permitted approval with a new fact and idempotency key is granted |
| Authority.ServeExactly | mac/secretary_service/src/secretary_service/authority.py:298-472 | the same of one request as a function, with the keys it uses up |
| AuthorityHistory.ApprovalGrantedExactly | mac/secretary_service/src/secretary_service/authority.py:298-324 | over every run an approval is granted exactly when it is proven, bound to a proposed record and in force, and no approval granted before bears its fact, its device and idempotency key, or its proposal without a reset granted since |
| AuthorityHistory.ResetGrantedExactly | mac/secretary_service/src/secretary_service/authority.py:433-466 | over every run a reset is granted exactly when it is proven, bound to an approved record and in force, no effect shows, and no reset granted before bears its fact or its device and idempotency key |
| AuthorityHistory.EffectGrantedExactly | mac/secretary_service/src/secretary_service/authority.py:375-431 | over every run applying, reverting and reconciling are granted exactly on a record in the right state with a bound fact that has not expired and was not granted for the same kind before |
| JobOutboxStore.PostgresOutbox.EnqueueJob | mac/secretary_service/src/secretary_service/postgres_outbox.py:113-137 | stores row and record together for a new unclaimed job, or nothing |
| JobOutboxStore.PostgresOutbox.Claim | mac/secretary_service/src/secretary_service/postgres_outbox.py:154-184 | expires the queued jobs before the first one still authorized and hands that one out |
| JobOutboxStore.PostgresOutbox.CompleteJob | mac/secretary_service/src/secretary_service/postgres_outbox.py:186-208 | stores the result exactly when the row is running with this token and before its deadline, and otherwise changes nothing |
| JobOutboxStore.PostgresOutbox.CancelJob | mac/secretary_service/src/secretary_service/postgres_outbox.py:210-218 | cancels exactly when the row is running with this token, and otherwise changes nothing |
| JobOutboxStore.PostgresOutbox.RecoverJobs | mac/secretary_service/src/secretary_service/postgres_outbox.py:220-237 | marks exactly the overdue running jobs and counts them |
| JobOutboxStore.PostgresOutbox.ReconcileJob | mac/secretary_service/src/secretary_service/postgres_outbox.py:239-253 | finishes only uncertain jobs |
| JobOutbox.PassedAreStale | mac/secretary_service/src/secretary_service/postgres_outbox.py:169-175 | a claim passes over only jobs out of time |
| JobOutbox.RunKeeps | mac/secretary_service/src/secretary_service/postgres_outbox.py:113-253 | over every run rows and records agree, authorizations stay and records only grow |
| JobOutbox.AtMostOnce | mac/secretary_service/src/secretary_service/postgres_outbox.py:113-253 | over every run a job is handed out at most once, never queued again, handed out and completed by its claimant only before its authorization ends, and its row shows its record's state |
| JobClaims.EnqueueExactly | mac/secretary_service/src/secretary_service/postgres_outbox.py:113-137 | a job is stored exactly when it is queued, unclaimed and new |
| JobClaims.ClaimExactly | mac/secretary_service/src/secretary_service/postgres_outbox.py:154-184 | the row after a claim: handed out exactly if it is the waiting job with the least identity, until the lesser of the claim's end and the authorization's; expired exactly if queued before it or with nothing waiting; else unchanged |
| JobClaims.CompleteExactly | mac/secretary_service/src/secretary_service/postgres_outbox.py:186-208 | the whole table after a completion, in the columns of the row |
| JobClaims.CancelExactly | mac/secretary_service/src/secretary_service/postgres_outbox.py:210-218 | the whole table after a cancellation |
| JobClaims.RecoverExactly | mac/secretary_service/src/secretary_service/postgres_outbox.py:220-237 | a row is marked exactly when it runs past its deadline |
| JobClaims.ReconcileExactly | mac/secretary_service/src/secretary_service/postgres_outbox.py:239-253 | the whole table after a reconciliation |
| JobClaims.OnlyTheClaimantFinishes | mac/secretary_service/src/secretary_service/postgres_outbox.py:186-218 | over every run: if completing or cancelling changes anything, a claim earlier in the run handed that job out with exactly that token |
| JobClaims.TheClaimantMayFinish | mac/secretary_service/src/secretary_service/postgres_outbox.py:186-218 | over every run: the token a claim handed out completes the job, as long as it runs, at every time before the lesser of the claim's end and the authorization's and at no later one, and cancels it at any time |
| DurableCalendar.JobsBounded | mac/secretary_service/src/secretary_service/durable_calendar.py:47-77 | over every run a proposal has at most one job more than resets granted in that run, and each is handed out at most once |
| DurableCalendar.RunGeneration | mac/secretary_service/src/secretary_service/durable_calendar.py:47-77 | over every run the generation grows by exactly the granted resets |
| DurableCalendar.CalendarDispatch.Approve | mac/secretary_service/src/secretary_service/durable_calendar.py:47-77 | granted exactly when the stored calendar proposal is proposed with the fact's payload, the fact is proven and in force, its three keys are unused and no job bears its identity; then keys, proposal and job change together, otherwise nothing does |
| DurableCalendar.CalendarDispatch.ClaimVerified | mac/secretary_service/src/secretary_service/durable_calendar.py:80-121 | the loop ends and hands on exactly the first ready job in order of identity: queued, in time, its proposal still approved with the same payload and its approval valid; those before it expired out of time or were cancelled for no longer holding, and all others stay |
| DurableCalendar.ApproveStepExactly | mac/secretary_service/src/secretary_service/durable_calendar.py:47-77 | the same of one approval in a run |
| DurableCalendar.ResetStepExactly | mac/secretary_service/src/secretary_service/durable_calendar.py:228-256 | a reset in a run, in the fields of the stored proposal and the fact; the jobs stay |
| DurableCalendar.OtherStepsExactly | mac/secretary_service/src/secretary_service/durable_calendar.py:47-77 | for other reasons a proposal is stored once and changes only its state, and neither touches a key or a job |
| DurableCalendar.StillHoldsExactly | mac/secretary_service/src/secretary_service/durable_calendar.py:80-121 | what holding means in the fields of the stored proposal and the approval |
| Audit.AuditLedger.AppendFacts | mac/secretary_service/src/secretary_service/ledger.py:31-75 | the new entry carries the given facts, linked to the last one or to the anchor and signed |
| Audit.AuditLedger.Verify | mac/secretary_service/src/secretary_service/ledger.py:97-114 | reports length and final hash of a chain, or the first entry that does not link |
| Audit.VerificationDecides | mac/secretary_service/src/secretary_service/ledger.py:97-114 | verification succeeds exactly on chains |
| Audit.ChainedExactly | mac/secretary_service/src/secretary_service/ledger.py:97-114 | a chain has numbers without a gap, each entry naming the hash before it and signed over its number, facts and that hash |
| Audit.AuditLedger.PruneBefore | mac/secretary_service/src/secretary_service/ledger.py:116-140 | refuses a broken chain; otherwise cuts behind the last expired entry and counts the expired ones |
| Audit.PruningIsInvisible | mac/secretary_service/src/secretary_service/ledger.py:31-140 | after every interleaving of appends and prunes the chain verifies and continues as if it had never been pruned |
| Audit.EntriesCarryFacts | mac/secretary_service/src/secretary_service/ledger.py:31-140 | after every run the ledger holds exactly the latest facts appended, in order, and its anchor counts those gone |
| Audit.PruneCountIsExact | mac/secretary_service/src/secretary_service/ledger.py:125-140 | the answered count is the number of deleted entries exactly when the expired entries are a prefix; otherwise current entries are deleted too |
| Audit.OrderedTimesPruneExactly | mac/secretary_service/src/secretary_service/ledger.py:125-140 | entries in order of time are always pruned exactly |
| Audit.BackwardClockPrunesTooMuch | mac/secretary_service/src/secretary_service/ledger.py:125-140 | an entry newer than the cutoff is deleted when an older one follows it |
| Audit.HeadBoundLedger.AppendFacts | mac/secretary_service/src/secretary_service/postgres_store.py:301-335 | the new entry carries the given facts, extends the chain from the head and moves the head |
| Audit.HeadBoundLedger.Verify | mac/secretary_service/src/secretary_service/postgres_store.py:181-200 | succeeds exactly when the chain links and ends at the stored head |
| Audit.AppendHeadVerifies | mac/secretary_service/src/secretary_service/postgres_store.py:301-335 | appending keeps a verifying ledger verifying |
| Audit.HeadDeterminesEntries | mac/secretary_service/src/secretary_service/postgres_store.py:181-200 | two entry lists that verify against the same head are equal |
| Audit.HeadCarriesFacts | mac/secretary_service/src/secretary_service/postgres_store.py:301-335 | after every run the bound chain has one entry for each fact appended, in order, and no other list verifies against its head |
| Audit.PrefixVerifies | mac/secretary_service/src/secretary_service/ledger.py:97-114 | without a head every prefix of a chain verifies, so a lost tail goes unnoticed |

## Left out

- Cryptography, encrypted files, TLS, Keychain and OAuth: injective hashes and booleans stand for them.
- Time zones and daylight saving: instants are UTC minutes.
- The text of explanations, reasons and prompts: only the codes that decide behaviour are kept.
- The live calendar transport, HTTP routes, views, voice and widgets: input and output.
- SQL, JSON and validation plumbing: a malformed record is not representable, and a transaction is one step.
- Several devices writing one conversation at the same time, and deleting a conversation during delivery:
  the server answers with a conflict; the delivery theorem covers the conversations one device writes.
- Conversation retention and deletion in `relay_store.py`: after 180 days, or on request, a whole conversation with its log is removed.
- The audit entries written beside each transition: the chain itself is modelled on its own.
- The approval matrix: whether a proof is allowed for an action is part of the fact's boolean.
- Delivery.ExactlyOnceInOrder: says nothing about when messages arrive; that an acceptable batch is delivered by an undisturbed round is `Delivery.RoundDelivers` and `Delivery.RoundEmpties`.
- CalendarPlan.StoppedApplyResumes: compares contents without revision numbers, because a repeated write counts one more revision.
- Planner.ProposeDay: leaves out the input fingerprint, the revision, the time zone and the resolution of the result, because they are copied or hashed from the request.
- PlannerExplanation.ExplainOne: leaves out the sentences and the list of constraints of an explanation, because they are text about the same fields.
- Outbox.EncryptedOutbox.Snapshot: the encoded size of a batch is an arbitrary function, because the encoder is not part of this model.
- The workers, memory, storage, backup and interview modules: outside the five parts.
