# Verified model of the access-control service

A Dafny 4.11 model of the `access_control` service and of the edge devices that execute its commands,
with proofs of what the service promises over whole runs. `dafny verify dfyconfig.toml` checks everything.

## The system

A camera at a gate reports a passage. The service receives it idempotently, decides it (allow, deny or
manual review), records the answer in an append-only chain of decision rows, and on an allow writes one
command into a durable outbox. An edge controller gets the command twice: with the answer of the
ingestion and through lease and acknowledgement. A guard resolves manual reviews, opens barriers by hand
and redeems guest codes; a worker expires reviews that nobody resolved; a back office edits the registry.

The project has three layers.

- **Specification on values.** `Domain`, `Engine`, `Queries`, `Transactions` and `Outbox` say what each
  query answers and what each transaction writes. A transaction that holds an advisory lock is split where
  the service reads first and writes later: `Begin...` is what is read under the lock, `Commit...` what is
  written before its release. The engine's read of a pass and the worker's read of its list are therefore
  separate steps from the compare-and-set and the re-check that follow them, and can be stale.
- **Transition system.** `System` interleaves every transaction, the worker, leases, acknowledgements,
  deliveries, edge restarts and administration, with arbitrary clocks. A run is any finite list of steps.
  `Chains`, `CoreSafety`, `LockRace`, `LooseChains`, `ReceiptSafety`, `Growth`, `Redelivery`, `DuplicateRun`,
  `EndToEnd`, `AllowRace`, `OutboxLaws`, `LeaseRace`, `PassLaws`, `PresenceLaws`, `SpotBound`, `OpeningLaws`,
  `ResolveLaws`, `BarrierLaws`, `PassageLaws`, `RedeemLaws`, `Expiry` and `WorkerCount` prove the safety
  of all runs, or exactly when it holds; `SystemLaws` ties its steps to the services.
  `EngineAnswers` says what each answer of the engine means in the rows it reads;
  `EngineLaws`, `EngineLinks`, `EngineOrder` and `ScopeLaws` say which edits can lower an answer of the engine,
  where the order of rows matters to it, and what scope a controller may claim.
- **Code that changes state.** `Repositories`, `Services`, `EdgeConsumer`, `Management`, `Requests`,
  `FailureStore`, `RedeemEndpoint`, `HashChain` and `Nonces` follow the service statement by statement in
  classes and methods; each method is proved equal to the specification the other layers reason about.

`Json`, `HashChain`, `Lockout`, `LockoutRedis`, `LockoutTight` and `Nonces` hold the laws of the canonical
JSON, the hash chain, the lockout and the replay protection.

Parameters, not modelled: clocks (arbitrary instants), the plate normaliser, SHA-256 and HMAC (a function
argument with a stated shape of results), the relay's answer, the outcome of a controller's key and
signature checks. Row ids are positions in their tables; a command id or a decision group is the position
of the row or of the event it stands for.

## What the proofs found

- Two active barriers on one gate break the decision chain: resolve and ingestion lock the lowest active
  barrier of the gate, the worker every active barrier it joins, so a denial and an expiry can supersede
  the same pending row. `LockRace.ChainSafeExactlyWhenLocksCoincide` gives the exact condition.
  `AllowRace.CallsAllowedExactlyWhenOpeningKeysCoincide` says when this can make an opened event one that is
  not allowed. That an event is opened at most once, and that redeliveries get the stored answer, holds for all
  equipment.
- A standalone opening at a second active barrier can go through while a review of its gate is pending, but only
  when clocks differ by more than the review deadline (`OpeningLaws.OpeningsClearExactlyWhenOpenersCoincide`,
  `OpeningLaws.TimelyOpeningClears`).
- A nonce must live at least twice the freshness window plus one second. The comment at
  `access_control/services/device_auth.py:51` asks only for the window, and the defaults (300 s and 600 s)
  are one second short: a request is accepted at both ends of its window.
- The check and the record of a wrong guest code are separate, so `m` concurrent attempts allow `4 + m`
  wrong codes in a window, not 5. With the Redis store a sliding window can hold `7 + 2m`, 9 one at a time.
- The engine reads free spots without a lock of its own: two vehicles of one apartment that enter through
  different barriers can both take the last spot. A zone's spots are safe exactly
  when the gates of all registered controllers that may let vehicles into it have one lock key
  (`SpotBound.SpotsSafeExactlyWhenOneEntryKey`): one lane is safe, two lanes are not. Only registered controllers
  submit passages, as `access_control/services/device_auth.py:363-373` sees to.
- A guest code for a zone whose barrier has no controller ends in an unhandled error
  (`access_control/services/one_time_codes.py:142`), not in the general rejection; no attempt is recorded.
  `RedeemLaws.FaultFreeExactlyWhenZonesServed` gives the exact condition.
- A new link between vehicle and apartment can lower answers of the engine, in a full shared zone and, for the
  linked vehicle itself, in an assigned one (`EngineLinks.SafeExactlyWhenItSpares`).
- Two taxi passes of one plate created at the same instant leave the pass that answers to the database.
- An edge that cannot read its store file starts with an empty record
  (`access_control/edge/command_consumer.py:70-75`) and may open again what it opened before.
- An exit that claims another controller's zone or gate is denied, although exits are otherwise always allowed.
- A window duplicate captured before the event it was matched to can get another answer later
  (`DuplicateRun.SecondMatchTakesOver`).
- A lease that is rolled back puts an older command behind a younger one (`LeaseRace.RollbackInvertsTheOrder`).
- A vehicle can be reactivated or created by a review only if no other vehicle holds its plate; otherwise
  the table's partial unique index raises an unhandled error.

## Model

| member | source | states |
|---|---|---|
| CoreSafety.ReachableIsSound | access_control/services/ingestion.py:403-613 | In every reachable state, where no owned gate has two active barriers: keys are unique, stored repeats of a passage are strictly more than the window apart, every event has one initial decision and at most one transition out of a pending row, and whatever a transaction read under its lock is still true |
| CoreSafety.CommitSound | access_control/services/lifecycle.py:314-481 | There every commit keeps these properties and adds events and decisions under its own lock key only |
| CoreSafety.HeldStable | access_control/services/locks.py:27-60 | There, while one key commits, everything another key's transaction read stays true |
| CoreSafety.WorkerTakeKeeps | access_control/services/review_expiry.py:94-103 | A row of a stale due list, re-checked under its lock, never breaks the chain |
| CoreSafety.JoinedKeyIsEventKey | access_control/services/review_expiry.py:75-92 | The key the worker's join finds is the key ingestion and resolve lock, when no owned gate has two active barriers |
| LockRace.ChainSafeExactlyWhenLocksCoincide | access_control/services/locks.py:85-105 | Every run keeps one chain per event if and only if no gate that belongs to a controller has two active barriers |
| LockRace.RaceExists | access_control/services/review_expiry.py:75-104 | For every other configuration, a run in which a denial and an expiry supersede the same row |
| Chains.AtMostOneTransition | access_control/repositories/decisions_repo.py:135-178 | Two transitions of one event are the same row, and nothing supersedes it |
| Chains.FinalRowsStay | access_control/services/lifecycle.py:363-367 | Only a pending initial row can be superseded; terminal and direct answers are final |
| Chains.LatestIsUnsuperseded | access_control/repositories/decisions_repo.py:36-47 | The row with the largest id is the current decision if and only if nothing supersedes it |
| Chains.PendingTwoWays | access_control/services/review_expiry.py:118-132 | The worker's re-check and the max-id query agree on what is pending |
| Chains.ExpireListedRows | access_control/services/lifecycle.py:484-501 | Expiring a list of distinct pending rows appends exactly one transition for each, in order, and keeps the chain |
| ResolveLaws.OverdueExpires | access_control/services/lifecycle.py:328-361 | A resolution of a review whose deadline has passed answers expired, whatever was asked, and writes the expiry and its journal entry, no command and no opening |
| ResolveLaws.OpensExactlyWhen | access_control/services/lifecycle.py:368-436 | A review that is not overdue is opened if and only if the request has a reason, a barrier and the pending decision and the first active barrier of the event's gate has a controller; then that barrier's command, its opening and the transition are written; otherwise the refusal says which of these failed and nothing changes |
| ResolveLaws.DeniesExactlyWhen | access_control/services/lifecycle.py:438-481 | It is denied if and only if the request has a reason and names no other decision; no command and no opening |
| ResolveLaws.OthersOnlyAnswer | access_control/services/lifecycle.py:309-367 | Every other request changes nothing; a closed case answers with its status and the command of its opening |
| ResolveLaws.ClosedInTime | access_control/services/lifecycle.py:328-361 | In every run a review closed by hand was closed by a resolution whose time was not past the deadline of the row it supersedes |
| Growth.RunGrows | access_control/repositories/decisions_repo.py:1-6 | No run removes or changes a row of an append-only table, or the identity of a command |
| ReceiptSafety.ReachableReceipt | access_control/services/ingestion.py:403-613 | In every reachable state on any equipment keys are unique, stored repeats of a passage are strictly more than the window apart, every event has an initial decision, and an accepted passage in flight still repeats nothing stored |
| Redelivery.ReplayInEveryRun | access_control/services/ingestion.py:424-431 | In every run on any equipment, once a key is stored, redelivering it after any further steps changes no table and returns the answer stored before them |
| Redelivery.FirstAnswerInEveryRun | access_control/services/ingestion.py:605-613 | In every run on any equipment, the answer of the first delivery, with its ids and command, is the answer of every later one, marked as replayed |
| Redelivery.RecordedAnswer | access_control/services/ingestion.py:206-228 | The stored row and command read back as the answer that was given |
| Redelivery.AtMostTwoMatches | access_control/repositories/camera_events_repo.py:49-76 | A window lookup never has three candidates |
| Redelivery.StableExactlyWhenNotLater | access_control/repositories/camera_events_repo.py:59-66 | A match keeps answering in every table of separated events if and only if it was not captured after the duplicate |
| DuplicateRun.SecondMatchTakesOver | access_control/repositories/camera_events_repo.py:49-76 | At every owned gate with a positive window, a run in which a duplicate answered by one event gets another event's answer later |
| DuplicateRun.DuplicatesStableExactlyWhenNoWindow | access_control/services/ingestion.py:442-446 | On any equipment, window duplicates keep their answer in every run if and only if the window is a single instant or no gate belongs to a controller |
| Redelivery.DuplicateInEveryRun | access_control/services/ingestion.py:442-446 | In every run on any equipment, a duplicate of a stored event not captured after it is never stored itself, and every later redelivery gets that event's answer |
| EndToEnd.AtMostOneOpeningPerEvent | access_control/edge/command_consumer.py:141-151 | In every run on any equipment, with replays, both delivery paths and restarts, a camera event causes at most one relay call; where lock keys coincide its current decision is then allow |
| AllowRace.CallsAllowedExactlyWhenOpeningKeysCoincide | access_control/services/lifecycle.py:381-418 | Every event whose barrier was opened is allowed now, in every run, if and only if no owned gate that a resolution can open has a second active barrier |
| AllowRace.SecondBarrierBreaksCalls | access_control/services/review_expiry.py:75-104 | For every other equipment, a run that opens a barrier for an event whose current decision is then expired |
| LooseChains.ReachableIsLoose | access_control/services/lifecycle.py:314-418 | In every reachable state on any equipment an event has one initial decision, only pending initial rows are superseded, and at most one row resolves the event by opening |
| EndToEnd.OneCommandPerEvent | access_control/repositories/barrier_commands_repo.py:58-85 | Over its whole decision chain an event has at most one command |
| EndToEnd.CommandOpenedAtMostOnce | access_control/edge/command_consumer.py:165-228 | Over all relays together a command is opened at most once |
| EndToEnd.CommitAnswerOwner | access_control/services/ingestion.py:552-562 | A command that travels with an ingestion answer belongs to the controller that gets the answer |
| BarrierLaws.CommandsOrderTheirBarrier | access_control/services/ingestion.py:552-562 | In every run a command for a decision orders the first active barrier of the gate its event passed, from the controller that reported the passage or, for a resolution, the one that serves the barrier; a command for none belongs to an opening |
| BarrierLaws.OpeningsOrderTheirBarrier | access_control/services/lifecycle.py:541-551 | In every run the command of an opening orders that opening's barrier, from the controller the equipment gives it, and openings share no command |
| BarrierLaws.CallsOpenTheirBarrier | access_control/edge/command_consumer.py:141-151 | In every run a relay call that an event caused opens the first barrier of the gate the event passed |
| BarrierLaws.AllowedPassageOpens | access_control/edge/command_consumer.py:165-179 | In every run, once a passage that is allowed directly at a barrier is recorded and its answer reaches the device, the relay of its controller is called, for that passage's barrier |
| OutboxLaws.RunAdvances | access_control/api/commands.py:110-132 | Over any run statuses only go pending, leased, acknowledged; a command is leased at most once and outlives its lease |
| OutboxLaws.LeaseTakes | access_control/api/commands.py:92-145 | A lease takes an oldest pending command of the controller that outlives the lease, for thirty seconds under the given token; none only when there is none |
| OutboxLaws.AckCloses | access_control/api/commands.py:169-232 | An acknowledgement under the lease's token closes the command with its result, a repeat returns the saved result, anything else conflicts |
| OutboxLaws.LeasesFollowCreationInEveryRun | access_control/api/commands.py:119-130 | In every run, leases of a controller that do not overlap come in creation order among commands already in the table, never the same twice |
| LeaseRace.LeasesInOrderUnlessRolledBack | access_control/api/commands.py:119-130 | With overlapping leases and skipped locks the same order holds, unless the command leased second was locked and rolled back in between |
| LeaseRace.RollbackInvertsTheOrder | access_control/api/commands.py:126-127 | Such a rollback does invert the order wherever a controller has two commands on offer: while the oldest is locked a younger one is leased, and after the rollback one as old as the oldest is next |
| LeaseRace.AloneIsAtomic | access_control/api/commands.py:92-145 | A lease that meets no lock is the atomic lease of the transition system |
| OutboxLaws.SkippedInEveryRun | access_control/api/commands.py:99-101 | In every run, a command a lease passes over is never leasable later |
| OutboxLaws.FirstResultInEveryRun | access_control/api/commands.py:169-232 | In every run, every later acknowledgement under the token returns the first result, after any steps, and changes nothing |
| OutboxLaws.OnlyTheHolderInEveryRun | access_control/api/commands.py:187-207 | In every run, an acknowledgement changes the table if and only if the command is leased to that controller under that token |
| PassLaws.PassConservation | access_control/services/ingestion.py:493-509 | In every reachable state a pass has used exactly the entries its recorded admissions and redemptions granted, never more than its limit |
| PassLaws.LostRaceIsDenied | access_control/services/ingestion.py:501-509 | An allow that finds its pass spent is recorded as denied `pass_already_used`, without command, session or entry |
| PassLaws.LastEntryGoesOnce | access_control/repositories/passes_repo.py:10-27 | Of two transactions that read the same last entry one admits and the other is denied |
| PresenceLaws.PresenceAgreesWithJournal | access_control/services/ingestion.py:564-584 | In every reachable state a vehicle has at most one open session per zone, and the open pairs are the fold of the journal over allowed entries, allowed exits and manual closes |
| PresenceLaws.ClosedStaysClosed | access_control/repositories/presence_repo.py:56-78 | A closed session never reopens, so a close that read an old row is safe |
| PresenceLaws.CloseWrites | access_control/services/presence.py:41-108 | Closing by hand ends an open session with operator, time and reason and writes one audit row; a closed one is a replay, an unknown one is refused |
| SpotBound.NeverOverfilled | access_control/services/decision_engine.py:198-263 | If all entries of registered controllers into the zone that claim nothing foreign lock one key, with one undated link per vehicle, no rule for the zone and enforced undated assignments of its spots, an apartment never has more open sessions in it than active spots |
| SpotBound.AllowMeansFreeSpot | access_control/services/decision_engine.py:232-255 | Under these hypotheses an allow of an entry proves a free spot of the vehicle's apartment |
| SpotBound.SpotsSafeExactlyWhenOneEntryKey | access_control/services/decision_engine.py:232-255 | Every run over every fixed site, with passages of registered controllers, keeps the bound if and only if the equipment has at most one entry key: the keys at the gates of the controllers that are in the zone, or in none, all agree |
| SpotBound.EntryLocksEntryKey | access_control/services/ingestion.py:165-203 | Every entry of a registered controller into the zone that claims nothing foreign locks one of these keys |
| SpotBound.EntryKeyHasEntry | access_control/services/ingestion.py:165-203 | Each of these keys is locked by such an entry |
| SpotBound.OneLaneIsSafe | access_control/services/decision_engine.py:232-255 | A zone with one controller, one gate and one barrier is never overfilled |
| SpotBound.TwoLanesAreNot | access_control/services/decision_engine.py:232-255 | A zone with two lanes, each with its own controller, gate and barrier, can be |
| SpotBound.TwoKeysOverfill | access_control/services/decision_engine.py:239-255 | Any two entries of registered controllers with different keys give a run from empty tables in which two vehicles of one apartment take its one spot |
| OpeningLaws.OpeningClearsTheGate | access_control/services/lifecycle.py:525-564 | A standalone opening succeeds if and only if every pending review at the gate is overdue, then leaves none; otherwise it names one that is active and opens nothing |
| OpeningLaws.OpeningWrites | access_control/services/lifecycle.py:504-573 | A standalone opening without a reason or of a barrier nobody serves changes nothing; any other expires exactly the overdue reviews of the gate and, if it goes through, orders the named barrier from its controller for two minutes and records opening and audit row |
| OpeningLaws.OpeningsClearExactlyWhenOpenersCoincide | access_control/services/lifecycle.py:504-573 | With arbitrary clocks, a standalone opening that commits leaves no review pending at its gate, in every run, if and only if every barrier of an owned gate that can be opened is the one whose id keys the gate's passages |
| OpeningLaws.TimelyOpeningClears | access_control/services/lifecycle.py:504-573 | On any equipment it does so in every run whose clocks differ by no more than the review deadline: no opening in flight took its time more than 120 s after the clock of a commit |
| OpeningLaws.LaterReviewsInEveryRun | access_control/services/ingestion.py:511-528 | In every run on any equipment, every review recorded after a manual opening of its barrier is of a passage captured strictly after it |
| Expiry.TakenExactlyOnce | access_control/services/review_expiry.py:94-115 | Any due list, stale or with repeats, expires each of its still-pending decisions exactly once, writes nothing else and counts exactly these |
| Expiry.TickClearsOverdue | access_control/services/review_expiry.py:63-115 | After a tick that nothing interrupts a decision is pending if and only if it was pending and not overdue |
| Expiry.TickCountsGroups | access_control/services/review_expiry.py:94-115 | The number it returns is the number of events whose current decision changed, and these are the events that were due |
| Expiry.SecondTickIsIdle | access_control/services/review_expiry.py:63-115 | A second tick at the same instant returns 0 and changes nothing |
| WorkerCount.ReportsCountEvents | access_control/services/review_expiry.py:94-115 | For any number of workers whose reads, takes and commits interleave with everything else, where no owned gate has two active barriers: the expiries they report over any part of a run are as many as the events they expired in it, each of which is expired afterwards and was not before |
| EngineAnswers.ReasonsExactly | access_control/services/decision_engine.py:95-412 | For every registry and event the engine gives each reason if and only if the rows say so: which rules are active, in force, for the zone and direction and for the vehicle or an apartment linked to it; which spots are rented, run out or taken; which apartments are served and over the cap; which pass answers and why it does or does not admit |
| EngineAnswers.ReasonFixesAnswer | access_control/services/decision_engine.py:395-412 | The reason fixes decision and status; the answer names the vehicle found, or a newest active or used taxi pass of the plate |
| EngineAnswers.PassAllowMeans | access_control/services/decision_engine.py:369-392 | An allow on a pass means that the moment lies within its dates, that it is not for another zone than the event's, and that it has an entry left |
| EngineAnswers.IdleRuleMightBeRemoved | access_control/services/decision_engine.py:126-156 | A rule that is off, out of date, for another zone or direction, or for neither the vehicle nor an apartment linked to it leaves the answer what it is without the rule |
| EngineAnswers.SwitchedOffIsRemoved | access_control/services/decision_engine.py:136-143 | Switching a rule off gives every event the answer it gets when the row is removed |
| EngineAnswers.SyncWithdraws | access_control/services/management.py:245-286 | After a sync that leaves a zone out, no entry of the vehicle into it is allowed by rule unless a rule of an apartment applies |
| EngineLaws.DecideMonotone | access_control/services/decision_engine.py:395-412 | Adding a rule or an assignment, clearing a limit, closing a session, raising or removing the shared cap never lowers the answer to any event |
| EngineLaws.RelaxationsNeverLower | access_control/services/decision_engine.py:126-156 | Nor does any sequence of such edits |
| EngineLaws.LinkingAVehicleCanLowerAnAnswer | access_control/services/decision_engine.py:266-300 | Linking another vehicle is not such an edit: in this capped shared zone it turns an allow into a review |
| EngineLinks.LinkLowersExactlyWhenItHurts | access_control/services/decision_engine.py:177-300 | For every event: a new link lowers its answer if and only if it fills the cap of a shared zone, or brings the judged vehicle an apartment with so many more cars inside than spots that its free spot is gone |
| EngineLinks.SafeExactlyWhenItSpares | access_control/services/decision_engine.py:266-300 | A new link never lowers any answer if and only if it does neither to any vehicle, zone and moment |
| EngineLinks.SafeLinks | access_control/services/management.py:152-188 | Links that are not active, or of vehicles that are not, are safe; room under the caps makes others safe for all vehicles but the linked one, and for it outside assigned zones or when it belongs to the apartment already |
| EngineLinks.OwnLinkCanCrowdOut | access_control/services/decision_engine.py:232-255 | Room under the caps is not enough for the linked vehicle itself |
| EngineOrder.RowOrderIrrelevant | access_control/services/decision_engine.py:109-263 | The order of links, rules, assignments and sessions never changes an answer |
| EngineOrder.VehicleOrderIrrelevantExactlyWhenPlatesUnique | access_control/services/decision_engine.py:311-321 | The order of vehicles never changes an answer or the vehicle it names if and only if no two vehicles that are not archived share a plate |
| EngineOrder.PassOrderIrrelevantExactlyWhenNewestUnique | access_control/services/decision_engine.py:369-392 | The order of passes never matters to a plate if and only if a vehicle carries it or one candidate pass is newer than all others |
| EngineOrder.LinkOrderIrrelevantExactlyWhenOneApartment | access_control/repositories/access_events_repo.py:36-45 | The order of links never changes the apartment of a session if and only if the vehicle's active links name one apartment |
| ScopeLaws.ScopeIsOwn | access_control/services/ingestion.py:165-203 | The authorised zone, gate and barrier are the controller's own, a controller without a zone gets the one it claims; a foreign claim, and only that, is a violation |
| ScopeLaws.DefaultGateIsFirst | access_control/repositories/equipment_repo.py:27-39 | A passage that claims no gate is at the controller's active gate with the smallest id, at none only when it has no active gate |
| ScopeLaws.BarrierIsFirst | access_control/repositories/equipment_repo.py:42-50 | Its barrier is the active barrier of the gate with the smallest id, none only when the gate has none |
| ScopeLaws.ForeignClaimOpensNothing | access_control/services/ingestion.py:462-471 | A passage with a foreign claim is recorded as denied `zone_not_allowed` and orders no opening, spends no pass and moves no session |
| ScopeLaws.ExitIsNeverRefused | access_control/services/ingestion.py:273-290 | Any other exit is allowed in every state and spends no pass |
| PassageLaws.ExitFreesTheSpot | access_control/services/ingestion.py:564-584 | Once an exit is recorded whose plate is that of one vehicle that is not archived, that vehicle has no open session in the zone, and no other session changed |
| PassageLaws.EntryThenExit | access_control/services/ingestion.py:564-584 | In every run a vehicle that is let into a zone occupies one spot of its apartment there, and when it leaves the occupancy of every apartment is what it was before |
| PassageLaws.AcceptedExactlyWhenNew | access_control/services/ingestion.py:424-446 | A passage is accepted if and only if its key is not stored and no stored passage has its gate, direction and plate within the window; otherwise the answer is the one saved for its key, or for an earliest captured passage it repeats |
| PassageLaws.AcceptedCarries | access_control/services/ingestion.py:409-484 | An accepted passage carries the message with the authorised scope; an exit looks up its plate and is allowed, an entry gets the engine's answer to the message, a foreign claim is denied |
| PassageLaws.PassageWritten | access_control/services/ingestion.py:487-613 | Field by field what recording it writes: one event, one decision with its deadline, one command exactly on a direct allow at a barrier, one entry of the pass, the session that starts or ends, one journal entry, and the answer that reports them; a key stored meanwhile writes nothing |
| Engine.FindVehicle | access_control/services/decision_engine.py:303-318 | The first vehicle with the plate that is not archived |
| Engine.FindTaxi | access_control/services/decision_engine.py:369-383 | A newest taxi pass for the plate that is active or used up |
| Engine.ApartmentOf | access_control/repositories/access_events_repo.py:36-45 | The apartment of an active link of the vehicle, none exactly when it has no active link |
| Engine.FirstLinkDecides | access_control/repositories/access_events_repo.py:36-45 | Of several active links the first decides |
| Queries.FindWindowDuplicate | access_control/repositories/camera_events_repo.py:36-76 | An earliest captured stored match with a decision, none exactly when there is no such match |
| Queries.ActivePendingAt | access_control/repositories/decisions_repo.py:50-68 | A pending review of the gate that is not overdue, none exactly when all are overdue |
| Queries.OverdueAt | access_control/repositories/decisions_repo.py:71-89 | Exactly the overdue pending reviews of the gate, each once, ascending |
| Outbox.NextLeasable | access_control/api/commands.py:119-130 | An oldest pending command of the controller that outlives the lease, none exactly when there is no such command |
| Transactions.DueRows | access_control/services/review_expiry.py:75-92 | A row is in the list if and only if it pairs an overdue current pending decision with a key its barrier join yields |
| Domain.FirstActiveBarrier | access_control/repositories/equipment_repo.py:42-50 | An active barrier of the gate, none exactly when the gate has none |
| Repositories.Tables.InsertIdempotent | access_control/repositories/camera_events_repo.py:109-142 | Stores the event unless its key is taken, and says which |
| Repositories.Tables.InsertInitial | access_control/repositories/decisions_repo.py:92-132 | Appends the initial row of the event and keeps all others |
| Repositories.Tables.InsertTransition | access_control/repositories/decisions_repo.py:135-178 | Appends the row that supersedes the given one, same event, without deadline |
| Repositories.Tables.CreateOpenCommand | access_control/repositories/barrier_commands_repo.py:43-85 | At most one command per decision; a repeat returns the stored one |
| Repositories.Tables.ConsumeTaxiEntry | access_control/repositories/passes_repo.py:10-27 | Spends one entry if and only if one is left |
| Repositories.Tables.OpenSession | access_control/repositories/presence_repo.py:23-53 | Starts a session if and only if the vehicle has none open in the zone |
| Repositories.Tables.CloseOpenSession | access_control/repositories/presence_repo.py:56-78 | Ends the open session of the vehicle in the zone, if any, and no other |
| Repositories.Tables.CloseSessionManual | access_control/repositories/presence_repo.py:140-161 | Closes the session if and only if it is open |
| Services.RunIngest | access_control/services/ingestion.py:403-613 | The whole ingestion does what its read phase followed by its write phase do in the transition system |
| Services.RecordIngest | access_control/services/ingestion.py:448-613 | The write phase, with the insertion that may lose to another transaction |
| Services.SettleAnswer | access_control/services/ingestion.py:487-528 | The answer after the pass is spent or found spent and after a review meets a recent opening or gets its deadline |
| Services.UpdateSessions | access_control/services/ingestion.py:564-584 | Allowed exits end a session, direct allows of entries start one, nothing else touches sessions |
| Services.ResolveEvent | access_control/services/lifecycle.py:291-481 | Resolving refines the transition system's resolve, with every refusal |
| Services.LazyExpire | access_control/services/lifecycle.py:484-501 | The loop appends exactly the specified expiries |
| Services.ManualOpenBarrier | access_control/services/lifecycle.py:504-573 | The standalone opening refines the transition system's, with every refusal |
| Services.TakeList | access_control/services/review_expiry.py:94-115 | The worker's loop over an arbitrary list, with its count |
| Services.ExpireDueReviews | access_control/services/review_expiry.py:63-115 | A whole tick, whose laws are in `Expiry` |
| Services.RedeemCode | access_control/services/one_time_codes.py:171-280 | Redeeming refines the transition system's redemption, with every refusal |
| RedeemLaws.RedeemedMeans | access_control/services/one_time_codes.py:116-280 | A redemption is of a guest pass with the presented hash that is active, not past its end and not spent; it spends one entry and opens the named barrier, or else the active barrier with the smallest id at a gate of the pass's zone; everything else changes nothing, and a hash that no such pass carries is rejected |
| RedeemLaws.GoodCodeOpens | access_control/services/one_time_codes.py:116-162 | Conversely the first such pass is redeemed whenever its barrier is served |
| RedeemLaws.StaleCandidate | access_control/services/one_time_codes.py:216-236 | Whatever happened since the pass was read, an entry is spent if and only if it is still active and has one left; else the code is rejected and nothing is written |
| RedeemLaws.ZoneBarrierIsFirst | access_control/services/one_time_codes.py:129-142 | The barrier of a zone is its active barrier with the smallest id, none only when the zone has none |
| RedeemLaws.FaultFreeExactlyWhenZonesServed | access_control/services/one_time_codes.py:116-142 | No redemption in a reachable state ends in an unhandled error if and only if the active barrier with the smallest id in each zone, where there is one, has a controller |
| RedeemLaws.ServedZonesNeverFault | access_control/services/one_time_codes.py:116-142 | Under that condition none does in any state |
| RedeemLaws.UnservedZoneFaults | access_control/services/one_time_codes.py:129-142 | For every other zone, a pass and a request that end in the error |
| Services.FinishRedeem | access_control/services/one_time_codes.py:216-280 | The compare-and-set and what follows it; a pass spent meanwhile is rejected and nothing is written |
| Services.ClosePresenceSession | access_control/services/presence.py:41-108 | Closing by hand from a row read earlier: one journal entry when the session was still open, else a replay |
| Services.LeaseOnce | access_control/api/commands.py:92-145 | One atomic lease |
| Services.AckCommand | access_control/api/commands.py:169-232 | The compare-and-set acknowledgement with its replay |
| SystemLaws.IngestIsAtomic | access_control/services/ingestion.py:403-613 | Begin and commit of an ingestion that nothing interrupts leave the tables as the whole transaction does, and no key held |
| SystemLaws.ResolveIsAtomic | access_control/services/lifecycle.py:291-481 | The same for a resolution |
| SystemLaws.OpenIsAtomic | access_control/services/lifecycle.py:504-573 | The same for a standalone opening |
| SystemLaws.RedeemIsAtomic | access_control/services/one_time_codes.py:171-280 | The same for a redemption |
| SystemLaws.TakeIsAtomic | access_control/services/review_expiry.py:94-104 | The same for a worker that takes one row of its list |
| EdgeConsumer.EdgeCommandConsumer.OpenOnce | access_control/edge/command_consumer.py:141-151 | One relay call for a command never processed, none for one that was; the record and the file follow |
| EdgeConsumer.EdgeCommandConsumer.OnFastPath | access_control/edge/command_consumer.py:165-179 | No command is called twice and the record holds exactly the commands called, whatever arrives |
| EdgeConsumer.EdgeCommandConsumer.PullOnce | access_control/edge/command_consumer.py:181-228 | One cycle acknowledges the leased command, calls the relay only if it is neither expired nor processed, and leaves other commands alone |
| EdgeConsumer.EdgeCommandConsumer.constructor | access_control/edge/command_consumer.py:67-75 | A restarted device continues safely if and only if its file could be read or nothing was opened before |
| EdgeConsumer.RestartAndRedeliver | access_control/edge/command_consumer.py:67-75 | A device restarted on a file it cannot read calls the relay again for a command it has opened; with a readable file it does not |
| EdgeConsumer.DeviceRefinesStep | access_control/edge/command_consumer.py:141-228 | A handling step of the transition system does to each device what the device's own method does, and nothing to other devices |
| Management.RuleTable.SyncVehicleZoneRules | access_control/services/management.py:245-286 | Afterwards the zones of the vehicle's active rules are exactly the requested ones, at most one rule per zone was revived or created and only for missing zones, other vehicles' rules are unchanged |
| Management.SecondSyncIsIdle | access_control/services/management.py:245-286 | A repeated sync changes nothing |
| Management.RuleTable.WakeMissing | access_control/services/management.py:270-286 | Every missing zone gets exactly one active rule |
| Management.DropThenWake | access_control/services/management.py:259-286 | Dropping the other zones and waking the missing ones meets the sync's promise |
| Requests.GrantsTakeEffect | access_control/services/management.py:689-803 | After approval of a resident's pending request every confident entry with its plate in an approved zone is decided `permanent_vehicle_allowed`, in any later registry that keeps the vehicle and its rules |
| Requests.SecondReviewCreatesNothing | access_control/services/management.py:716-723 | A second review of a request, with any action, changes nothing and returns the first result |
| Requests.RefusedExactlyWhenPlateTaken | access_control/services/management.py:661-686 | An approval fails if and only if another vehicle that is not archived holds the plate; plates stay unique |
| Requests.ReviewLeaves | access_control/services/management.py:689-803 | A first review files its result on the request and in one audit row; an approval leaves the named vehicle, the plate's holder or a new one active, with an active link to the request's apartment and one entry rule for each approved zone, and no other vehicle, link or rule changed; a rejection changes none; a refusal changes nothing |
| Requests.OtherReviewsChangeNothing | access_control/services/management.py:700-723 | An unknown action, an unknown request and a reviewed one change nothing |
| Requests.ExplicitRuleAllows | access_control/services/decision_engine.py:303-339 | An explicit zone rule of an active vehicle decides its entries there |
| Requests.RequestDesk.Review | access_control/services/management.py:689-803 | The review refines the specified one, with its refusals and its audit row |
| Requests.RequestDesk.ResolveOrCreateVehicle | access_control/services/management.py:661-686 | The named vehicle, else the plate's holder, else a new one |
| Requests.RequestDesk.EnsureActiveLink | access_control/services/management.py:152-188 | Afterwards vehicle and apartment have an active link, by an old row with its dates or by one new undated row where there was none; no other row changed |
| Requests.LinkIsEnsured | access_control/services/management.py:166-188 | The same of the specified link table, for every table |
| Requests.SecondLinkIsIdle | access_control/services/management.py:166-178 | Linking again changes nothing |
| Requests.RequestDesk.AddZoneRules | access_control/services/management.py:745-752 | One entry rule for each approved zone, in order |
| Json.ParseInvertsPrint | access_control/services/hashchain.py:43-51 | Parsing the printed text of a payload gives the payload back, with string escapes as in section 7 of RFC 8259 |
| Json.CanonicalTextIsMeaning | access_control/services/hashchain.py:43-51 | Two payloads have the same canonical text if and only if they are equal as nested maps, whatever the order of keys |
| Json.CanonMeans | access_control/services/hashchain.py:45-47 | Sorting keys orders every object and changes no meaning |
| HashChain.BaseSplits | access_control/services/hashchain.py:86-87 | The hashed text determines the previous hash and the payload's text |
| HashChain.HeadCommitsToHistory | access_control/services/hashchain.py:75-88 | Two chains have the same head if and only if their payload histories are the same, provided their rows do not collide |
| HashChain.Linked | access_control/services/hashchain.py:83-88 | Every row's previous hash is the hash of the row before it |
| HashChain.Journal.Append | access_control/services/hashchain.py:59-88 | Appends the next link to one of the four tables and keeps all four chains; any other name is refused |
| FailureStore.InMemoryFailureStore.RecordFailure | access_control/services/code_rate_limit.py:52-73 | Despite pruning and collection, the result is the number of failures of the key in the last window of the full history |
| FailureStore.InMemoryFailureStore.FailureCount | access_control/services/code_rate_limit.py:75-77 | The same count without recording |
| FailureStore.InMemoryFailureStore.IsBlocked | access_control/services/code_rate_limit.py:172-177 | Blocked if and only if some key reached the threshold in the full history, each key counted at its own reading of the clock |
| FailureStore.InMemoryFailureStore.RecordFailures | access_control/services/code_rate_limit.py:180-187 | One failure for every key at its own reading of the clock, and whether some key was then at the threshold |
| FailureStore.WindowLength | access_control/services/code_rate_limit.py:52-66 | The list kept for a key has one entry for each failure in the window |
| FailureStore.RedisFailureStore.RecordFailure | access_control/services/code_rate_limit.py:93-98 | The fixed-window counter after one more failure |
| FailureStore.RedisFailureStore.RecordFailures | access_control/services/code_rate_limit.py:180-187 | The counters after one failure of every key at its own reading of the clock, and whether some key was then at the threshold |
| Lockout.LockoutBound | access_control/api/operator.py:345-374 | Keys are checked and recorded one at a time, in any interleaving: with at most `m` attempts between the check and the record of a key, no window ever holds more than `4 + m` of its failures, 5 one at a time |
| LockoutRedis.RedisLockoutBound | access_control/services/code_rate_limit.py:80-102 | With fixed windows a sliding window holds at most `7 + 2m`: 9 one at a time |
| LockoutTight.BoundIsReached | access_control/api/operator.py:345-374 | For every `m` above 0 some run of attempts, each with the three keys of a wrong code, reaches `4 + m` |
| LockoutTight.RedisBoundIsReached | access_control/services/code_rate_limit.py:93-102 | For every `m` above 0 some run of such attempts reaches `7 + 2m` |
| Lockout.RateLimitKeys | access_control/services/code_rate_limit.py:156-169 | Three keys, always distinct |
| Lockout.KeysSharedExactlyWhen | access_control/services/code_rate_limit.py:156-169 | Two attempts share a counter if and only if they agree in operator, in address or in code; callers without an address share one |
| Lockout.ChecksAskTheStore | access_control/services/code_rate_limit.py:172-177 | In the transition system an attempt alone passes its checks if and only if the store does not call its keys blocked |
| Lockout.RecordsFillTheStore | access_control/services/code_rate_limit.py:180-187 | And records what the store records |
| RedeemEndpoint.PostRedeemCode | access_control/api/operator.py:330-382 | A blocked caller is refused and nothing changes; a wrong code is recorded once per key and changes no table; a right code is not recorded |
| Nonces.InMemoryNonceStore.Seen | access_control/services/device_auth.py:158-177 | True if and only if the key was accepted within the last time to live, despite the clean-up |
| Nonces.Authenticate | access_control/services/device_auth.py:380-408 | Accepts if and only if credentials and signature are good, the timestamp is fresh and the nonce unseen; only an accepted request spends its nonce |
| Nonces.AtMostOnceExactlyWhenTtlSuffices | access_control/services/device_auth.py:387-408 | No run accepts a signed request twice if and only if nonces live at least twice the window plus one second |
| Nonces.DefaultsAdmitOneReplay | access_control/services/device_auth.py:48-54 | With the default settings some request is accepted twice |

## Left out

- LockoutRedis.RedisLockoutBound: INCR and EXPIRE are one step, because a crash between them is a fault outside the claim.
- EndToEnd.AtMostOneOpeningPerEvent: a crash between the relay call and the write of the store, and an unreadable store file, are outside the claim; restarts happen between operations.
- HashChain.HeadCommitsToHistory: payloads hold null, booleans, integers, strings, lists and objects; a datetime is the string it is encoded as, and floats do not occur.
- Nonces.AtMostOnceExactlyWhenTtlSuffices: the wall clock and the monotonic clock advance together; a stepped wall clock is not modelled.
- Services.RunIngest: the photo references, the original plate, the camera id and the recognition key are not stored; the engine does not read them.
- OutboxLaws.LeasesFollowCreationInEveryRun: a lease is one step of the transition system; overlapping leases, which skip each other's locked rows, are modelled in `LeaseRace` apart from the other transactions.
- Services.LeaseOnce: the long-poll loop around it only waits and tries again.
- FailureStore.InMemoryFailureStore.RecordFailure: the window is the one constant every caller passes.
- RedeemEndpoint.PostRedeemCode: written for the store in memory; with the Redis store the same three steps use its methods.
- The table locks, transactions' rollback and read-committed isolation appear as steps of the transition system, not as SQL.
- Equipment is fixed during a run; edits of gates, barriers and controllers while locks are held are not modelled.
- The freshness check of a passage's capture time is made before ingestion; the model accepts any capture time.
- Unicode normalisation, upper-casing and format recognition of plates are one parameter; blank reasons use the ASCII spaces.
- SHA-256, HMAC, Ed25519, UTF-8 encoding, snapshot signing and IP allow-lists.
- HTTP routes, request validation, roles, pagination, metrics, live events and notifications.
- Retention of photos and journals, and residents' confirmations of disputed entries, which change no decision.
- Vehicle, pass and parking administration beyond zone rules and reviews; the transition system lets passes and the registry change arbitrarily within the tables' checks.
- The displayed occupancy counts spots differently from the engine and is not modelled.
