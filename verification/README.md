# Verified model of the TrogonEventStore Rust client

This project states, in Dafny, what the hard parts of the client and of its
reservation example do, and proves it for every input, every run or every
reachable state. `dafny verify dfyconfig.toml` checks all of it.

## What is modelled

**The idempotent reservation workflow** (`examples/idempotent_reservation.rs`).
`EventLog` holds the events, the logs and the server's optimistic append.
`Inventory` is the fold over an inventory stream and the rule that accepts or
rejects a command. `OperationStream` is the reader of an operation's own stream.
`ReservationProtocol` is the whole system as a transition function: the logs, the
bag of every append request ever sent, and one choice per step. A request is never
removed from the bag, so it may be delivered any number of times and at any later
time; a sending worker is described by how much of each log it had read, and logs
only grow, so this covers every interleaving of workers that race, die, retry and
lose responses. A run is any sequence of choices. `ReservationTheorems` proves what
all runs guarantee, and `ReservationWorker` is the worker itself, as methods of a
store that other workers change before and after each of its calls; each method is
proved to move along such a run. `ProcessedOperations` is the second fold over the
same log, from the idempotency suite.

**The protobuf-to-JSON conversion** (`ProtoValue`): an explicit stack of suspended
iterators with a one-slot register, proved equal to the structural recursion.

**Client state machines**: the resuming subscription (`Subscription`), the
connection actor and node discovery (`Connection`), the batch-append dispatcher
(`Batch`), the choice of a cluster node (`NodeSelection`).

**Round trips**: log positions and persistent-subscription starts (`Positions`),
trace fields in event metadata (`TraceMetadata`, for the `traceparent` and
`tracestate` headers of W3C Trace Context, sections 3.2 and 3.3).

## What is assumed

- The server's append: with expected revision r an event goes into cell r + 1 when
  that is the next free cell; it is acknowledged again, payload not compared, when
  that cell already holds its id; otherwise it conflicts. Reads return a prefix of a
  log, which may be stale unless `readsAreCurrent` says that it covers what was stored
  at the call; reading an empty stream is a not-found error.
- What the environment does wrong is counted: `faults` are the calls the store failed
  (appends undelivered or unanswered, reads unanswered or stale), `delays` the times a
  subscription was held up (an attempt that failed, an await without an event although
  one was due). A `healthy` store has no faults and a `prompt` server no delays. Progress
  is stated in these counts, for every environment.
- Only protocol workers write operation and inventory streams, and no inventory
  stream has the name of an operation stream.
- JSON encoding is deterministic and injective, so payloads are typed values. Version
  4 ids are fresh where the code needs them to be (connection handles, batch
  correlation ids); the reservation proofs need no freshness of generated ids.
- Distinct reserve operations carry distinct reservation ids. This is stated as
  `DistinctReservations` and used only where named; without it
  `FoldsUnlessReservationReused` says exactly when a history still folds, and
  `SharedReservationIdPanics` is a run where it does not.
- An overflowing `u32` addition is a failure of the fold (it panics in a debug build
  and wraps in a release build); the proofs show that it never happens.
- A worker's step after an acknowledged append is allowed whenever the pinned cell
  holds its event, which is more than the code does.

## Findings

- Reusing an active reservation id passes the command rule, is written, and then
  every reader of the whole history panics; nothing is ever added to that stream again
  (`PanickedHistoryIsStuck`). Operations already prepared still finish, and one that is
  only requested is decided by a worker whose read stopped short of the last event
  (`EveryOperationCanFinish`) and never by workers that read everything
  (`WholeReadersNeverDecide`).
- A report without a seed, sent for a server error with a log line that announces a
  node selection (`trogon-eventstore/src/grpc.rs:1254-1260`), never replaces a live
  connection: `NodeConnection::next` returns the cached handle (952-954). The model
  follows the code.
- With `max_discover_attempts` at most 1 an unseeded connection always fails: the
  attempt counter runs out right after the first selection (1035-1046). On a healthy
  network it succeeds if and only if at least 2 attempts are configured
  (`UnseededNeedsTwoAttempts`), and in general if and only if the first reply comes
  within the attempts allowed and is one to connect on (`ConnectsInTime`, `Discover`).
- A worker whose append was acknowledged can still fail with "did not retain the
  appended transition", and that error is not retried. It happens exactly when the read
  after the append succeeds and stops short of the acknowledged cell
  (`AppendOperationEvent`; `AcknowledgedButNotSeen` is a run); it is the only
  invalid-stream error a worker can meet, and with reads that are current it meets none
  (`ExecuteOperation`).
- A subscription started at the end resubscribes at the end again until its first event
  was handed out. What it loses is exactly the wanted events between the two ends
  (`Attach`, `LostOrDelivered`); `EndForgetsUntilFirstEvent` is a run of the client that
  loses one.

## Model

| member | source | states |
|---|---|---|
| EventLog.AppendTo | trogon-eventstore/tests/api/idempotency.rs:322-450 | an append is acknowledged exactly when its target cell ends up holding its id, reports that cell's position, writes exactly its event and only into the next free cell, and never rewrites a cell |
| EventLog.RetryIsAbsorbed | trogon-eventstore/tests/api/idempotency.rs:349-419 | a retry with any payload, in any later log, changes nothing and gets the first write back |
| EventLog.ConflictIsPermanent | trogon-eventstore/tests/api/idempotency.rs:515-549 | a refused append changes nothing; one that lost its cell keeps conflicting, one ahead of the log conflicts until its cell is next |
| Inventory.ReadInventoryEvents | examples/idempotent_reservation.rs:318-372 | the reader's loop computes the fold, and panics on exactly the histories the fold refuses |
| Inventory.UnitsAreConserved | examples/idempotent_reservation.rs:333-358 | available plus the sum of active reservations is the created amount at every point of a history that folds |
| Inventory.AcceptedCommandFolds | examples/idempotent_reservation.rs:598-622 | an accepted command's event folds, unless it reserves under an id already active, and only then does not |
| Inventory.RejectedCommandWouldNotFold | examples/idempotent_reservation.rs:598-622 | the rule rejects no command for these goods whose event would have folded |
| Inventory.ActiveReservationHasEvent | examples/idempotent_reservation.rs:339-349 | an active reservation was opened by a reserve event of the same history with that quantity |
| Inventory.ActiveReservations | examples/idempotent_reservation.rs:339-358 | the active reservations are those reserved and not released since, with the quantity reserved |
| Inventory.FoldAdmits | examples/idempotent_reservation.rs:333-358 | exactly which event a folding history admits next, in terms of what is reserved and not released since |
| OperationStream.CollectCells | examples/idempotent_reservation.rs:389-439 | the one-pass loop accepts exactly the streams whose events sit at a revision their type admits, once each, and returns those cells |
| OperationStream.MatchCells | examples/idempotent_reservation.rs:441-516 | three slots give a state if and only if, filled without a hole, they are its legal shape; which fault they show otherwise |
| OperationStream.ReadOperationEvents | examples/idempotent_reservation.rs:378-517 | the reader computes the decoding of any event sequence |
| OperationStream.DecodedState | examples/idempotent_reservation.rs:404-516 | a log read from its start decodes to a state if and only if it is that state's legal shape |
| ReservationProtocol.MessageIsJustified | examples/idempotent_reservation.rs:562-759 | whatever a worker sends after reading any prefixes is justified by the logs as they stand |
| ReservationProtocol.JustifiedIsStable | examples/idempotent_reservation.rs:678-759 | a justification outlives every later append, so a late delivery is as good as a prompt one |
| ReservationProtocol.StepKeepsInvariant | examples/idempotent_reservation.rs:535-759 | every send and every delivery, first, repeated or late, keeps every stored and every pending event justified |
| ReservationProtocol.RunKeepsInvariant | examples/idempotent_reservation.rs:535-816 | all runs keep the invariant and never change a stored cell |
| ReservationTheorems.EveryReadDecodes | examples/idempotent_reservation.rs:378-517 | operation streams have at most three events and every prefix of one decodes without an invalid-stream error |
| ReservationTheorems.StatesOnlyAdvance | examples/idempotent_reservation.rs:236-254 | request and decision never change, the revision never falls, terminal states are final |
| ReservationTheorems.FirstClaimWins | examples/idempotent_reservation.rs:562-596 | the stored request survives every continuation, and a later claim with other content is acknowledged without effect |
| ReservationTheorems.AppliedAtMostOnce | examples/idempotent_reservation.rs:678-726 | over all inventory streams an operation has at most one event, at its stored expected revision plus one, with its stored content |
| ReservationTheorems.WrittenEventsWereAccepted | examples/idempotent_reservation.rs:624-655 | a written event was accepted by the command rule on exactly the history before it |
| ReservationTheorems.WrittenEventsMatchSku | examples/idempotent_reservation.rs:602-614 | every written event is about the created goods |
| ReservationTheorems.RejectionsWereTrue | examples/idempotent_reservation.rs:598-637 | a stored rejection is the rule's answer on a real history, and the quantities it reports were true there |
| ReservationTheorems.FoldsUnlessReservationReused | examples/idempotent_reservation.rs:318-372 | every reachable history folds if and only if its last event does not reuse an active reservation id; all proper prefixes fold |
| ReservationTheorems.InventoryAlwaysFolds | examples/idempotent_reservation.rs:318-372 | with distinct reservation ids every cut of every history, at every moment of the run, folds and conserves units |
| ReservationTheorems.PanickedHistoryIsStuck | examples/idempotent_reservation.rs:318-372 | a history that stopped folding never grows again |
| ReservationTheorems.SharedReservationIdPanics | examples/idempotent_reservation.rs:344-348 | a run in which two operations share a reservation id and the fold's assertion fails |
| ReservationTheorems.OutcomesAgree | examples/idempotent_reservation.rs:761-796 | a stored outcome is the outcome in every continuation |
| ReservationTheorems.OutcomeTellsTheTruth | examples/idempotent_reservation.rs:699-725 | a decided operation is completed when its pinned cell holds its event, with that revision and position, and otherwise conflicted, naming the other id; one that was never prepared was rejected, with the stored reason, which was true of a real history |
| ReservationTheorems.RefusedNeverApplied | examples/idempotent_reservation.rs:728-777 | a rejected or conflicted operation's event is in no inventory stream, in any continuation |
| ReservationTheorems.CompletedStaysApplied | examples/idempotent_reservation.rs:728-777 | a completed operation's event stays at the revision and position its outcome reports |
| ReservationTheorems.EveryOperationCanFinish | examples/idempotent_reservation.rs:779-796 | from every reachable state a claimed operation whose inventory stream exists, folding or not, can be driven to an outcome without touching any other stream |
| ReservationTheorems.WholeReadersNeverDecide | examples/idempotent_reservation.rs:318-372 | on a history that stopped folding, workers that read all of it never decide an operation that has no decision yet, in any run |
| ReservationTheorems.AcceptedCommandCommits | examples/idempotent_reservation.rs:657-726 | a fresh accepted command, run alone, is written next, and no stream but its own and that inventory changes |
| ReservationWorker.ExecutionsAgree | examples/idempotent_reservation.rs:779-796 | any two successful executions of one operation id had the same command and return the same outcome |
| ReservationWorker.EventStore.AppendToStream | examples/idempotent_reservation.rs:543-547 | a success means the target cell holds the id and reports its position; a failure means nothing, unless the store failed no call: then it succeeds exactly when that cell, if not beyond the log's end, holds the id |
| ReservationWorker.EventStore.ReadStream | examples/idempotent_reservation.rs:700-708 | a read is a window of some prefix of the log, of all that was stored at the call if reads are current or the store did not fail it |
| ReservationWorker.EventStore.ReadInventory | examples/idempotent_reservation.rs:318-372 | the view of some prefix; it panics only when it read the whole history and that ends in a reused reservation id; not found only if nothing was stored, when the store failed no call |
| ReservationWorker.EventStore.ReadOperation | examples/idempotent_reservation.rs:378-517 | what some prefix of the log decodes to, a stored state or nothing; the only failure is the client's own, and one the store caused |
| ReservationWorker.EventStore.AppendOperationEvent | examples/idempotent_reservation.rs:535-560 | the state the following read saw if that reaches the minimum revision, which it does when the store failed no call; "not retained" exactly when the append was acknowledged and that read stopped short, so never with current reads |
| ReservationWorker.ReadReachesCell | examples/idempotent_reservation.rs:548-559 | a read reaches a revision if and only if it saw more events than that |
| ReservationWorker.AcknowledgedButNotSeen | examples/idempotent_reservation.rs:548-559 | a run in which an acknowledged claim is missed by the read that follows it |
| ReservationWorker.EventStore.ClaimOperation | examples/idempotent_reservation.rs:562-596 | success only for the stored command; an id conflict only when the stored command differs, and nothing else fails it but a call the store failed |
| ReservationWorker.EventStore.DecideRequested | examples/idempotent_reservation.rs:624-655 | success only with a decision stored for the same request; it fails only on a call the store failed, a missing inventory or a history that ends in a reuse |
| ReservationWorker.EventStore.AppendInventory | examples/idempotent_reservation.rs:678-726 | the answer is what the pinned cell holds, by either path, and there is one unless the store failed a call |
| ReservationWorker.EventStore.InspectPinnedCell | examples/idempotent_reservation.rs:699-725 | after a failed append, the pinned cell's content decides; an answered read that covers the cell gives a result |
| ReservationWorker.EventStore.FinishPrepared | examples/idempotent_reservation.rs:728-759 | success only with a terminal event stored for the same request, and always unless the store failed a call |
| ReservationWorker.EventStore.ExecuteOperation | examples/idempotent_reservation.rs:779-796 | at most two transitions; an outcome is returned only for the stored command and says what the cells hold: the stored rejection with its true reason, the event in its pinned cell, or the other event there; it is reached unless the store failed a call, the id is claimed with another command, the inventory does not exist or its history ends in a reuse |
| ReservationWorker.EventStore.DeliverWithRetries | examples/idempotent_reservation.rs:798-816 | one to three attempts, only client errors are retried, each retry paid for by a call the store failed; with current reads and distinct reservation ids it tolerates two failed calls on an existing inventory, and one attempt is enough when none fails |
| ProcessedOperations.FoldInventoryEvents | trogon-eventstore/tests/api/idempotency.rs:155-220 | the suite's loop computes its fold |
| ProcessedOperations.FoldsDifferInDuplicatesOnly | trogon-eventstore/tests/api/idempotency.rs:155-220 | it succeeds exactly where the example's fold does and no operation occurs twice, with the same counts |
| ProcessedOperations.LedgerRemembers | trogon-eventstore/tests/api/idempotency.rs:181-212 | it remembers exactly the operations that occurred, with revision and content |
| ProcessedOperations.ProtocolLogsHaveNoDuplicates | trogon-eventstore/tests/api/idempotency.rs:155-220 | on every log the protocol writes it succeeds and remembers each operation at its pinned cell |
| ProtoValue.ParseValue | trogon-eventstore/src/projection_client.rs:517-618 | the stack machine returns the JSON value that represents the protobuf value part by part, gives back every JSON value from its protobuf form, panics exactly when a number without a JSON form occurs in it, terminates, and never stacks higher than the value nests |
| ProtoValue.ConversionIsExact | trogon-eventstore/src/projection_client.rs:565-613 | a value converts to a JSON value if and only if that represents it part by part, and to none exactly when a number that is not finite occurs in it; unset and null are null |
| ProtoValue.EmbeddingRoundTrip | trogon-eventstore/src/projection_client.rs:565-613 | every JSON value, objects and nesting included, comes back from its protobuf form |
| ProtoValue.StepSuspended | trogon-eventstore/src/projection_client.rs:541-563 | resuming a suspended container with the register's value keeps the result still to come |
| ProtoValue.StepProto | trogon-eventstore/src/projection_client.rs:565-613 | opening a value keeps the result still to come and lowers the weight of the stack |
| ProtoValue.ListIsConvertedInOrder | trogon-eventstore/src/projection_client.rs:553-563 | a list converts if and only if all its elements do, in order |
| ProtoValue.StructConvertsWithItsFields | trogon-eventstore/src/projection_client.rs:541-551 | a struct converts if and only if all its fields do |
| ProtoValue.StructKeepsItsEntries | trogon-eventstore/src/projection_client.rs:541-551 | each key holds its field's conversion and no key is invented |
| Subscription.Advances | trogon-eventstore/src/commands.rs:784-816 | what an open or reopened feed sends next is the next wanted event of the log after the last one handed out |
| Subscription.SelectionIsExact | trogon-eventstore/src/client.rs:235-246 | what a start selects is in order, once each, exactly the wanted events after it |
| Subscription.StartSelects | trogon-eventstore/src/commands.rs:953-957 | from the start every matching event of the log is selected, after a mark exactly the later ones |
| Subscription.Subscription.Attach | trogon-eventstore/src/commands.rs:881-928 | a reopened feed continues after the last event handed out; nothing is lost if and only if there was one, the start is not the end, or no wanted event came between the two ends |
| Subscription.EndForgetsUntilFirstEvent | trogon-eventstore/src/commands.rs:953-957 | a run of the client that never hands out an event appended while it was open |
| Subscription.Subscription.HandOut | trogon-eventstore/src/commands.rs:788-816 | the resume point follows the event that is handed out |
| Subscription.Subscription.React | trogon-eventstore/src/commands.rs:768-879 | what each kind of message does to the stream, the attempts and the caller |
| Subscription.Subscription.Resubscribe | trogon-eventstore/src/commands.rs:881-931 | nothing is handed out; a failed attempt is retried only below the limit and never when access was denied; reopening at the end before the first event loses exactly what was appended between the two ends |
| Subscription.Subscription.NextSubscriptionEvent | trogon-eventstore/src/commands.rs:761-934 | one call, cancelled at any await or not, keeps the handed-out events a contiguous stretch; when an event is due it hands one out within one await on an open stream or three without, unless held up |
| Subscription.Subscription.Next | trogon-eventstore/src/commands.rs:753-759 | returns only events, each the next one, and returns one when one is due and nothing holds it up |
| Subscription.Subscription.Drain | trogon-eventstore/src/commands.rs:753-934 | any sequence of calls, drops, failures and cancellations hands out only what the start asked for, in order, with nothing asked for in between left out, and with what it lost accounts for every wanted event; from a start not at the end, one call per event and per delay hands out every matching event the log held after the start |
| Subscription.Subscription.LostOrDelivered | trogon-eventstore/src/commands.rs:761-934 | every wanted event since the subscription was first open was lost or handed out, in that order, and only a start at the end loses any |
| Subscription.Subscription.Contiguous | trogon-eventstore/src/commands.rs:753-934 | no gap, no duplicate, nothing that was not asked for; from the very start, the first event included, unless started at the end |
| Connection.NodeConnection.Connect | trogon-eventstore/src/grpc.rs:958-1014 | a connection gets a fresh id; missing features are no failure; a timeout leaves everything as it was |
| Connection.NodeConnection.Discover | trogon-eventstore/src/grpc.rs:956-1047 | ends for every pattern of failures, within max(1, M) selections and max(0, M - 1) tries plus one if seeded; succeeds if and only if the first reply within them is one to connect on, with the seed, the node the last selection found in a cluster, or the first host, and that node's features |
| Connection.ConnectsInTime | trogon-eventstore/src/grpc.rs:956-1047 | corollary of `Discover`: a network whose first reply comes after n selections is found exactly by a client allowed more than n attempts |
| Connection.UnseededNeedsTwoAttempts | trogon-eventstore/src/grpc.rs:1035-1046 | corollary of `Discover`: with fewer than two attempts an unseeded discovery always fails; on a healthy network it succeeds if and only if there are two |
| Connection.OneAttemptNeverConnects | trogon-eventstore/src/grpc.rs:1035-1134 | in every run of a client with fewer than two attempts there is no connection before a leader is named |
| Connection.NodeConnection.Next | trogon-eventstore/src/grpc.rs:933-1049 | returns the cached handle untouched exactly when there is one and no seed names its id; otherwise it is a discovery from that seed, with the same nodes |
| Connection.Actor.Receive | trogon-eventstore/src/grpc.rs:1062-1134 | one message is one step of the actor's transition function, with a new handle exactly when it reconnects and the discovery succeeds; a reply is the cached handle, or the failure that stops the actor |
| Connection.AlwaysAgrees | trogon-eventstore/src/grpc.rs:1060-1134 | after every processed message the actor's handle and the connection's id and handle agree |
| Connection.SupersededOnce | trogon-eventstore/src/grpc.rs:940-954 | in every run a handle id is replaced at most once |
| Connection.OnlySeededReportsReplace | trogon-eventstore/src/grpc.rs:1253-1274 | a live connection is replaced if and only if a report names a leader against the current id |
| Batch.RunKeeps | trogon-eventstore/src/batch.rs:103-148 | in every run each call is in exactly one place, under its own correlation id |
| Batch.AnsweredOnce | trogon-eventstore/src/batch.rs:122-132 | an answered call keeps its one answer in every continuation |
| Batch.RepliesAreRouted | trogon-eventstore/src/batch.rs:122-132 | a reply reaches only the call whose correlation id it carries |
| Batch.ForwardedIsRegistered | trogon-eventstore/src/batch.rs:109-116 | a forwarded request is registered under its own id for its own caller, who goes on waiting |
| Batch.SessionEndsOn | trogon-eventstore/src/batch.rs:109-146 | a turn ends the session if and only if it takes an error, a request that cannot be forwarded or the refusal of a waiting call |
| Batch.OpenSessionOnlyWrites | trogon-eventstore/src/batch.rs:107-148 | while the session is open the only answers are successful writes: no call was closed, failed or refused |
| Batch.ForwardedCallGetsItsReply | trogon-eventstore/src/batch.rs:109-132 | a call submitted, forwarded and then responded to under its id, whatever happened in between, gets that response |
| Batch.ResponsesReachTheirCaller | trogon-eventstore/src/batch.rs:122-132 | a response answers its call with its own content; only a refusal ends the session for the others |
| Batch.ErrorsReachEveryone | trogon-eventstore/src/batch.rs:140-146 | a session error reaches every registered call as it is and closes the queued ones |
| Batch.UnknownResponsesDisturbNobody | trogon-eventstore/src/batch.rs:134-138 | a response changes nothing if and only if every call of its id is already answered or not yet forwarded: unknown and duplicate responses do nothing |
| Batch.NobodyIsLeftWaiting | trogon-eventstore/src/batch.rs:177-190 | when the session is over every call, later ones too, has its answer, and one that was waiting got the session's error or a closed session, or its own refusal |
| Batch.WaitingInOnePlace | trogon-eventstore/src/batch.rs:103-148 | a call is answered, registered or queued, and only one of these |
| Batch.BatchAppendClient.AppendToStream | trogon-eventstore/src/batch.rs:154-194 | a submitted call waits in the queue, or fails at once when the dispatcher is gone; no other call is disturbed, and the client stays on an admissible run |
| Batch.BatchAppendClient.Enqueue | trogon-eventstore/src/commands.rs:345-370 | a reply or error of the session is queued while the dispatcher runs and has no effect after |
| Batch.BatchAppendClient.DispatchOne | trogon-eventstore/src/batch.rs:107-148 | one turn of the loop is one step of the dispatch function: a forwarded request is registered for its caller, a response answers the call registered under its id, an error answers all registered calls |
| Batch.BatchAppendClient.DispatchQueued | trogon-eventstore/src/batch.rs:107-148 | given a turn for every queued message the loop leaves each call answered or registered, and all answered if it stopped; earlier answers stay |
| NodeSelection.DetermineBestNode | trogon-eventstore/src/grpc.rs:1413-1466 | for every random bit: none exactly when no member is alive in a state other than manager and shutting down or shut down, else such a member, in one of the states the preference lists if any is |
| NodeSelection.ComparisonIsNotAnOrder | trogon-eventstore/src/grpc.rs:1430-1456 | two members without the preference each come after the other |
| Positions.PositionRoundTrip | trogon-eventstore/src/event_store/generated.rs:438-470 | printing then parsing is the identity on every log position |
| Positions.PrintedPositionIsRead | trogon-eventstore/src/event_store/generated.rs:461-470 | a printed position in front of anything but a digit is read back, with the rest |
| Positions.PositionsAreReadInDecimal | trogon-eventstore/src/event_store/generated.rs:461-470 | commit and prepare are read as the decimal numbers written, in that order, and refused beyond 64 bits |
| Positions.PrintedInDecimal | trogon-eventstore/src/types.rs:187-191 | a number is printed in decimal without leading zeros |
| Positions.RevisionsAndPositionsStayApart | trogon-eventstore/src/event_store/generated.rs:425-436 | a printed position never reads as a revision, a printed revision reads as itself |
| Positions.PrintedPositionIsNoKeyword | trogon-eventstore/src/event_store/generated.rs:449-459 | no printed position is a keyword, except C:0/P:0 |
| Positions.TextsOfStarts | trogon-eventstore/src/event_store/generated.rs:449-459 | exactly which texts mean the end and the beginning; any other number is that revision, any other position that position |
| Positions.NumbersOfStarts | trogon-eventstore/src/types.rs:1869-1895 | what each JSON number means: -1 the end, 0 the beginning, others the revision, negative ones in two's complement |
| Positions.SerializedStartIsReadBack | trogon-eventstore/src/types.rs:1790-1908 | a start written and read back is itself, except that revision 0 and C:0/P:0 become the start |
| TraceMetadata.TraceFieldsAreTheW3CHeaders | trogon-eventstore/src/observability.rs:135-137 | injection writes at most two keys, and changes no key but `traceparent` and `tracestate` in some case |
| TraceMetadata.NamesIgnoreAsciiCase | trogon-eventstore/src/observability.rs:129-137 | two names are the same if and only if they agree up to the case of ASCII letters |
| TraceMetadata.EventMetadataCarrier.Set | trogon-eventstore/src/observability.rs:123-133 | the field has the given text under the given spelling and no other; every other name, and everything for a name that is no trace field, is as before |
| TraceMetadata.EventMetadataCarrier.Get | trogon-eventstore/src/observability.rs:139-147 | finds a text under some spelling if and only if there is one |
| TraceMetadata.Propagate | trogon-eventstore/src/observability.rs:159-165 | the propagator's writes leave exactly the last write of each trace field, one spelling each |
| TraceMetadata.MergeFields | trogon-eventstore/src/observability.rs:175-180 | the loop computes the merge, whatever the order of the fields |
| TraceMetadata.InjectEventContext | trogon-eventstore/src/observability.rs:154-187 | absent, empty and object metadata end up with every injected field under one spelling and every other key as it was; anything else, an invalid context and an empty injection leave it alone |
| TraceMetadata.MergeIsExact | trogon-eventstore/src/observability.rs:123-133 | unrelated keys keep their values, and each injected field has one spelling and its value |
| TraceMetadata.InjectedIsLookedUp | trogon-eventstore/src/observability.rs:189-200 | any spelling of an injected field looks up the injected value |
| TraceMetadata.InjectionIsIdempotent | trogon-eventstore/src/observability.rs:154-187 | injecting the same writes twice is injecting them once; metadata that is not an object is unchanged |
| TraceMetadata.LaterContextWins | trogon-eventstore/src/observability.rs:175-180 | a later context replaces an earlier one that set the same fields |

## Left out

- Transport, TLS, timers, delays, spans and logging: outcomes are nondeterministic choices.
- The 64-bit width of revisions: a stream of 2^64 events is not modelled, so revisions are natural numbers.
- Text of error messages, and the revision named in the invalid-event message.
- `append_initial_inventory`: its sends are steps of the protocol (`SendCreate`); its retry loop and `prepare_operation`, a two-call composition, have no method.
- The reserve and release scenarios of the idempotency suite: straight-line uses of the append that the protocol's steps already cover.
- Link resolution of delivered events: an event's mark is that of its original event, and checkpoints are passed through, as in the code they do not move the resume point.
- Liveness without a bound: a subscription whose stream ended cleanly polls it forever, and a batch reader task that ends cleanly sends nothing, so delivery is claimed per delay and not eventually.
- Gossip candidates: `previous_candidates` is never refilled in the code, so node selection inside discovery is an arbitrary choice and `failed_endpoint` has no effect.
- `connection_state_machine` after it stopped: later requests fail on a closed channel, which is not modelled.
- ProtoValue.ParseValue: struct fields are a sequence in iteration order and numbers are reals or not finite, because the order of a sorted map and floating-point rounding do not matter to it.
- NodeSelection.DetermineBestNode: the distribution of the random choice is not stated.
- Positions.SerializedStartIsReadBack: integers that overflow 64 bits in JSON are refused by the JSON library, which is not modelled.
- Connection-string parsing, projection, persistent-subscription and operations calls, HTTP fallback, statistics, macros and generated code: pass-through with no hard property.
