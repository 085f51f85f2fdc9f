/**
 What every run of the reservation protocol guarantees, whatever the interleaving
 of workers, crashes, retries and late or duplicated appends.
 */
module ReservationTheorems {
  import opened Wrappers
  import opened CoreTypes
  import opened EventLog
  import opened Inventory
  import opened OperationStream
  import opened ReservationProtocol

  // ---------------------------------------------------------------- operation streams

  /** The state a reader of the whole operation log sees. */
  function CurrentState(logs: Logs, operationId: OperationId): Option<OperationState> {
    SeenState(logs, operationId, |Log(logs, OperationStream(operationId))|)
  }

  function OutcomeOf(logs: Logs, operationId: OperationId): Option<OperationOutcome> {
    match CurrentState(logs, operationId)
    case None => None
    case Some(state) =>
      match TerminalOutcome(state)
      case Success(outcome) => Some(outcome)
      case Failure(_) => None
  }

  /** Every non-empty prefix of an operation log stores one of the five legal states. */
  lemma PrefixStoresState(s: System, operationId: OperationId, n: nat) returns (state: OperationState)
    requires Inv(s) && 0 < n <= |Log(s.logs, OperationStream(operationId))|
    ensures n <= 3
    ensures Stores(operationId, Log(s.logs, OperationStream(operationId))[..n], state)
  {
    var stream := OperationStream(operationId);
    var log := Log(s.logs, stream);
    assert CellOk(s.logs, stream, 0);
    if n > 1 { assert CellOk(s.logs, stream, 1); }
    if n > 2 { assert CellOk(s.logs, stream, 2); }
    assert CellOk(s.logs, stream, n - 1);
    var requested := log[0].body.request;
    if n == 1 {
      state := RequestedState(requested);
    } else if log[1].body.Rejected? {
      state := RejectedState(requested, log[1].body.rejected);
    } else if n == 2 {
      state := PreparedState(requested, log[1].body.prepared);
    } else if log[2].body.Completed? {
      state := CompletedState(requested, log[1].body.prepared, log[2].body.completed);
    } else {
      state := ConflictedState(requested, log[1].body.prepared, log[2].body.conflicted);
    }
  }

  /**
   No reader of an operation stream ever meets an invalid stream: any prefix of any
   reachable operation log, cut anywhere and read four events deep, decodes, and it
   decodes to nothing exactly when it is empty.
   */
  lemma EveryReadDecodes(s: System, operationId: OperationId, seen: nat)
    requires Reachable(s)
    ensures |Log(s.logs, OperationStream(operationId))| <= 3
    ensures var events := Prefix(Prefix(Log(s.logs, OperationStream(operationId)), seen), 4);
      && DecodeOperation(operationId, events).Success?
      && (DecodeOperation(operationId, events) == Success(None) <==> events == [])
  {
    ReachableIsInvariant(s);
    ReadDecodes(s, operationId, seen);
  }

  lemma ReadDecodes(s: System, operationId: OperationId, seen: nat)
    requires Inv(s)
    ensures |Log(s.logs, OperationStream(operationId))| <= 3
    ensures var events := Prefix(Prefix(Log(s.logs, OperationStream(operationId)), seen), 4);
      && DecodeOperation(operationId, events).Success?
      && (events == [] <==> SeenState(s.logs, operationId, seen).None?)
      && (events != [] ==> Stores(operationId, events, SeenState(s.logs, operationId, seen).value))
  {
    var log := Log(s.logs, OperationStream(operationId));
    if log != [] { var _ := PrefixStoresState(s, operationId, |log|); }
    var events := Prefix(Prefix(log, seen), 4);
    var n := |events|;
    assert events == log[..n];
    LogIsIndexed(s, OperationStream(operationId), n);
    if n == 0 {
      var anyRequest := ClaimRequest("", Release(operationId, ReservationId(0), "", 0), 0, 0);
      DecodedState(operationId, events, RequestedState(anyRequest));
    } else {
      var state := PrefixStoresState(s, operationId, n);
      DecodedState(operationId, events, state);
    }
  }

  lemma CurrentStateIsStored(s: System, operationId: OperationId)
    requires Inv(s)
    ensures var log := Log(s.logs, OperationStream(operationId));
      && (CurrentState(s.logs, operationId).None? <==> log == [])
      && (log != [] ==> Stores(operationId, log, CurrentState(s.logs, operationId).value))
  {
    var log := Log(s.logs, OperationStream(operationId));
    ReadDecodes(s, operationId, |log|);
    assert Prefix(Prefix(log, |log|), 4) == log;
  }

  ghost predicate StateAdvances(before: OperationState, after: OperationState) {
    && after.requested == before.requested
    && before.Revision() <= after.Revision()
    && (before.Terminal() ==> after == before)
    && (before.PreparedState? ==>
          !after.RequestedState? && !after.RejectedState? && after.prepared == before.prepared)
  }

  /**
   States only advance: the request never changes, the decision never changes once
   taken, the revision never falls, and a terminal state is final.
   */
  lemma StatesOnlyAdvance(s: System, t: System, operationId: OperationId)
    requires Reachable(s) && Reaches(s, t)
    ensures CurrentState(s.logs, operationId).Some? ==>
      var before := CurrentState(s.logs, operationId).value;
      && CurrentState(t.logs, operationId).Some?
      && StateAdvances(before, CurrentState(t.logs, operationId).value)
  {
    ReachableIsInvariant(s);
    Advance(s, t, operationId);
  }

  lemma Advance(s: System, t: System, operationId: OperationId)
    requires Inv(s) && Reaches(s, t)
    ensures Inv(t)
    ensures CurrentState(s.logs, operationId).Some? ==>
      var before := CurrentState(s.logs, operationId).value;
      && CurrentState(t.logs, operationId).Some?
      && StateAdvances(before, CurrentState(t.logs, operationId).value)
  {
    ReachesKeepsInvariant(s, t);
    CurrentStateIsStored(s, operationId);
    CurrentStateIsStored(t, operationId);
    var log, later := Log(s.logs, OperationStream(operationId)), Log(t.logs, OperationStream(operationId));
    assert log <= later;
    if log != [] {
      StoredStatesAdvance(operationId, log, later,
                          CurrentState(s.logs, operationId).value, CurrentState(t.logs, operationId).value);
    }
  }

  lemma StoredStatesAdvance(operationId: OperationId, log: seq<Recorded>, later: seq<Recorded>,
                            before: OperationState, after: OperationState)
    requires log <= later && Stores(operationId, log, before) && Stores(operationId, later, after)
    ensures StateAdvances(before, after)
  {
    assert later[0] == log[0];
    if |log| > 1 { assert later[1] == log[1]; }
    if |log| > 2 { assert later[2] == log[2]; }
  }

  /**
   The first claim wins for good: the stored request survives every continuation,
   and a claim of the same id with any other content is acknowledged by the server
   without changing anything.
   */
  lemma FirstClaimWins(s: System, t: System, operationId: OperationId, inventoryStream: string,
                       operation: InventoryOperation, decisionId: Uuid, terminalId: Uuid, position: Position)
    requires Reachable(s) && Reaches(s, t)
    requires Claimed(s.logs, operationId) && operation.operationId == operationId
    ensures Claimed(t.logs, operationId) && RequestOf(t.logs, operationId) == RequestOf(s.logs, operationId)
    ensures
      var late := ClaimAppend(inventoryStream, operation, decisionId, terminalId);
      var (logs, reply) := Delivered(t.logs, late, position);
      reply.Acknowledged? && logs == t.logs
  {
    ReachableIsInvariant(s);
    ReachesKeepsInvariant(s, t);
    var stream := OperationStream(operationId);
    assert Log(s.logs, stream) <= Log(t.logs, stream);
    assert CellOk(t.logs, stream, 0);
  }

  // ---------------------------------------------------------------- the inventory stream

  lemma HistoryIsCreatedOnce(s: System, name: string)
    requires Inv(s) && Log(s.logs, InventoryStream(name)) != []
    ensures CreatedOnce(Log(s.logs, InventoryStream(name)))
  {
    var log := Log(s.logs, InventoryStream(name));
    assert CellOk(s.logs, InventoryStream(name), 0);
    forall k | 1 <= k < |log|
      ensures log[k].body.Applied?
    {
      assert CellOk(s.logs, InventoryStream(name), k);
    }
  }

  /**
   Exactly once: over all inventory streams together, an operation id names at most
   one written cell, and that cell is the one its stored decision pinned.
   */
  lemma AppliedAtMostOnce(s: System, name: string, cell: nat, otherName: string, otherCell: nat)
    requires Reachable(s)
    requires 0 < cell < |Log(s.logs, InventoryStream(name))|
    requires 0 < otherCell < |Log(s.logs, InventoryStream(otherName))|
    ensures var operationId := OperationId(Log(s.logs, InventoryStream(name))[cell].id);
      && IsPrepared(s.logs, operationId)
      && RequestOf(s.logs, operationId).inventoryStream == name
      && Log(s.logs, InventoryStream(name))[cell].body == Applied(RequestOf(s.logs, operationId).operation)
      && PinnedCell(s.logs, operationId) == cell
    ensures Log(s.logs, InventoryStream(name))[cell].id == Log(s.logs, InventoryStream(otherName))[otherCell].id
      ==> name == otherName && cell == otherCell
  {
    ReachableIsInvariant(s);
    assert CellOk(s.logs, InventoryStream(name), cell);
    assert CellOk(s.logs, InventoryStream(otherName), otherCell);
  }

  /**
   Serial justification: a written event was accepted by the command rule on exactly
   the history it now follows, although checking and writing were separate steps.
   */
  lemma WrittenEventsWereAccepted(s: System, name: string, cell: nat)
    requires Reachable(s)
    requires 0 < cell < |Log(s.logs, InventoryStream(name))|
    ensures Log(s.logs, InventoryStream(name))[cell].body.Applied?
    ensures Judged(Log(s.logs, InventoryStream(name)), cell,
                   Log(s.logs, InventoryStream(name))[cell].body.operation, None)
  {
    ReachableIsInvariant(s);
    AcceptedWhereWritten(s, name, cell);
  }

  lemma AcceptedWhereWritten(s: System, name: string, cell: nat)
    requires Inv(s)
    requires 0 < cell < |Log(s.logs, InventoryStream(name))|
    ensures Log(s.logs, InventoryStream(name))[cell].body.Applied?
    ensures Judged(Log(s.logs, InventoryStream(name)), cell,
                   Log(s.logs, InventoryStream(name))[cell].body.operation, None)
  {
    InventoryCellsBelongToTheirId(s, name, cell);
    var operationId := Log(s.logs, InventoryStream(name))[cell].body.operation.operationId;
    assert CellOk(s.logs, OperationStream(operationId), 1);
  }

  /** Every written event is about the goods its stream was created for. */
  lemma WrittenEventsMatchSku(s: System, name: string, cell: nat)
    requires Reachable(s)
    requires 0 < cell < |Log(s.logs, InventoryStream(name))|
    ensures var log := Log(s.logs, InventoryStream(name));
      log[0].body.Created? && log[cell].body.Applied? && log[cell].body.operation.sku == log[0].body.created.sku
  {
    WrittenEventsWereAccepted(s, name, cell);
    ReachableIsInvariant(s);
    HistoryIsCreatedOnce(s, name);
    UnitsAreConserved(Log(s.logs, InventoryStream(name))[..cell]);
  }

  /** The reason given for a rejection was true of the first `n` events of the history. */
  ghost predicate TrueReason(log: seq<Recorded>, n: nat, operation: InventoryOperation, reason: InventoryRejection) {
    && 0 < n <= |log| && log[0].body.Created?
    && CountAll(log[..n]).Some?
    && var created := log[0].body.created;
    var reservations := CountAll(log[..n]).value.reservations;
    match reason
    case WrongSku => operation.sku != created.sku
    case InsufficientInventory(available, requested) =>
      && operation.Reserve? && operation.sku == created.sku
      && requested == operation.quantity
      && available == created.available - Sum(reservations)
      && available < requested
    case ReservationNotActive =>
      && operation.Release? && operation.sku == created.sku
      && (operation.reservationId in reservations ==> reservations[operation.reservationId] != operation.quantity)
  }

  /** A stored rejection gives a reason that was true on some real history of its stream. */
  lemma RejectionsWereTrue(s: System, operationId: OperationId) returns (n: nat)
    requires Reachable(s)
    requires CurrentState(s.logs, operationId).Some? && CurrentState(s.logs, operationId).value.RejectedState?
    ensures var state := CurrentState(s.logs, operationId).value;
      var log := Log(s.logs, InventoryStream(state.requested.inventoryStream));
      && Judged(log, n, state.requested.operation, Some(state.rejected.reason))
      && TrueReason(log, n, state.requested.operation, state.rejected.reason)
  {
    ReachableIsInvariant(s);
    CurrentStateIsStored(s, operationId);
    n := StoredReasonWasTrue(s, operationId);
  }

  lemma StoredReasonWasTrue(s: System, operationId: OperationId) returns (n: nat)
    requires Inv(s) && |Log(s.logs, OperationStream(operationId))| > 1
    requires Log(s.logs, OperationStream(operationId))[1].body.Rejected?
    ensures Claimed(s.logs, operationId)
    ensures var reason := Log(s.logs, OperationStream(operationId))[1].body.rejected.reason;
      && Judged(InventoryLog(s.logs, operationId), n, RequestOf(s.logs, operationId).operation, Some(reason))
      && TrueReason(InventoryLog(s.logs, operationId), n, RequestOf(s.logs, operationId).operation, reason)
  {
    assert CellOk(s.logs, OperationStream(operationId), 1);
    var log, requested := InventoryLog(s.logs, operationId), RequestOf(s.logs, operationId);
    var reason := Log(s.logs, OperationStream(operationId))[1].body.rejected.reason;
    n :| Judged(log, n, requested.operation, Some(reason));
    HistoryIsCreatedOnce(s, requested.inventoryStream);
    UnitsAreConserved(log[..n]);
  }

  /** The event at the end of a history opens a reservation that is already active. */
  predicate ReusesReservation(log: seq<Recorded>)
    requires log != []
  {
    var last := log[|log| - 1];
    && last.body.Applied? && last.body.operation.Reserve?
    && FoldInventory(log[..|log| - 1]).Some?
    && last.body.operation.reservationId in FoldInventory(log[..|log| - 1]).value.state.reservations
  }

  /**
   Exactly when a reachable inventory history folds: every proper prefix does, and
   the whole does unless its last event reuses an active reservation id, the one
   thing the command rule does not check.
   */
  lemma FoldsUnlessReservationReused(s: System, name: string)
    requires Reachable(s) && Log(s.logs, InventoryStream(name)) != []
    ensures forall n | 0 < n < |Log(s.logs, InventoryStream(name))| ::
      FoldInventory(Log(s.logs, InventoryStream(name))[..n]).Some?
    ensures FoldInventory(Log(s.logs, InventoryStream(name))).None?
       <==> ReusesReservation(Log(s.logs, InventoryStream(name)))
  {
    ReachableIsInvariant(s);
    FoldsUnlessReused(s, name);
  }

  lemma FoldsUnlessReused(s: System, name: string)
    requires Inv(s) && Log(s.logs, InventoryStream(name)) != []
    ensures forall n | 0 < n < |Log(s.logs, InventoryStream(name))| ::
      FoldInventory(Log(s.logs, InventoryStream(name))[..n]).Some?
    ensures FoldInventory(Log(s.logs, InventoryStream(name))).None?
       <==> ReusesReservation(Log(s.logs, InventoryStream(name)))
  {
    var log := Log(s.logs, InventoryStream(name));
    HistoryIsCreatedOnce(s, name);
    forall n | 0 < n < |log|
      ensures FoldInventory(log[..n]).Some?
    {
      AcceptedWhereWritten(s, name, n);
    }
    var last := |log| - 1;
    if last == 0 {
      assert log[..0] == [];
      assert CountAll(log[..0]) == Some(EMPTY_TALLY);
    } else {
      AcceptedWhereWritten(s, name, last);
      InventoryCellsBelongToTheirId(s, name, last);
      AcceptedCommandFolds(log[..last], log[last]);
      assert log[..last] + [log[last]] == log;
    }
  }

  /** The hypothesis on callers: claimed reserve operations carry distinct reservation ids. */
  ghost predicate DistinctReservations(logs: Logs) {
    forall a, b |
      && Claimed(logs, a) && RequestOf(logs, a).operation.Reserve?
      && Claimed(logs, b) && RequestOf(logs, b).operation.Reserve?
      && RequestOf(logs, a).operation.reservationId == RequestOf(logs, b).operation.reservationId
      :: a == b
  }

  /** If the hypothesis holds later, it held all along. */
  lemma DistinctReservationsEarlier(a: Logs, b: Logs)
    requires Extends(a, b) && DistinctReservations(b)
    ensures DistinctReservations(a)
  {
    forall x | Claimed(a, x)
      ensures Claimed(b, x) && RequestOf(b, x) == RequestOf(a, x)
    {
      assert Log(a, OperationStream(x)) <= Log(b, OperationStream(x));
    }
  }

  lemma NoReuseWhenDistinct(s: System, name: string)
    requires Inv(s) && DistinctReservations(s.logs) && Log(s.logs, InventoryStream(name)) != []
    ensures !ReusesReservation(Log(s.logs, InventoryStream(name)))
  {
    var log := Log(s.logs, InventoryStream(name));
    var last := |log| - 1;
    if ReusesReservation(log) {
      var before := log[..last];
      var reservationId := log[last].body.operation.reservationId;
      var k := ActiveReservationHasEvent(before, reservationId);
      assert log[k] == before[k];
      HistoryIsCreatedOnce(s, name);
      InventoryCellsBelongToTheirId(s, name, k);
      InventoryCellsBelongToTheirId(s, name, last);
    }
  }

  /**
   With distinct reservation ids, at every moment of a run up to the last claim that is
   known, every inventory history folds, cut anywhere, and conserves units: available
   plus reserved is what was created, so no u32 in it ever wrapped.
   */
  lemma InventoryAlwaysFolds(s: System, t: System, name: string, n: nat)
    requires Reachable(s) && Reaches(s, t) && DistinctReservations(t.logs)
    requires 0 < n <= |Log(s.logs, InventoryStream(name))|
    ensures Log(s.logs, InventoryStream(name))[0].body.Created?
    ensures var log := Log(s.logs, InventoryStream(name));
      && FoldInventory(log[..n]).Some?
      && var view := FoldInventory(log[..n]).value;
      && view.revision == n - 1 && view.eventCount == n
      && view.state.sku == log[0].body.created.sku
      && view.state.available + Sum(view.state.reservations) == log[0].body.created.available
  {
    ReachableIsInvariant(s);
    ReachesKeepsInvariant(s, t);
    DistinctReservationsEarlier(s.logs, t.logs);
    ViewConserves(s, name, n);
  }

  lemma ViewConserves(s: System, name: string, n: nat)
    requires Inv(s) && DistinctReservations(s.logs)
    requires 0 < n <= |Log(s.logs, InventoryStream(name))|
    ensures Log(s.logs, InventoryStream(name))[0].body.Created?
    ensures var log := Log(s.logs, InventoryStream(name));
      && FoldInventory(log[..n]).Some?
      && var view := FoldInventory(log[..n]).value;
      && view.revision == n - 1 && view.eventCount == n
      && view.state.sku == log[0].body.created.sku
      && view.state.available + Sum(view.state.reservations) == log[0].body.created.available
  {
    var log := Log(s.logs, InventoryStream(name));
    HistoryIsCreatedOnce(s, name);
    FoldsUnlessReused(s, name);
    NoReuseWhenDistinct(s, name);
    assert log[..|log|] == log;
    UnitsAreConserved(log[..n]);
    assert CellOk(s.logs, InventoryStream(name), n - 1);
  }

  /** A history that stopped folding is dead: no continuation ever adds an event to it. */
  lemma PanickedHistoryIsStuck(s: System, t: System, name: string)
    requires Reachable(s) && Reaches(s, t)
    requires Log(s.logs, InventoryStream(name)) != []
    requires FoldInventory(Log(s.logs, InventoryStream(name))).None?
    ensures Log(t.logs, InventoryStream(name)) == Log(s.logs, InventoryStream(name))
  {
    ReachableIsInvariant(s);
    ReachesKeepsInvariant(s, t);
    var log, later := Log(s.logs, InventoryStream(name)), Log(t.logs, InventoryStream(name));
    assert log <= later;
    if |log| < |later| {
      assert later[..|log|] == log;
      AcceptedWhereWritten(t, name, |log|);
    }
  }

  // ---------------------------------------------------------------- outcomes

  /** Agreement: an outcome, once stored, is the outcome in every continuation. */
  lemma OutcomesAgree(s: System, t: System, operationId: OperationId)
    requires Reachable(s) && Reaches(s, t)
    requires OutcomeOf(s.logs, operationId).Some?
    ensures OutcomeOf(t.logs, operationId) == OutcomeOf(s.logs, operationId)
  {
    ReachableIsInvariant(s);
    Advance(s, t, operationId);
  }

  /**
   What an outcome says about the logs, cell by cell: a rejection is the stored decision
   with its reason, a completion is the operation's own event in its pinned cell, a
   conflict is another event there.
   */
  ghost predicate Reports(logs: Logs, operationId: OperationId, outcome: OperationOutcome) {
    && Claimed(logs, operationId)
    && var own, inventory := Log(logs, OperationStream(operationId)), InventoryLog(logs, operationId);
    match outcome
    case OutcomeRejected(reason) =>
      && |own| == 2 && own[1].body == Rejected(OperationRejected(operationId, reason))
      && exists n :: TrueReason(inventory, n, RequestOf(logs, operationId).operation, reason)
    case OutcomeCompleted(write) =>
      && |own| == 3 && IsPrepared(logs, operationId) && PinnedCell(logs, operationId) < |inventory|
      && var cell := PinnedCell(logs, operationId);
      && inventory[cell].id == operationId.value
      && inventory[cell].body == Applied(RequestOf(logs, operationId).operation)
      && write == CommittedInventoryWrite(cell, inventory[cell].position)
    case OutcomeConflicted(conflict) =>
      && |own| == 3 && IsPrepared(logs, operationId) && PinnedCell(logs, operationId) < |inventory|
      && var cell := PinnedCell(logs, operationId);
      && inventory[cell].id != operationId.value
      && conflict == InventoryConflict(cell - 1, cell, inventory[cell].id)
  }

  /**
   What a stored outcome means.  A decided operation is completed exactly when the
   cell it was pinned to holds its own event, and the outcome records that cell's
   revision and position; it is conflicted exactly when that cell holds another
   event, and the outcome names it; otherwise it was rejected, with the stored reason,
   which was true.
   */
  lemma OutcomeTellsTheTruth(s: System, operationId: OperationId)
    requires Reachable(s)
    requires OutcomeOf(s.logs, operationId).Some?
    ensures Reports(s.logs, operationId, OutcomeOf(s.logs, operationId).value)
    ensures IsPrepared(s.logs, operationId) <==> !OutcomeOf(s.logs, operationId).value.OutcomeRejected?
    ensures IsPrepared(s.logs, operationId) ==>
      var log := InventoryLog(s.logs, operationId);
      var cell := PinnedCell(s.logs, operationId);
      && cell < |log|
      && OutcomeOf(s.logs, operationId).value ==
           if log[cell].id == operationId.value
           then OutcomeCompleted(CommittedInventoryWrite(cell, log[cell].position))
           else OutcomeConflicted(InventoryConflict(cell - 1, cell, log[cell].id))
    ensures !IsPrepared(s.logs, operationId) ==>
      var own := Log(s.logs, OperationStream(operationId));
      && |own| == 2 && own[1].body.Rejected?
      && OutcomeOf(s.logs, operationId) == Some(OutcomeRejected(own[1].body.rejected.reason))
  {
    ReachableIsInvariant(s);
    OutcomeIsReported(s, operationId);
  }

  lemma OutcomeIsReported(s: System, operationId: OperationId)
    requires Inv(s) && OutcomeOf(s.logs, operationId).Some?
    ensures Reports(s.logs, operationId, OutcomeOf(s.logs, operationId).value)
  {
    CurrentStateIsStored(s, operationId);
    var own := Log(s.logs, OperationStream(operationId));
    assert CellOk(s.logs, OperationStream(operationId), 1);
    if own[1].body.Rejected? {
      var n := StoredReasonWasTrue(s, operationId);
    } else {
      assert CellOk(s.logs, OperationStream(operationId), 2);
      InventoryCellsBelongToTheirId(s, RequestOf(s.logs, operationId).inventoryStream, PinnedCell(s.logs, operationId));
    }
  }

  /** An operation reported rejected or conflicted never touches the inventory, in any continuation. */
  lemma RefusedNeverApplied(s: System, t: System, operationId: OperationId, name: string, cell: nat)
    requires Reachable(s) && Reaches(s, t)
    requires OutcomeOf(s.logs, operationId).Some? && !OutcomeOf(s.logs, operationId).value.OutcomeCompleted?
    requires 0 < cell < |Log(t.logs, InventoryStream(name))|
    ensures Log(t.logs, InventoryStream(name))[cell].id != operationId.value
  {
    OutcomesAgree(s, t, operationId);
    ReachableContinues(s, t);
    OutcomeTellsTheTruth(t, operationId);
    ReachableIsInvariant(t);
    InventoryCellsBelongToTheirId(t, name, cell);
  }

  /** An operation reported completed is in the inventory, once, in every continuation. */
  lemma CompletedStaysApplied(s: System, t: System, operationId: OperationId)
    requires Reachable(s) && Reaches(s, t)
    requires OutcomeOf(s.logs, operationId).Some? && OutcomeOf(s.logs, operationId).value.OutcomeCompleted?
    ensures IsPrepared(t.logs, operationId)
    ensures var cell := OutcomeOf(s.logs, operationId).value.write.inventoryRevision;
      && 0 < cell < |InventoryLog(t.logs, operationId)|
      && InventoryLog(t.logs, operationId)[cell].id == operationId.value
      && InventoryLog(t.logs, operationId)[cell].body == Applied(RequestOf(t.logs, operationId).operation)
      && InventoryLog(t.logs, operationId)[cell].position == OutcomeOf(s.logs, operationId).value.write.position
  {
    OutcomesAgree(s, t, operationId);
    ReachableContinues(s, t);
    OutcomeTellsTheTruth(t, operationId);
    ReachableIsInvariant(t);
    InventoryCellsBelongToTheirId(t, RequestOf(t.logs, operationId).inventoryStream, PinnedCell(t.logs, operationId));
  }

  lemma ReachableContinues(s: System, t: System)
    requires Reachable(s) && Reaches(s, t)
    ensures Reachable(t)
  {
    assert Reaches(INITIAL, s);
    ReachesIsTransitive(INITIAL, s, t);
  }

  // ---------------------------------------------------------------- recovery

  /** One worker sends what it read calls for and the server takes it into a free cell. */
  lemma SendAndDeliver(s: System, choice: Choice, position: Position) returns (t: System)
    requires Message(s.logs, choice).Some?
    requires var request := Message(s.logs, choice).value;
      |Log(s.logs, request.stream)| == request.expected.Target()
    ensures Reaches(s, t)
    ensures var request := Message(s.logs, choice).value;
      && Log(t.logs, request.stream) == Log(s.logs, request.stream)
           + [Recorded(request.expected.Target(), request.id, position, request.body)]
      && forall other | other != request.stream :: Log(t.logs, other) == Log(s.logs, other)
  {
    var request := Message(s.logs, choice).value;
    var sent := Next(s, choice);
    t := Next(sent, Deliver(request, position));
    ReachesByStep(s, choice);
    ReachesByStep(sent, Deliver(request, position));
    ReachesIsTransitive(s, sent, t);
  }

  /**
   Nothing is ever stuck: from any reachable state, however workers died on the way and
   whether or not the inventory still folds, a claimed operation can be driven to an
   outcome by steps that touch only its own stream and its inventory.  On a history that
   stopped folding, a decision takes a worker whose read was one event short.
   */
  lemma EveryOperationCanFinish(s: System, operationId: OperationId, position: Position) returns (t: System)
    requires Reachable(s) && Claimed(s.logs, operationId)
    requires InventoryLog(s.logs, operationId) != []
    ensures Reaches(s, t) && OutcomeOf(t.logs, operationId).Some?
    ensures forall other |
      && other != OperationStream(operationId)
      && other != InventoryStream(RequestOf(s.logs, operationId).inventoryStream)
      :: Log(t.logs, other) == Log(s.logs, other)
  {
    ReachableIsInvariant(s);
    t := s;
    ReachesByStep(s, SendInventory(operationId, 0));
    CurrentStateIsStored(s, operationId);
    if CurrentState(s.logs, operationId).value.RequestedState? {
      var n := LongestFold(s, RequestOf(s.logs, operationId).inventoryStream);
      t := Decide(s, operationId, n, position);
      CurrentStateIsStored(t, operationId);
      assert CurrentState(t.logs, operationId).value.Revision() == 1;
    }
    if CurrentState(t.logs, operationId).value.PreparedState? {
      CurrentStateIsStored(t, operationId);
      var u := Finish(t, operationId, position);
      ReachesIsTransitive(s, t, u);
      t := u;
    }
  }

  /** A reader who sees all of the history, or all but its last event, can fold it. */
  lemma LongestFold(s: System, name: string) returns (n: nat)
    requires Inv(s) && Log(s.logs, InventoryStream(name)) != []
    ensures |Log(s.logs, InventoryStream(name))| - 1 <= n <= |Log(s.logs, InventoryStream(name))|
    ensures FoldInventory(Prefix(Log(s.logs, InventoryStream(name)), n)).Some?
  {
    var log := Log(s.logs, InventoryStream(name));
    FoldsUnlessReused(s, name);
    n := if FoldInventory(log).Some? then |log| else |log| - 1;
    assert log[..|log|] == log;
    if n == 0 { HistoryIsCreatedOnce(s, name); }
  }

  lemma Decide(s: System, operationId: OperationId, inventorySeen: nat, position: Position) returns (t: System)
    requires Inv(s) && CurrentState(s.logs, operationId).Some?
    requires CurrentState(s.logs, operationId).value.RequestedState?
    requires FoldInventory(Prefix(Log(s.logs,
      InventoryStream(CurrentState(s.logs, operationId).value.requested.inventoryStream)), inventorySeen)).Some?
    ensures Reaches(s, t) && Inv(t)
    ensures forall other | other != OperationStream(operationId) :: Log(t.logs, other) == Log(s.logs, other)
    ensures
      var requested := CurrentState(s.logs, operationId).value.requested;
      var log := Log(s.logs, InventoryStream(requested.inventoryStream));
      var decision := DecisionAppend(requested, FoldInventory(Prefix(log, inventorySeen)).value);
      Log(t.logs, OperationStream(operationId))
        == Log(s.logs, OperationStream(operationId)) + [Recorded(1, decision.id, position, decision.body)]
  {
    CurrentStateIsStored(s, operationId);
    t := SendAndDeliver(s, SendDecision(operationId, 1, inventorySeen), position);
    ReachesKeepsInvariant(s, t);
  }

  lemma Finish(s: System, operationId: OperationId, position: Position) returns (t: System)
    requires Inv(s) && CurrentState(s.logs, operationId).Some?
    requires CurrentState(s.logs, operationId).value.PreparedState?
    ensures Reaches(s, t) && OutcomeOf(t.logs, operationId).Some?
    ensures var name := CurrentState(s.logs, operationId).value.requested.inventoryStream;
      forall other | other != OperationStream(operationId) && other != InventoryStream(name) ::
        Log(t.logs, other) == Log(s.logs, other)
  {
    var u := FillPinnedCell(s, operationId, position);
    var state := CurrentState(u.logs, operationId).value;
    var inventory := Log(u.logs, InventoryStream(state.requested.inventoryStream));
    CurrentStateIsStored(u, operationId);
    t := SendAndDeliver(u, SendTerminalInspected(operationId, 2, |inventory|), position);
    ReachesIsTransitive(s, u, t);
    ReachesKeepsInvariant(u, t);
    CurrentStateIsStored(t, operationId);
  }

  lemma FillPinnedCell(s: System, operationId: OperationId, position: Position) returns (t: System)
    requires Inv(s) && CurrentState(s.logs, operationId).Some?
    requires CurrentState(s.logs, operationId).value.PreparedState?
    ensures Reaches(s, t) && Inv(t)
    ensures CurrentState(t.logs, operationId) == CurrentState(s.logs, operationId)
    ensures var state := CurrentState(s.logs, operationId).value;
      && state.prepared.expectedInventoryRevision + 1 < |Log(t.logs, InventoryStream(state.requested.inventoryStream))|
      && forall other | other != InventoryStream(state.requested.inventoryStream) ::
           Log(t.logs, other) == Log(s.logs, other)
  {
    CurrentStateIsStored(s, operationId);
    var state := CurrentState(s.logs, operationId).value;
    var inventory := InventoryStream(state.requested.inventoryStream);
    assert CellOk(s.logs, OperationStream(operationId), 1);
    t := s;
    ReachesByStep(s, SendInventory(operationId, 2));
    if |Log(s.logs, inventory)| == state.prepared.expectedInventoryRevision + 1 {
      t := SendAndDeliver(s, SendInventory(operationId, 2), position);
    }
    ReachesKeepsInvariant(s, t);
    assert Log(t.logs, OperationStream(operationId)) == Log(s.logs, OperationStream(operationId));
  }

  /** No decision of this operation was ever sent, nor anything that would follow one. */
  ghost predicate Undecided(s: System, operationId: OperationId) {
    && Claimed(s.logs, operationId)
    && |Log(s.logs, OperationStream(operationId))| == 1
    && forall request | request in s.sent && request.stream == OperationStream(operationId) ::
         request.expected.NoStream?
  }

  /** Every decision attempted on this operation folds the whole inventory history, `size` events or more. */
  ghost predicate WholeReaders(choices: seq<Choice>, operationId: OperationId, size: nat) {
    forall choice | choice in choices && choice.SendDecision? && choice.operationId == operationId ::
      choice.inventorySeen >= size
  }

  /**
   The counterpart: once the history stopped folding, workers that read all of it never
   decide an operation that has no decision yet, however often they try.
   */
  lemma {:induction false} WholeReadersNeverDecide(s: System, choices: seq<Choice>, operationId: OperationId)
    requires Reachable(s) && Undecided(s, operationId)
    requires InventoryLog(s.logs, operationId) != [] && FoldInventory(InventoryLog(s.logs, operationId)).None?
    requires WholeReaders(choices, operationId, |InventoryLog(s.logs, operationId)|)
    ensures Undecided(Run(s, choices), operationId)
    ensures Log(Run(s, choices).logs, OperationStream(operationId)) == Log(s.logs, OperationStream(operationId))
    ensures OutcomeOf(Run(s, choices).logs, operationId).None?
  {
    if choices != [] {
      var before, choice := choices[..|choices| - 1], choices[|choices| - 1];
      WholeReadersNeverDecide(s, before, operationId);
      var t := Run(s, before);
      assert Reaches(s, t);
      PanickedHistoryIsStuck(s, t, RequestOf(s.logs, operationId).inventoryStream);
      ReachableIsInvariant(s);
      RunKeepsInvariant(s, before);
      StaysUndecided(t, choice, operationId);
    }
    ReachableIsInvariant(s);
    RunKeepsInvariant(s, choices);
    CurrentStateIsStored(Run(s, choices), operationId);
  }

  lemma StaysUndecided(s: System, choice: Choice, operationId: OperationId)
    requires Inv(s) && Undecided(s, operationId)
    requires FoldInventory(InventoryLog(s.logs, operationId)).None?
    requires choice.SendDecision? && choice.operationId == operationId ==>
      choice.inventorySeen >= |InventoryLog(s.logs, operationId)|
    ensures Undecided(Next(s, choice), operationId)
    ensures Log(Next(s, choice).logs, OperationStream(operationId)) == Log(s.logs, OperationStream(operationId))
  {
    if !choice.Deliver? && !choice.SendCreate? && !choice.SendClaim? {
      SeenStateIsStored(s, choice.operationId, choice.seen);
      if choice.SendDecision? && choice.operationId == operationId {
        var log := InventoryLog(s.logs, operationId);
        assert |log| <= choice.inventorySeen ==> Prefix(log, choice.inventorySeen) == log;
      }
    }
  }

  lemma ClaimFresh(s: System, name: string, operation: InventoryOperation, decisionId: Uuid, terminalId: Uuid,
                   position: Position) returns (t: System)
    requires Inv(s) && Log(s.logs, OperationStream(operation.operationId)) == []
    ensures Reaches(s, t) && Inv(t)
    ensures CurrentState(t.logs, operation.operationId)
         == Some(RequestedState(ClaimRequest(name, operation, decisionId, terminalId)))
    ensures forall other | other != OperationStream(operation.operationId) :: Log(t.logs, other) == Log(s.logs, other)
  {
    t := SendAndDeliver(s, SendClaim(name, operation, decisionId, terminalId), position);
    ReachesKeepsInvariant(s, t);
    SeenByWorker(t, operation.operationId, RequestedState(ClaimRequest(name, operation, decisionId, terminalId)));
  }

  lemma ViewRevision(s: System, name: string)
    requires Inv(s) && FoldInventory(Log(s.logs, InventoryStream(name))).Some?
    ensures FoldInventory(Log(s.logs, InventoryStream(name))).value.revision == |Log(s.logs, InventoryStream(name))| - 1
  {
    assert CellOk(s.logs, InventoryStream(name), |Log(s.logs, InventoryStream(name))| - 1);
  }

  lemma AcceptedCommandPrepares(s: System, name: string, operation: InventoryOperation, decisionId: Uuid,
                                terminalId: Uuid, position: Position) returns (t: System)
    requires Inv(s) && Log(s.logs, OperationStream(operation.operationId)) == []
    requires FoldInventory(Log(s.logs, InventoryStream(name))).Some?
    requires RejectInventoryCommand(FoldInventory(Log(s.logs, InventoryStream(name))).value.state, operation) == None
    ensures Reaches(s, t) && Inv(t)
    ensures SeenState(t.logs, operation.operationId, 2) ==
      Some(PreparedState(ClaimRequest(name, operation, decisionId, terminalId),
                         OperationPrepared(operation.operationId, |Log(s.logs, InventoryStream(name))| - 1)))
    ensures var own := Log(t.logs, OperationStream(operation.operationId)); |own| == 2 && own[1].id == decisionId
    ensures forall other | other != OperationStream(operation.operationId) :: Log(t.logs, other) == Log(s.logs, other)
  {
    var operationId := operation.operationId;
    var claimed := ClaimFresh(s, name, operation, decisionId, terminalId, position);
    var log := Log(s.logs, InventoryStream(name));
    assert Prefix(log, |log|) == log;
    t := Decide(claimed, operationId, |log|, position);
    ReachesIsTransitive(s, claimed, t);
    CurrentStateIsStored(claimed, operationId);
    ViewRevision(s, name);
    var state := PreparedState(ClaimRequest(name, operation, decisionId, terminalId),
                               OperationPrepared(operationId, |log| - 1));
    var own := Log(t.logs, OperationStream(operationId));
    assert own[..2] == own;
    assert own[1].body == Prepared(state.prepared);
    assert Stores(operationId, own, state);
    SeenByWorker(t, operationId, state);
  }

  /** Run alone, a fresh command that the rule accepts on the current inventory is written next. */
  lemma AcceptedCommandCommits(s: System, name: string, operation: InventoryOperation, decisionId: Uuid,
                               terminalId: Uuid, position: Position) returns (t: System)
    requires Inv(s) && Log(s.logs, OperationStream(operation.operationId)) == []
    requires FoldInventory(Log(s.logs, InventoryStream(name))).Some?
    requires RejectInventoryCommand(FoldInventory(Log(s.logs, InventoryStream(name))).value.state, operation) == None
    ensures Reaches(s, t)
    ensures var log := Log(s.logs, InventoryStream(name));
      Log(t.logs, InventoryStream(name))
        == log + [Recorded(|log|, operation.operationId.value, position, Applied(operation))]
    ensures var own := Log(t.logs, OperationStream(operation.operationId)); |own| == 2 && own[1].id == decisionId
    ensures forall other | other != OperationStream(operation.operationId) && other != InventoryStream(name) ::
      Log(t.logs, other) == Log(s.logs, other)
  {
    var prepared := AcceptedCommandPrepares(s, name, operation, decisionId, terminalId, position);
    t := SendAndDeliver(prepared, SendInventory(operation.operationId, 2), position);
    ReachesIsTransitive(s, prepared, t);
  }

  /** A state the log stores is a state a worker can have read. */
  lemma SeenByWorker(s: System, operationId: OperationId, state: OperationState)
    requires Inv(s)
    requires var log := Log(s.logs, OperationStream(operationId));
      state.Revision() < |log| && Stores(operationId, log[..state.Revision() + 1], state)
    ensures SeenState(s.logs, operationId, state.Revision() + 1) == Some(state)
  {
    var log := Log(s.logs, OperationStream(operationId));
    var n := state.Revision() + 1;
    LogIsIndexed(s, OperationStream(operationId), n);
    assert Prefix(Prefix(log, n), 4) == log[..n];
    DecodedState(operationId, log[..n], state);
  }

  /** A stream just created, with nothing else in the system. */
  lemma FreshStock(created: InventoryCreated) returns (s: System)
    ensures Reaches(INITIAL, s) && Inv(s)
    ensures FoldInventory(Log(s.logs, InventoryStream("stock")))
         == Some(InventoryView(InventoryState(created.sku, created.available, map[]), 0, 1))
    ensures |Log(s.logs, InventoryStream("stock"))| == 1
    ensures forall operationId :: Log(s.logs, OperationStream(operationId)) == []
  {
    assert Inv(INITIAL);
    s := SendAndDeliver(INITIAL, SendCreate("stock", created, 0), Position(0, 0));
    ReachesKeepsInvariant(INITIAL, s);
    var log := Log(s.logs, InventoryStream("stock"));
    assert log[..0] == [];
    assert CountAll(log[..0]) == Some(EMPTY_TALLY);
  }

  /** An accepted reserve on a fresh stream: the reservation is active afterwards. */
  lemma OneReservation(created: InventoryCreated, operation: InventoryOperation) returns (s: System)
    requires operation.Reserve? && operation.sku == created.sku && operation.quantity <= created.available
    ensures Reaches(INITIAL, s) && Inv(s)
    ensures |Log(s.logs, InventoryStream("stock"))| == 2
    ensures FoldInventory(Log(s.logs, InventoryStream("stock"))) ==
      Some(InventoryView(InventoryState(created.sku, created.available - operation.quantity,
                                        map[operation.reservationId := operation.quantity]), 1, 2))
    ensures forall other | other != operation.operationId :: Log(s.logs, OperationStream(other)) == []
  {
    var stocked := FreshStock(created);
    s := AcceptedCommandCommits(stocked, "stock", operation, 10, 11, Position(0, 0));
    ReachesIsTransitive(INITIAL, stocked, s);
    ReachesKeepsInvariant(stocked, s);
    var log := Log(s.logs, InventoryStream("stock"));
    assert log[..1] == Log(stocked.logs, InventoryStream("stock"));
  }

  /**
   The hypothesis is needed: two operations that share a reservation id can both be
   written, and after that no reader folds the inventory again.
   */
  lemma SharedReservationIdPanics() returns (s: System)
    ensures Reachable(s) && !DistinctReservations(s.logs)
    ensures |Log(s.logs, InventoryStream("stock"))| == 3
    ensures FoldInventory(Log(s.logs, InventoryStream("stock"))).None?
  {
    var first := Reserve(OperationId(1), ReservationId(7), "a", "sku", 1);
    var second := Reserve(OperationId(2), ReservationId(7), "b", "sku", 1);
    var once := OneReservation(InventoryCreated("sku", 2), first);
    s := AcceptedCommandCommits(once, "stock", second, 20, 21, Position(0, 0));
    ReachesIsTransitive(INITIAL, once, s);
    assert Reachable(s);
    var log := Log(s.logs, InventoryStream("stock"));
    assert log[..2] == Log(once.logs, InventoryStream("stock"));
    assert ReusesReservation(log);
    ReachableIsInvariant(s);
    FoldsUnlessReused(s, "stock");
    if DistinctReservations(s.logs) {
      NoReuseWhenDistinct(s, "stock");
    }
  }
}
