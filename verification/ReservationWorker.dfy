/**
 The worker of the reservation example, statement by statement, over a store that
 other workers change between any two of its calls.  Every method leaves a state the
 protocol can reach from the one it started in, so the theorems about runs hold
 around and in the middle of it.
 */
module ReservationWorker {
  import opened Wrappers
  import opened CoreTypes
  import opened EventLog
  import opened Inventory
  import opened OperationStream
  import opened ReservationProtocol
  import opened ReservationTheorems

  const MAX_DELIVERY_ATTEMPTS: nat := 3

  ghost predicate Continues(s: System, t: System) {
    Inv(t) && Reaches(s, t) && Extends(s.logs, t.logs)
  }

  lemma ContinuesOn(s: System, t: System, u: System)
    requires Inv(s) && Continues(s, t) && Continues(t, u)
    ensures Continues(s, u)
  {
    ReachesIsTransitive(s, t, u);
    ReachesKeepsInvariant(s, u);
  }

  lemma ContinuesByRun(s: System, choices: seq<Choice>)
    requires Inv(s)
    ensures Continues(s, Run(s, choices))
  {
    RunKeepsInvariant(s, choices);
  }

  lemma ContinuesByStep(s: System, choice: Choice)
    requires Inv(s)
    ensures Continues(s, s) && Continues(s, Next(s, choice)) && s.sent <= Next(s, choice).sent
  {
    ReachesByStep(s, choice);
    StepKeepsInvariant(s, choice);
    StepExtends(s, choice);
  }

  /** The operation log stores this state, or has moved on from it. */
  ghost predicate Knows(logs: Logs, operationId: OperationId, state: OperationState) {
    var log := Log(logs, OperationStream(operationId));
    state.Revision() < |log| && Stores(operationId, log[..state.Revision() + 1], state)
  }

  lemma KnowledgeLasts(a: Logs, b: Logs, operationId: OperationId, state: OperationState)
    requires Extends(a, b) && Knows(a, operationId, state)
    ensures Knows(b, operationId, state)
  {
    var log, later := Log(a, OperationStream(operationId)), Log(b, OperationStream(operationId));
    assert log <= later;
    assert later[..state.Revision() + 1] == log[..state.Revision() + 1];
  }

  /** Two states read from one operation log carry the same request. */
  lemma KnownRequestIsStored(logs: Logs, operationId: OperationId, state: OperationState)
    requires Knows(logs, operationId, state)
    ensures Claimed(logs, operationId) && RequestOf(logs, operationId) == state.requested
    ensures state.requested.operation.operationId == operationId
  {
    var log := Log(logs, OperationStream(operationId));
    assert log[..state.Revision() + 1][0] == log[0];
  }

  /** The caller's command was carried to this stored outcome. */
  ghost predicate Settled(logs: Logs, inventoryStream: string, operation: InventoryOperation,
                          outcome: OperationOutcome)
  {
    && OutcomeOf(logs, operation.operationId) == Some(outcome)
    && Claimed(logs, operation.operationId)
    && RequestOf(logs, operation.operationId).operation == operation
    && RequestOf(logs, operation.operationId).inventoryStream == inventoryStream
  }

  lemma KnownOutcomeIsSettled(s: System, operationId: OperationId, state: OperationState)
    requires Inv(s) && Knows(s.logs, operationId, state) && state.Terminal()
    ensures Settled(s.logs, state.requested.inventoryStream, state.requested.operation, TerminalOutcome(state).value)
  {
    KnownRequestIsStored(s.logs, operationId, state);
    CurrentStateIsStored(s, operationId);
    var log := Log(s.logs, OperationStream(operationId));
    var seen := log[..state.Revision() + 1];
    assert forall k | 0 <= k < |seen| :: seen[k] == log[k];
    if |log| > 2 {
      assert CellOk(s.logs, OperationStream(operationId), 2);
    }
  }

  /**
   Any two successful executions that claim one operation id, by any workers at any
   times, were given the same command and return the same outcome.
   */
  lemma ExecutionsAgree(s: System, t: System, operation: InventoryOperation, inventoryStream: string,
                        outcome: OperationOutcome, otherOperation: InventoryOperation, otherStream: string,
                        otherOutcome: OperationOutcome)
    requires Reachable(s) && Reaches(s, t)
    requires operation.operationId == otherOperation.operationId
    requires Settled(s.logs, inventoryStream, operation, outcome)
    requires Settled(t.logs, otherStream, otherOperation, otherOutcome)
    ensures operation == otherOperation && inventoryStream == otherStream && outcome == otherOutcome
  {
    OutcomesAgree(s, t, operation.operationId);
    FirstClaimWins(s, t, operation.operationId, inventoryStream, operation, 0, 0, Position(0, 0));
  }

  /** A read sees a state at or above a revision exactly when it saw more events than that. */
  lemma ReadReachesCell(s: System, operationId: OperationId, seen: nat, revision: nat)
    requires Inv(s) && seen <= |Log(s.logs, OperationStream(operationId))|
    ensures seen > revision
       <==> && SeenState(s.logs, operationId, seen).Some?
            && SeenState(s.logs, operationId, seen).value.Revision() >= revision
  {
    ReadDecodes(s, operationId, seen);
  }

  /**
   An acknowledged claim that a stale read does not see: the worker's answer to it is
   that the store did not retain the appended transition, although it did.
   */
  lemma AcknowledgedButNotSeen(name: string, operation: InventoryOperation, position: Position)
    returns (s: System, claim: Append, seen: nat)
    ensures Reachable(s) && claim in s.sent
    ensures Delivered(s.logs, claim, position).1.Acknowledged?
    ensures
      var t := Next(s, Deliver(claim, position));
      var log := Log(t.logs, OperationStream(operation.operationId));
      && claim.expected.Target() < |log| && log[claim.expected.Target()].id == claim.id
      && seen <= claim.expected.Target() && SeenState(t.logs, operation.operationId, seen).None?
  {
    var choice := SendClaim(name, operation, 1, 2);
    claim, seen := ClaimAppend(name, operation, 1, 2), 0;
    s := Next(INITIAL, choice);
    ReachesByStep(INITIAL, choice);
    var t := Next(s, Deliver(claim, position));
    assert Inv(INITIAL);
    StepKeepsInvariant(INITIAL, choice);
    StepKeepsInvariant(s, Deliver(claim, position));
    ReadDecodes(t, operation.operationId, 0);
  }

  /** The whole history of an inventory ends in an event that reuses an active reservation id. */
  ghost predicate EndsInReuse(logs: Logs, inventoryStream: string) {
    var log := Log(logs, InventoryStream(inventoryStream));
    log != [] && ReusesReservation(log)
  }

  /** The cell an operation is pinned to is written already or is the next one to be. */
  lemma PinnedCellIsNear(s: System, requested: OperationRequested, prepared: OperationPrepared)
    requires Inv(s) && Knows(s.logs, requested.operation.operationId, PreparedState(requested, prepared))
    ensures prepared.expectedInventoryRevision + 1 <= |Log(s.logs, InventoryStream(requested.inventoryStream))|
  {
    var own := Log(s.logs, OperationStream(requested.operation.operationId));
    assert own[..2][0] == own[0] && own[..2][1] == own[1];
    assert CellOk(s.logs, OperationStream(requested.operation.operationId), 1);
  }

  class EventStore {
    var system: System
    /** Whether a read returns at least what was stored when it was called, or may be older than that. */
    const readsAreCurrent: bool
    /** Whether the store never fails a call. */
    const healthy: bool
    /**
     The calls the store failed so far: appends that were not delivered or whose answer
     was lost, and reads that were not answered or were older than the call.
     */
    ghost var faults: nat

    constructor (readsAreCurrent: bool, healthy: bool)
      ensures system == INITIAL && Inv(system) && faults == 0
      ensures this.readsAreCurrent == readsAreCurrent && this.healthy == healthy
    {
      system := INITIAL;
      faults := 0;
      this.readsAreCurrent := readsAreCurrent;
      this.healthy := healthy;
    }

    /** Everyone else: any number of steps of any workers and of the network. */
    method Interfere()
      requires Inv(system)
      modifies `system
      ensures Continues(old(system), system)
    {
      var choices: seq<Choice> := *;
      ContinuesByRun(system, choices);
      system := Run(system, choices);
    }

    /**
     Sends one append.  It may be delivered at any later time, whatever the caller is
     told; a success says the target cell holds the event's id.
     */
    method AppendToStream(request: Append, ghost choice: Choice) returns (r: Result<WriteResult, Error>)
      requires Inv(system)
      requires Message(system.logs, choice) == Some(request)
      modifies this
      ensures Continues(old(system), system)
      ensures old(faults) <= faults && (healthy ==> faults == old(faults))
      ensures request in system.sent
      ensures r.Success? ==>
        var log := Log(system.logs, request.stream);
        var target := request.expected.Target();
        target < |log| && log[target].id == request.id && r.value == WriteResult(target, log[target].position)
      ensures r.Failure? ==> r.error == ClientError
      ensures
        var target := request.expected.Target();
        var log := Log(system.logs, request.stream);
        faults == old(faults) && target <= |old(Log(system.logs, request.stream))| ==>
          target < |log| && (r.Success? <==> log[target].id == request.id)
    {
      ghost var s0 := system;
      ContinuesByStep(system, choice);
      system := system.(sent := system.sent + {request});
      ghost var s1 := system;
      Interfere();
      ReachesKeepsInvariant(s1, system);
      ContinuesOn(s0, s1, system);
      var delivered: bool := *;
      if healthy || delivered {
        ghost var s2 := system;
        assert Log(s0.logs, request.stream) <= Log(s2.logs, request.stream);
        var reply := Arrive(request);
        ContinuesOn(s0, s2, system);
        ghost var s3 := system;
        Interfere();
        ReachesKeepsInvariant(s3, system);
        ContinuesOn(s0, s3, system);
        assert Log(s3.logs, request.stream) <= Log(system.logs, request.stream);
        var answered: bool := *;
        if healthy || answered {
          return if reply.Acknowledged? then Success(reply.write) else Failure(ClientError);
        }
      }
      faults := faults + 1;
      return Failure(ClientError);
    }

    /** The network hands a sent append to the server. */
    method Arrive(request: Append) returns (reply: AppendReply)
      requires Inv(system) && request in system.sent
      modifies `system
      ensures Continues(old(system), system) && system.sent == old(system.sent)
      ensures request.expected.Target() <= |old(Log(system.logs, request.stream))| ==>
        && request.expected.Target() < |Log(system.logs, request.stream)|
        && (reply.Acknowledged? <==> Log(system.logs, request.stream)[request.expected.Target()].id == request.id)
      ensures reply.Acknowledged? ==>
        var log := Log(system.logs, request.stream);
        var target := request.expected.Target();
        target < |log| && log[target].id == request.id && reply.write == WriteResult(target, log[target].position)
    {
      var position: Position := *;
      ContinuesByStep(system, Deliver(request, position));
      var (logs, answer) := Delivered(system.logs, request, position);
      system := system.(logs := logs);
      reply := answer;
    }

    /** Reads a stream from a position: some prefix of its log, cut to the requested window. */
    method ReadStream(stream: StreamName, from: nat, maxCount: Option<nat>)
      returns (r: Result<seq<Recorded>, Error>, ghost seen: nat)
      requires Inv(system)
      modifies this
      ensures Continues(old(system), system)
      ensures old(faults) <= faults && (healthy ==> faults == old(faults))
      ensures seen <= |Log(system.logs, stream)|
      ensures r.Success? ==>
        && seen > 0
        && var tail := Log(system.logs, stream)[..seen][if from <= seen then from else seen..];
        r.value == if maxCount.Some? then Prefix(tail, maxCount.value) else tail
      ensures r.Failure? ==> r.error == ClientError || r.error == ResourceNotFound
      ensures r == Failure(ResourceNotFound) ==> seen == 0
      ensures readsAreCurrent ==> seen >= |old(Log(system.logs, stream))|
      ensures faults == old(faults) ==> r != Failure(ClientError) && seen >= |old(Log(system.logs, stream))|
    {
      ghost var s0 := system;
      var stored := |Log(system.logs, stream)|;
      Interfere();
      ghost var s1 := system;
      assert Log(s0.logs, stream) <= Log(s1.logs, stream);
      var n: nat :| readsAreCurrent || healthy ==> stored <= n;
      var events := Prefix(Log(system.logs, stream), n);
      seen := |events|;
      if events == [] {
        r := Failure(ResourceNotFound);
      } else {
        var tail := events[if from <= |events| then from else |events|..];
        r := Success(if maxCount.Some? then Prefix(tail, maxCount.value) else tail);
      }
      var answered: bool := *;
      if !healthy && !answered {
        r := Failure(ClientError);
      }
      if r == Failure(ClientError) || seen < stored { faults := faults + 1; }
      Interfere();
      ContinuesOn(s0, s1, system);
      assert Log(s1.logs, stream) <= Log(system.logs, stream);
      assert events == Log(system.logs, stream)[..seen];
    }

    method ReadInventory(inventoryStream: string) returns (r: Result<InventoryView, Error>, ghost seen: nat)
      requires Inv(system)
      modifies this
      ensures Continues(old(system), system)
      ensures old(faults) <= faults && (healthy ==> faults == old(faults))
      ensures r.Success? ==>
        && 0 < seen <= |Log(system.logs, InventoryStream(inventoryStream))|
        && FoldInventory(Log(system.logs, InventoryStream(inventoryStream))[..seen]) == Some(r.value)
      ensures r.Failure? ==> r.error in {ClientError, ResourceNotFound, Panicked}
      ensures r == Failure(Panicked) ==>
        && EndsInReuse(system.logs, inventoryStream) && seen == |Log(system.logs, InventoryStream(inventoryStream))|
        && !DistinctReservations(system.logs)
      ensures faults == old(faults) ==>
        && seen >= |old(Log(system.logs, InventoryStream(inventoryStream)))|
        && r != Failure(ClientError) && (r == Failure(ResourceNotFound) ==> seen == 0)
    {
      var events;
      events, seen := ReadStream(InventoryStream(inventoryStream), 0, None);
      if events.Failure? {
        r := Failure(events.error);
        return;
      }
      assert events.value == Log(system.logs, InventoryStream(inventoryStream))[..seen];
      var view := ReadInventoryEvents(events.value);
      if view.None? {
        FoldsUnlessReused(system, inventoryStream);
        if DistinctReservations(system.logs) { NoReuseWhenDistinct(system, inventoryStream); }
        assert events.value == Log(system.logs, InventoryStream(inventoryStream));
        r := Failure(Panicked);
      } else {
        r := Success(view.value);
      }
    }

    method ReadOperation(operationId: OperationId)
      returns (r: Result<Option<OperationState>, Error>, ghost seen: nat)
      requires Inv(system)
      modifies this
      ensures Continues(old(system), system)
      ensures old(faults) <= faults && (healthy ==> faults == old(faults))
      ensures seen <= |Log(system.logs, OperationStream(operationId))|
      ensures r.Success? ==> r.value == SeenState(system.logs, operationId, seen)
      ensures r.Success? && r.value.Some? ==> Knows(system.logs, operationId, r.value.value)
      ensures r.Failure? ==> r.error == ClientError
      ensures readsAreCurrent ==> seen >= |old(Log(system.logs, OperationStream(operationId)))|
      ensures faults == old(faults) ==> r.Success? && seen >= |old(Log(system.logs, OperationStream(operationId)))|
    {
      var events;
      events, seen := ReadStream(OperationStream(operationId), 0, Some(4));
      var log := Log(system.logs, OperationStream(operationId));
      ReadDecodes(system, operationId, seen);
      if events.Failure? {
        r := if events.error == ResourceNotFound then Success(None) else Failure(events.error);
        return;
      }
      assert events.value == Prefix(Prefix(log, seen), 4);
      r := ReadOperationEvents(operationId, events.value);
      SeenStateIsStored(system, operationId, seen);
    }

    /**
     Sends one event of an operation and reads the operation back.  `acknowledged` is
     what the append reported and `seen` how much the following read saw, if it
     succeeded: the answer is the state read when that reaches the minimum revision, and
     the one invalid-stream error comes exactly from an acknowledged append whose
     following read stops short of it, which no current read does.
     */
    method AppendOperationEvent(request: Append, ghost choice: Choice, operationId: OperationId,
                                minimumStoredRevision: nat)
      returns (r: Result<OperationState, Error>, ghost acknowledged: bool, ghost seen: Option<nat>)
      requires Inv(system)
      requires Message(system.logs, choice) == Some(request)
      modifies this
      ensures Continues(old(system), system)
      ensures old(faults) <= faults && (healthy ==> faults == old(faults))
      ensures acknowledged ==>
        var log := Log(system.logs, request.stream);
        request.expected.Target() < |log| && log[request.expected.Target()].id == request.id
      ensures seen.Some? ==> seen.value <= |Log(system.logs, OperationStream(operationId))|
      ensures r.Success? <==> seen.Some? && seen.value > minimumStoredRevision
      ensures r.Success? ==>
        && Some(r.value) == SeenState(system.logs, operationId, seen.value)
        && Knows(system.logs, operationId, r.value) && r.value.Revision() >= minimumStoredRevision
      ensures r.Failure? ==> r.error in {ClientError, InvalidOperationStream(NotRetained)}
      ensures r == Failure(InvalidOperationStream(NotRetained))
         <==> acknowledged && seen.Some? && seen.value <= minimumStoredRevision
      ensures
        && readsAreCurrent && request.stream == OperationStream(operationId)
        && minimumStoredRevision <= request.expected.Target()
        ==> r != Failure(InvalidOperationStream(NotRetained))
      ensures
        && faults == old(faults) && request.stream == OperationStream(operationId)
        && minimumStoredRevision <= request.expected.Target() <= |old(Log(system.logs, request.stream))|
        ==> r.Success?
    {
      ghost var s0 := system;
      var appended := AppendToStream(request, choice);
      acknowledged := appended.Success?;
      ghost var s1 := system;
      var stored;
      ghost var read;
      stored, read := ReadOperation(operationId);
      ContinuesOn(s0, s1, system);
      assert Log(s1.logs, request.stream) <= Log(system.logs, request.stream);
      seen := if stored.Success? then Some(read) else None;
      ReadReachesCell(system, operationId, read, minimumStoredRevision);
      if stored.Failure? {
        r := Failure(stored.error);
      } else if stored.value.Some? && stored.value.value.Revision() >= minimumStoredRevision {
        r := Success(stored.value.value);
      } else if appended.Failure? {
        r := Failure(appended.error);
      } else {
        r := Failure(InvalidOperationStream(NotRetained));
      }
    }

    /** Claims an operation id for a command, or finds the id already claimed. */
    method ClaimOperation(inventoryStream: string, operation: InventoryOperation)
      returns (r: Result<OperationState, Error>)
      requires Inv(system)
      modifies this
      ensures Continues(old(system), system)
      ensures old(faults) <= faults && (healthy ==> faults == old(faults))
      ensures r.Success? ==>
        && Knows(system.logs, operation.operationId, r.value)
        && r.value.requested.operation == operation
        && r.value.requested.inventoryStream == inventoryStream
      ensures r.Failure? ==>
        r.error in {ClientError, InvalidOperationStream(NotRetained), OperationIdConflict(operation.operationId)}
      ensures readsAreCurrent ==> r != Failure(InvalidOperationStream(NotRetained))
      ensures faults == old(faults) && r.Failure? ==> r.error.OperationIdConflict?
      ensures r.Failure? && r.error.OperationIdConflict? ==>
        && Claimed(system.logs, operation.operationId)
        && var stored := RequestOf(system.logs, operation.operationId);
        stored.operation != operation || stored.inventoryStream != inventoryStream
    {
      ghost var s0 := system;
      var operationId := operation.operationId;
      var found, _ := ReadOperation(operationId);
      if found.Failure? { return Failure(found.error); }
      var state: OperationState;
      if found.value.Some? {
        state := found.value.value;
      } else {
        ghost var s1 := system;
        var decisionId: Uuid := *;
        var terminalId: Uuid := *;
        var claim := ClaimAppend(inventoryStream, operation, decisionId, terminalId);
        ghost var choice := SendClaim(inventoryStream, operation, decisionId, terminalId);
        var stored, _, _ := AppendOperationEvent(claim, choice, operationId, 0);
        ContinuesOn(s0, s1, system);
        if stored.Failure? { return Failure(stored.error); }
        state := stored.value;
      }
      KnownRequestIsStored(system.logs, operationId, state);
      assert ConsistentRequest(operationId, operationId.value, state.requested);
      if !SameRequest(state, inventoryStream, operation) {
        return Failure(OperationIdConflict(operationId));
      }
      return Success(state);
    }

    method DecideRequested(requested: OperationRequested) returns (r: Result<OperationState, Error>)
      requires Inv(system)
      requires Knows(system.logs, requested.operation.operationId, RequestedState(requested))
      modifies this
      ensures Continues(old(system), system)
      ensures old(faults) <= faults && (healthy ==> faults == old(faults))
      ensures r.Success? ==>
        && Knows(system.logs, requested.operation.operationId, r.value)
        && r.value.Revision() >= 1 && r.value.requested == requested
      ensures r.Failure? ==>
        r.error in {ClientError, ResourceNotFound, Panicked, InvalidOperationStream(NotRetained)}
      ensures readsAreCurrent ==> r != Failure(InvalidOperationStream(NotRetained))
      ensures r == Failure(Panicked) ==>
        EndsInReuse(system.logs, requested.inventoryStream) && !DistinctReservations(system.logs)
      ensures faults == old(faults) && r.Failure? ==>
        || r.error == Panicked
        || (r.error == ResourceNotFound && old(Log(system.logs, InventoryStream(requested.inventoryStream))) == [])
    {
      ghost var s0 := system;
      var inventory, seen := ReadInventory(requested.inventoryStream);
      if inventory.Failure? { return Failure(inventory.error); }
      ghost var s1 := system;
      var operationId := requested.operation.operationId;
      KnowledgeLasts(s0.logs, s1.logs, operationId, RequestedState(requested));
      SeenByWorker(system, operationId, RequestedState(requested));
      var decided, _, _ := AppendOperationEvent(DecisionAppend(requested, inventory.value),
                                                SendDecision(operationId, 1, seen), operationId, 1);
      r := decided;
      ContinuesOn(s0, s1, system);
      KnowledgeLasts(s1.logs, system.logs, operationId, RequestedState(requested));
      KnownRequestIsStored(system.logs, operationId, RequestedState(requested));
      if r.Success? { KnownRequestIsStored(system.logs, operationId, r.value); }
    }

    /** Writes the inventory event into its pinned cell, or reports what that cell holds. */
    method AppendInventory(requested: OperationRequested, prepared: OperationPrepared)
      returns (r: Result<InventoryAppendResult, Error>)
      requires Inv(system)
      requires Knows(system.logs, requested.operation.operationId, PreparedState(requested, prepared))
      modifies this
      ensures Continues(old(system), system)
      ensures old(faults) <= faults && (healthy ==> faults == old(faults))
      ensures r.Success? ==>
        var log := Log(system.logs, InventoryStream(requested.inventoryStream));
        var cell := prepared.expectedInventoryRevision + 1;
        && cell < |log|
        && r.value == (if log[cell].id == requested.inventoryEventId
                       then Committed(CommittedInventoryWrite(cell, log[cell].position))
                       else Lost(InventoryConflict(cell - 1, cell, log[cell].id)))
      ensures r.Failure? ==> r.error in {ClientError, ResourceNotFound}
      ensures faults == old(faults) ==> r.Success?
    {
      ghost var s0 := system;
      var operationId := requested.operation.operationId;
      SeenByWorker(system, operationId, PreparedState(requested, prepared));
      PinnedCellIsNear(system, requested, prepared);
      var appended := AppendToStream(InventoryAppend(requested, prepared), SendInventory(operationId, 2));
      ghost var s1 := system;
      if appended.Success? {
        return Success(Committed(CommittedInventoryWrite(appended.value.nextExpectedVersion, appended.value.position)));
      }

      KnowledgeLasts(s0.logs, s1.logs, operationId, PreparedState(requested, prepared));
      r := InspectPinnedCell(requested, prepared, appended.error);
      ContinuesOn(s0, s1, system);
    }

    /** After a failed append: what the pinned cell holds, or the append's error when nothing is seen there. */
    method InspectPinnedCell(requested: OperationRequested, prepared: OperationPrepared, appendError: Error)
      returns (r: Result<InventoryAppendResult, Error>)
      requires Inv(system)
      requires Knows(system.logs, requested.operation.operationId, PreparedState(requested, prepared))
      modifies this
      ensures Continues(old(system), system)
      ensures old(faults) <= faults && (healthy ==> faults == old(faults))
      ensures r.Success? ==>
        var log := Log(system.logs, InventoryStream(requested.inventoryStream));
        var cell := prepared.expectedInventoryRevision + 1;
        && cell < |log|
        && r.value == (if log[cell].id == requested.inventoryEventId
                       then Committed(CommittedInventoryWrite(cell, log[cell].position))
                       else Lost(InventoryConflict(cell - 1, cell, log[cell].id)))
      ensures r.Failure? ==> r.error in {ClientError, ResourceNotFound, appendError}
      ensures
        && faults == old(faults)
        && prepared.expectedInventoryRevision + 1 < |old(Log(system.logs, InventoryStream(requested.inventoryStream)))|
        ==> r.Success?
    {
      ghost var s0 := system;
      var cell := prepared.expectedInventoryRevision + 1;
      var events, n := ReadStream(InventoryStream(requested.inventoryStream), cell, Some(1));
      if events.Failure? { return Failure(events.error); }
      if events.value == [] { return Failure(appendError); }
      KnowledgeLasts(s0.logs, system.logs, requested.operation.operationId, PreparedState(requested, prepared));
      assert events.value[0] == Log(system.logs, InventoryStream(requested.inventoryStream))[cell];
      InspectionIsJustified(system, requested, prepared);
      assert CellOk(system.logs, InventoryStream(requested.inventoryStream), cell);
      return Success(InspectCell(requested, prepared, events.value[0]));
    }

    method FinishPrepared(requested: OperationRequested, prepared: OperationPrepared)
      returns (r: Result<OperationState, Error>)
      requires Inv(system)
      requires Knows(system.logs, requested.operation.operationId, PreparedState(requested, prepared))
      modifies this
      ensures Continues(old(system), system)
      ensures old(faults) <= faults && (healthy ==> faults == old(faults))
      ensures r.Success? ==>
        && Knows(system.logs, requested.operation.operationId, r.value)
        && r.value.Revision() >= 2 && r.value.requested == requested
      ensures r.Failure? ==> r.error in {ClientError, ResourceNotFound, InvalidOperationStream(NotRetained)}
      ensures readsAreCurrent ==> r != Failure(InvalidOperationStream(NotRetained))
      ensures faults == old(faults) ==> r.Success?
    {
      ghost var s0 := system;
      var operationId := requested.operation.operationId;
      ghost var state := PreparedState(requested, prepared);
      var result := AppendInventory(requested, prepared);
      if result.Failure? { return Failure(result.error); }
      ghost var s1 := system;
      KnowledgeLasts(s0.logs, s1.logs, operationId, state);
      ghost var choice := TerminalChoice(s1, requested, prepared, result.value);
      var finished, _, _ := AppendOperationEvent(TerminalAppend(requested, result.value), choice, operationId, 2);
      r := finished;
      ContinuesOn(s0, s1, system);
      KnowledgeLasts(s1.logs, system.logs, operationId, state);
      KnownRequestIsStored(system.logs, operationId, state);
      if r.Success? { KnownRequestIsStored(system.logs, operationId, r.value); }
    }

    /** The transition that the state calls for. */
    method TakeTransition(state: OperationState) returns (r: Result<OperationState, Error>)
      requires Inv(system) && !state.Terminal()
      requires Knows(system.logs, state.requested.operation.operationId, state)
      modifies this
      ensures Continues(old(system), system)
      ensures old(faults) <= faults && (healthy ==> faults == old(faults))
      ensures r.Success? ==>
        && Knows(system.logs, state.requested.operation.operationId, r.value)
        && r.value.Revision() > state.Revision() && r.value.requested == state.requested
      ensures r.Failure? ==>
        r.error in {ClientError, ResourceNotFound, Panicked, InvalidOperationStream(NotRetained)}
      ensures readsAreCurrent ==> r != Failure(InvalidOperationStream(NotRetained))
      ensures r == Failure(Panicked) ==>
        EndsInReuse(system.logs, state.requested.inventoryStream) && !DistinctReservations(system.logs)
      ensures faults == old(faults) && r.Failure? ==>
        || r.error == Panicked
        || (&& r.error == ResourceNotFound
            && old(Log(system.logs, InventoryStream(state.requested.inventoryStream))) == [])
    {
      match state {
        case RequestedState(requested) => r := DecideRequested(requested);
        case PreparedState(requested, prepared) => r := FinishPrepared(requested, prepared);
      }
    }

    /**
     Drives the operation from whatever state it is found in to its outcome.  Unless the
     store fails a call on the way it gets there, but for an id claimed with another
     command, an inventory that does not exist and a history that ends in a reuse.
     */
    method ExecuteOperation(inventoryStream: string, operation: InventoryOperation)
      returns (r: Result<OperationOutcome, Error>, ghost transitions: nat)
      requires Inv(system)
      modifies this
      ensures Continues(old(system), system)
      ensures old(faults) <= faults && (healthy ==> faults == old(faults))
      ensures r.Success? ==> Settled(system.logs, inventoryStream, operation, r.value)
      ensures r.Success? ==> Reports(system.logs, operation.operationId, r.value)
      ensures transitions <= 2
      ensures r.Failure? ==>
        r.error in {ClientError, ResourceNotFound, Panicked, InvalidOperationStream(NotRetained),
                    OperationIdConflict(operation.operationId)}
      ensures readsAreCurrent && r.Failure? ==> !r.error.InvalidOperationStream?
      ensures r == Failure(Panicked) ==>
        EndsInReuse(system.logs, inventoryStream) && !DistinctReservations(system.logs)
      ensures faults == old(faults) && r.Failure? ==>
        || r.error.OperationIdConflict?
        || r.error == Panicked
        || (r.error == ResourceNotFound && old(Log(system.logs, InventoryStream(inventoryStream))) == [])
      ensures r.Failure? && r.error.OperationIdConflict? ==>
        && Claimed(system.logs, operation.operationId)
        && var stored := RequestOf(system.logs, operation.operationId);
        stored.operation != operation || stored.inventoryStream != inventoryStream
    {
      ghost var s0 := system;
      transitions := 0;
      var claimed := ClaimOperation(inventoryStream, operation);
      if claimed.Failure? { return Failure(claimed.error), transitions; }
      var state := claimed.value;

      while !state.Terminal()
        invariant Continues(s0, system)
        invariant old(faults) <= faults && (healthy ==> faults == old(faults))
        invariant Knows(system.logs, operation.operationId, state)
        invariant state.requested.operation == operation && state.requested.inventoryStream == inventoryStream
        invariant transitions <= state.Revision()
        decreases 2 - state.Revision()
      {
        ghost var s1 := system;
        assert Log(s0.logs, InventoryStream(inventoryStream)) <= Log(s1.logs, InventoryStream(inventoryStream));
        var next := TakeTransition(state);
        ContinuesOn(s0, s1, system);
        if next.Failure? { return Failure(next.error), transitions; }
        state := next.value;
        transitions := transitions + 1;
      }

      KnownOutcomeIsSettled(system, operation.operationId, state);
      OutcomeIsReported(system, operation.operationId);
      return TerminalOutcome(state), transitions;
    }

    /**
     Retries a delivery on client errors, three attempts in all.  Each retry is paid for by
     a call the store failed, so a delivery to an existing inventory gets through fewer
     than three such calls, unless a stale read ends it early, and on a store that fails
     none it takes one attempt.
     */
    method DeliverWithRetries(inventoryStream: string, operation: InventoryOperation)
      returns (r: Result<OperationOutcome, Error>, ghost attempts: nat, ghost retried: seq<Error>)
      requires Inv(system)
      modifies this
      ensures Continues(old(system), system)
      ensures old(faults) <= faults && (healthy ==> faults == old(faults))
      ensures 1 <= attempts <= 3 && |retried| == attempts - 1
      ensures forall error | error in retried :: error in {ClientError, ResourceNotFound}
      ensures r.Success? ==> Settled(system.logs, inventoryStream, operation, r.value)
      ensures r.Success? ==> Reports(system.logs, operation.operationId, r.value)
      ensures old(Log(system.logs, InventoryStream(inventoryStream))) != [] ==>
        && attempts - 1 <= faults - old(faults)
        && (r.Failure? && r.error in {ClientError, ResourceNotFound} ==> 3 <= faults - old(faults))
      ensures r == Failure(InvalidOperationStream(NotRetained)) ==> faults > old(faults)
      ensures
        && old(Log(system.logs, InventoryStream(inventoryStream))) != [] && DistinctReservations(system.logs)
        && (faults == old(faults) || (readsAreCurrent && faults - old(faults) < 3))
        ==> r.Success? || r.error.OperationIdConflict?
      ensures r.Failure? ==>
        || (r.error in {ClientError, ResourceNotFound} && attempts == 3)
        || (r.error == InvalidOperationStream(NotRetained) && !readsAreCurrent)
        || (r.error == Panicked && EndsInReuse(system.logs, inventoryStream) && !DistinctReservations(system.logs))
        || (r.error == OperationIdConflict(operation.operationId)
            && Claimed(system.logs, operation.operationId)
            && (RequestOf(system.logs, operation.operationId).operation != operation
                || RequestOf(system.logs, operation.operationId).inventoryStream != inventoryStream))
    {
      ghost var s0 := system;
      ContinuesByRun(system, []);
      attempts, retried := 0, [];
      r := Failure(ClientError);
      for attempt := 1 to MAX_DELIVERY_ATTEMPTS + 1
        invariant Continues(s0, system)
        invariant old(faults) <= faults && (healthy ==> faults == old(faults))
        invariant Log(s0.logs, InventoryStream(inventoryStream)) != [] ==> attempts <= faults - old(faults)
        invariant attempts == |retried| == attempt - 1 && attempt <= MAX_DELIVERY_ATTEMPTS
        invariant forall error | error in retried :: error in {ClientError, ResourceNotFound}
      {
        ghost var s1 := system;
        assert Log(s0.logs, InventoryStream(inventoryStream)) <= Log(s1.logs, InventoryStream(inventoryStream));
        attempts := attempt;
        var outcome, _ := ExecuteOperation(inventoryStream, operation);
        r := outcome;
        ContinuesOn(s0, s1, system);
        if r.Success? { return; }
        if !(attempt < MAX_DELIVERY_ATTEMPTS && r.error.Retryable()) { return; }
        retried := retried + [r.error];
      }
      assert false;
    }
  }

  /** The step of the protocol that a worker's terminal append is. */
  ghost function TerminalChoice(s: System, requested: OperationRequested, prepared: OperationPrepared,
                                result: InventoryAppendResult) : (choice: Choice)
    requires Inv(s) && Knows(s.logs, requested.operation.operationId, PreparedState(requested, prepared))
    requires
      var log := Log(s.logs, InventoryStream(requested.inventoryStream));
      var cell := prepared.expectedInventoryRevision + 1;
      && cell < |log|
      && result == (if log[cell].id == requested.inventoryEventId
                    then Committed(CommittedInventoryWrite(cell, log[cell].position))
                    else Lost(InventoryConflict(cell - 1, cell, log[cell].id)))
    ensures Message(s.logs, choice) == Some(TerminalAppend(requested, result))
  {
    var operationId := requested.operation.operationId;
    var log := Log(s.logs, InventoryStream(requested.inventoryStream));
    SeenByWorker(s, operationId, PreparedState(requested, prepared));
    assert CellOk(s.logs, InventoryStream(requested.inventoryStream), prepared.expectedInventoryRevision + 1);
    assert Prefix(log, |log|) == log;
    if result.Committed? then SendTerminalAcknowledged(operationId, 2)
    else SendTerminalInspected(operationId, 2, |log|)
  }
}
