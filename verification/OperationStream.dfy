/**
 The stream of one operation: request at revision 0, decision at 1, terminal at 2,
 and the reader that turns such a stream back into the state of the operation.
 */
module OperationStream {
  import opened Wrappers
  import opened CoreTypes
  import opened EventLog

  datatype OperationState =
    | RequestedState(requested: OperationRequested)
    | PreparedState(requested: OperationRequested, prepared: OperationPrepared)
    | RejectedState(requested: OperationRequested, rejected: OperationRejected)
    | CompletedState(requested: OperationRequested, prepared: OperationPrepared, completed: OperationCompleted)
    | ConflictedState(requested: OperationRequested, prepared: OperationPrepared, conflicted: OperationConflicted)
  {
    function Revision(): nat {
      match this
      case RequestedState(_) => 0
      case PreparedState(_, _) => 1
      case RejectedState(_, _) => 1
      case CompletedState(_, _, _) => 2
      case ConflictedState(_, _, _) => 2
    }

    predicate Terminal() {
      RejectedState? || CompletedState? || ConflictedState?
    }
  }

  datatype OperationOutcome =
    | OutcomeCompleted(write: CommittedInventoryWrite)
    | OutcomeRejected(reason: InventoryRejection)
    | OutcomeConflicted(conflict: InventoryConflict)

  datatype StreamFault =
    | InvalidEvent
    | ProgressWithoutRequest
    | InconsistentRequest
    | InvalidTransition
    | NotRetained
    | NoTerminalOutcome

  datatype Error =
    | ClientError
    | ResourceNotFound
    | OperationIdConflict(operationId: OperationId)
    | InvalidOperationStream(fault: StreamFault)
    | Panicked
  {
    /** Errors of the client type are the ones a delivery is retried for. */
    predicate Retryable() {
      ClientError? || ResourceNotFound?
    }
  }

  /** The event has a type its revision admits. */
  predicate WellPlaced(event: Recorded) {
    match event.body
    case Requested(_) => event.revision == 0
    case Prepared(_) => event.revision == 1
    case Rejected(_) => event.revision == 1
    case Completed(_) => event.revision == 2
    case Conflicted(_) => event.revision == 2
    case _ => false
  }

  predicate WellPlacedStream(events: seq<Recorded>) {
    && (forall i | 0 <= i < |events| :: WellPlaced(events[i]))
    && (forall i, j | 0 <= i < j < |events| :: events[i].revision != events[j].revision)
  }

  /** The first event stored at a revision. */
  function Cell(events: seq<Recorded>, revision: nat): (cell: Option<Recorded>)
    ensures cell.Some? ==> cell.value in events && cell.value.revision == revision
    ensures cell.None? ==> forall event | event in events :: event.revision != revision
  {
    if events == [] then None
    else if events[0].revision == revision then Some(events[0])
    else Cell(events[1..], revision)
  }

  predicate ConsistentRequest(operationId: OperationId, eventId: Uuid, requested: OperationRequested) {
    && eventId == operationId.value
    && requested.operation.operationId == operationId
    && requested.inventoryEventId == operationId.value
    && requested.schemaVersion == OPERATION_SCHEMA_VERSION
    && requested.inventoryEventType == requested.operation.EventType()
    && requested.inventoryEventPayload == requested.operation
  }

  /** The state three cells describe, once they are known to hold well-placed events. */
  function Assemble(operationId: OperationId, request: Option<Recorded>, decision: Option<Recorded>,
                    terminal: Option<Recorded>) : Result<Option<OperationState>, Error>
    requires request.Some? ==> request.value.body.Requested?
    requires decision.Some? ==> decision.value.body.Prepared? || decision.value.body.Rejected?
    requires terminal.Some? ==> terminal.value.body.Completed? || terminal.value.body.Conflicted?
  {
    if request.None? then
      if decision.None? && terminal.None? then Success(None)
      else Failure(InvalidOperationStream(ProgressWithoutRequest))
    else
      var requested := request.value.body.request;
      var invalid := Failure(InvalidOperationStream(InvalidTransition));
      if !ConsistentRequest(operationId, request.value.id, requested) then
        Failure(InvalidOperationStream(InconsistentRequest))
      else if decision.None? then
        if terminal.None? then Success(Some(RequestedState(requested))) else invalid
      else if decision.value.id != requested.decisionEventId then invalid
      else
        match decision.value.body
        case Rejected(rejected) =>
          if terminal.None? && rejected.operationId == operationId
          then Success(Some(RejectedState(requested, rejected))) else invalid
        case Prepared(prepared) =>
          if prepared.operationId != operationId then invalid
          else if terminal.None? then Success(Some(PreparedState(requested, prepared)))
          else if terminal.value.id != requested.terminalEventId then invalid
          else
            match terminal.value.body
            case Completed(completed) =>
              if completed.operationId == operationId
              then Success(Some(CompletedState(requested, prepared, completed))) else invalid
            case Conflicted(conflicted) =>
              if conflicted.operationId == operationId
              then Success(Some(ConflictedState(requested, prepared, conflicted))) else invalid
  }

  function DecodeOperation(operationId: OperationId, events: seq<Recorded>)
    : Result<Option<OperationState>, Error>
  {
    if !WellPlacedStream(events) then Failure(InvalidOperationStream(InvalidEvent))
    else Assemble(operationId, Cell(events, 0), Cell(events, 1), Cell(events, 2))
  }

  /** The reader's loop: three slots, each filled at most once. */
  method CollectCells(events: seq<Recorded>)
    returns (r: Result<(Option<Recorded>, Option<Recorded>, Option<Recorded>), Error>)
    ensures r == if WellPlacedStream(events)
                 then Success((Cell(events, 0), Cell(events, 1), Cell(events, 2)))
                 else Failure(InvalidOperationStream(InvalidEvent))
  {
    var requested, decision, terminal := None, None, None;
    for i := 0 to |events|
      invariant WellPlacedStream(events[..i])
      invariant requested == Cell(events[..i], 0)
      invariant decision == Cell(events[..i], 1)
      invariant terminal == Cell(events[..i], 2)
    {
      var event := events[i];
      CellOfSnoc(events[..i], event, 0);
      CellOfSnoc(events[..i], event, 1);
      CellOfSnoc(events[..i], event, 2);
      assert events[..i] + [event] == events[..i + 1];
      if WellPlaced(event) && Cell(events[..i], event.revision).None? {
        FreeSlot(events[..i], event);
      } else {
        NoSlot(events, i);
      }
      if event.body.Requested? && event.revision == 0 && requested.None? {
        requested := Some(event);
      } else if event.body.Prepared? && event.revision == 1 && decision.None? {
        decision := Some(event);
      } else if event.body.Rejected? && event.revision == 1 && decision.None? {
        decision := Some(event);
      } else if event.body.Completed? && event.revision == 2 && terminal.None? {
        terminal := Some(event);
      } else if event.body.Conflicted? && event.revision == 2 && terminal.None? {
        terminal := Some(event);
      } else {
        return Failure(InvalidOperationStream(InvalidEvent));
      }
    }
    assert events[..|events|] == events;
    return Success((requested, decision, terminal));
  }

  /** The five legal shapes of an operation log, each with the state it stands for. */
  ghost predicate Stores(operationId: OperationId, events: seq<Recorded>, state: OperationState) {
    && |events| == state.Revision() + 1
    && events[0].body == Requested(state.requested)
    && events[0].id == operationId.value
    && state.requested.operation.operationId == operationId
    && state.requested.inventoryEventId == operationId.value
    && state.requested.schemaVersion == 1
    && state.requested.inventoryEventPayload == state.requested.operation
    && state.requested.inventoryEventType
         == (if state.requested.operation.Reserve? then "inventory-reserved" else "inventory-released")
    && (state.Revision() >= 1 ==> events[1].id == state.requested.decisionEventId)
    && (state.Revision() == 2 ==> events[2].id == state.requested.terminalEventId)
    && match state
       case RequestedState(_) => true
       case PreparedState(_, prepared) =>
         events[1].body == Prepared(prepared) && prepared.operationId == operationId
       case RejectedState(_, rejected) =>
         events[1].body == Rejected(rejected) && rejected.operationId == operationId
       case CompletedState(_, prepared, completed) =>
         && events[1].body == Prepared(prepared) && prepared.operationId == operationId
         && events[2].body == Completed(completed) && completed.operationId == operationId
       case ConflictedState(_, prepared, conflicted) =>
         && events[1].body == Prepared(prepared) && prepared.operationId == operationId
         && events[2].body == Conflicted(conflicted) && conflicted.operationId == operationId
  }

  /** The filled slots, in the order of their revisions. */
  function Filled(request: Option<Recorded>, decision: Option<Recorded>, terminal: Option<Recorded>)
    : (events: seq<Recorded>)
  {
    (if request.Some? then [request.value] else [])
    + (if decision.Some? then [decision.value] else [])
    + (if terminal.Some? then [terminal.value] else [])
  }

  /** Three slots give a state exactly when they are filled without a hole and hold its legal shape. */
  lemma AssembledState(operationId: OperationId, request: Option<Recorded>, decision: Option<Recorded>,
                       terminal: Option<Recorded>, state: OperationState)
    requires request.Some? ==> request.value.body.Requested?
    requires decision.Some? ==> decision.value.body.Prepared? || decision.value.body.Rejected?
    requires terminal.Some? ==> terminal.value.body.Completed? || terminal.value.body.Conflicted?
    ensures Assemble(operationId, request, decision, terminal) == Success(Some(state))
       <==> Stores(operationId, Filled(request, decision, terminal), state)
  {
    var events := Filled(request, decision, terminal);
    if request.Some? {
      assert events[0] == request.value;
      if decision.Some? {
        assert events[1] == decision.value;
        assert terminal.Some? ==> events[2] == terminal.value;
      } else {
        assert terminal.Some? ==> events[1] == terminal.value;
      }
    } else if events != [] {
      assert events[0] == if decision.Some? then decision.value else terminal.value;
    }
  }

  /**
   The reader's final match over the three slots: nothing for empty slots, the state
   they store, or the fault they show, a progress without a request, an inconsistent
   request, or anything else that stores no state.
   */
  method MatchCells(operationId: OperationId, request: Option<Recorded>, decision: Option<Recorded>,
                    terminal: Option<Recorded>) returns (r: Result<Option<OperationState>, Error>)
    requires request.Some? ==> request.value.body.Requested?
    requires decision.Some? ==> decision.value.body.Prepared? || decision.value.body.Rejected?
    requires terminal.Some? ==> terminal.value.body.Completed? || terminal.value.body.Conflicted?
    ensures r == Assemble(operationId, request, decision, terminal)
    ensures r == Success(None) <==> request.None? && decision.None? && terminal.None?
    ensures forall state ::
      r == Success(Some(state)) <==> Stores(operationId, Filled(request, decision, terminal), state)
    ensures r == Failure(InvalidOperationStream(ProgressWithoutRequest))
       <==> request.None? && (decision.Some? || terminal.Some?)
    ensures r == Failure(InvalidOperationStream(InconsistentRequest))
       <==> request.Some? && !ConsistentRequest(operationId, request.value.id, request.value.body.request)
    ensures r.Failure? ==> r.error in {InvalidOperationStream(ProgressWithoutRequest),
                                       InvalidOperationStream(InconsistentRequest),
                                       InvalidOperationStream(InvalidTransition)}
  {
    forall state
      ensures Assemble(operationId, request, decision, terminal) == Success(Some(state))
         <==> Stores(operationId, Filled(request, decision, terminal), state)
    {
      AssembledState(operationId, request, decision, terminal, state);
    }
    if request.None? {
      if decision.None? && terminal.None? { return Success(None); }
      return Failure(InvalidOperationStream(ProgressWithoutRequest));
    }
    var requested := request.value.body.request;
    if request.value.id != operationId.value
       || requested.operation.operationId != operationId
       || requested.inventoryEventId != operationId.value
       || requested.schemaVersion != OPERATION_SCHEMA_VERSION
       || requested.inventoryEventType != requested.operation.EventType()
       || requested.inventoryEventPayload != requested.operation
    {
      return Failure(InvalidOperationStream(InconsistentRequest));
    }

    r := Failure(InvalidOperationStream(InvalidTransition));
    if decision.None? && terminal.None? {
      r := Success(Some(RequestedState(requested)));
    } else if decision.Some? && decision.value.id == requested.decisionEventId {
      match decision.value.body {
        case Rejected(rejected) =>
          if terminal.None? && rejected.operationId == operationId {
            r := Success(Some(RejectedState(requested, rejected)));
          }
        case Prepared(prepared) =>
          if prepared.operationId == operationId {
            if terminal.None? {
              r := Success(Some(PreparedState(requested, prepared)));
            } else if terminal.value.id == requested.terminalEventId {
              match terminal.value.body {
                case Completed(completed) =>
                  if completed.operationId == operationId {
                    r := Success(Some(CompletedState(requested, prepared, completed)));
                  }
                case Conflicted(conflicted) =>
                  if conflicted.operationId == operationId {
                    r := Success(Some(ConflictedState(requested, prepared, conflicted)));
                  }
              }
            }
          }
      }
    }
  }

  method ReadOperationEvents(operationId: OperationId, events: seq<Recorded>)
    returns (r: Result<Option<OperationState>, Error>)
    ensures r == DecodeOperation(operationId, events)
  {
    var cells :- CollectCells(events);
    CellsHaveTheirKind(events);
    r := MatchCells(operationId, cells.0, cells.1, cells.2);
  }

  lemma {:induction false} CellOfSnoc(events: seq<Recorded>, event: Recorded, revision: nat)
    ensures Cell(events + [event], revision)
         == if Cell(events, revision).Some? then Cell(events, revision)
            else if event.revision == revision then Some(event) else None
  {
    if events != [] {
      assert (events + [event])[1..] == events[1..] + [event];
      CellOfSnoc(events[1..], event, revision);
    }
  }

  lemma CellsHaveTheirKind(events: seq<Recorded>)
    requires WellPlacedStream(events)
    ensures Cell(events, 0).Some? ==> Cell(events, 0).value.body.Requested?
    ensures Cell(events, 1).Some? ==> Cell(events, 1).value.body.Prepared? || Cell(events, 1).value.body.Rejected?
    ensures Cell(events, 2).Some? ==> Cell(events, 2).value.body.Completed? || Cell(events, 2).value.body.Conflicted?
  {
  }

  /** A well-placed event whose slot is still empty keeps the stream well placed. */
  lemma FreeSlot(before: seq<Recorded>, event: Recorded)
    requires WellPlacedStream(before) && WellPlaced(event) && Cell(before, event.revision).None?
    ensures WellPlacedStream(before + [event])
  {
    var after := before + [event];
    forall i, j | 0 <= i < j < |after|
      ensures after[i].revision != after[j].revision
    {
      if j == |before| { assert before[i] in before; }
    }
  }

  /** Any other event breaks the whole stream. */
  lemma NoSlot(events: seq<Recorded>, i: nat)
    requires i < |events|
    requires !WellPlaced(events[i]) || Cell(events[..i], events[i].revision).Some?
    ensures !WellPlacedStream(events)
  {
    if WellPlaced(events[i]) {
      var cell := Cell(events[..i], events[i].revision).value;
      var j :| 0 <= j < i && events[..i][j] == cell;
      assert events[j] == cell;
    }
  }

  /** A log read from its start: cell k carries revision k. */
  predicate Indexed(events: seq<Recorded>) {
    forall k | 0 <= k < |events| :: events[k].revision == k
  }

  lemma {:induction false} CellOfIndexed(events: seq<Recorded>, from: nat, revision: nat)
    requires forall k | 0 <= k < |events| :: events[k].revision == from + k
    ensures Cell(events, revision)
         == if from <= revision < from + |events| then Some(events[revision - from]) else None
  {
    if events != [] && events[0].revision != revision {
      CellOfIndexed(events[1..], from + 1, revision);
    }
  }

  lemma IndexedCells(events: seq<Recorded>)
    requires Indexed(events)
    ensures forall r: nat {:trigger Cell(events, r)} ::
      Cell(events, r) == if r < |events| then Some(events[r]) else None
    ensures WellPlacedStream(events) <==>
      && |events| <= 3
      && (|events| > 0 ==> events[0].body.Requested?)
      && (|events| > 1 ==> events[1].body.Prepared? || events[1].body.Rejected?)
      && (|events| > 2 ==> events[2].body.Completed? || events[2].body.Conflicted?)
  {
    forall r: nat
      ensures Cell(events, r) == if r < |events| then Some(events[r]) else None
    {
      CellOfIndexed(events, 0, r);
    }
    if |events| > 3 { assert !WellPlaced(events[3]); }
    if |events| > 0 && !events[0].body.Requested? { assert !WellPlaced(events[0]); }
    if |events| > 1 && !events[1].body.Prepared? && !events[1].body.Rejected? { assert !WellPlaced(events[1]); }
    if |events| > 2 && !events[2].body.Completed? && !events[2].body.Conflicted? { assert !WellPlaced(events[2]); }
  }

  /**
   Reading a log from its start gives a state exactly when the log is one of the
   five legal shapes, and then the state is those cells and nothing else.
   */
  lemma DecodedState(operationId: OperationId, events: seq<Recorded>, state: OperationState)
    requires Indexed(events)
    ensures DecodeOperation(operationId, events) == Success(Some(state)) <==> Stores(operationId, events, state)
    ensures DecodeOperation(operationId, events) == Success(None) <==> events == []
  {
    IndexedCells(events);
  }

  /** Fails when the caller's command is not the one the stream was claimed with. */
  predicate SameRequest(state: OperationState, inventoryStream: string, operation: InventoryOperation) {
    && state.requested.inventoryStream == inventoryStream
    && state.requested.operation == operation
    && state.requested.inventoryEventType == operation.EventType()
    && state.requested.inventoryEventPayload == operation
  }

  function TerminalOutcome(state: OperationState): Result<OperationOutcome, Error> {
    match state
    case RejectedState(_, rejected) => Success(OutcomeRejected(rejected.reason))
    case CompletedState(_, _, completed) => Success(OutcomeCompleted(completed.inventoryWrite))
    case ConflictedState(_, _, conflicted) => Success(OutcomeConflicted(conflicted.conflict))
    case _ => Failure(InvalidOperationStream(NoTerminalOutcome))
  }
}
