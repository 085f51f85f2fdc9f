/**
 The whole system as a transition function: the logs of every stream, the bag of
 append requests ever sent, and one choice per step.  A request stays in the bag,
 so it can be delivered any number of times and arbitrarily late; a worker is any
 choice of prefixes it may have read, so workers can race, die and start over.
 A run is any sequence of choices.
 */
module ReservationProtocol {
  import opened Wrappers
  import opened CoreTypes
  import opened EventLog
  import opened Inventory
  import opened OperationStream

  datatype StreamName = OperationStream(operationId: OperationId) | InventoryStream(name: string)

  type Logs = map<StreamName, seq<Recorded>>

  function Log(logs: Logs, stream: StreamName): seq<Recorded> {
    if stream in logs then logs[stream] else []
  }

  datatype Append = Append(stream: StreamName, expected: ExpectedState, id: Uuid, body: Body)

  datatype System = System(logs: Logs, sent: set<Append>)

  const INITIAL := System(map[], {})

  // ---------------------------------------------------------------- what a worker sends

  function CreateAppend(inventoryStream: string, created: InventoryCreated, eventId: Uuid): Append {
    Append(InventoryStream(inventoryStream), NoStream, eventId, Created(created))
  }

  function ClaimRequest(inventoryStream: string, operation: InventoryOperation, decisionId: Uuid, terminalId: Uuid)
    : OperationRequested
  {
    OperationRequested(OPERATION_SCHEMA_VERSION, inventoryStream, operation.operationId.value,
                       operation.EventType(), operation, decisionId, terminalId, operation)
  }

  function ClaimAppend(inventoryStream: string, operation: InventoryOperation, decisionId: Uuid, terminalId: Uuid)
    : Append
  {
    Append(OperationStream(operation.operationId), NoStream, operation.operationId.value,
           Requested(ClaimRequest(inventoryStream, operation, decisionId, terminalId)))
  }

  function DecisionAppend(requested: OperationRequested, inventory: InventoryView): Append {
    var operationId := requested.operation.operationId;
    var body :=
      match RejectInventoryCommand(inventory.state, requested.operation)
      case Some(reason) => Rejected(OperationRejected(operationId, reason))
      case None => Prepared(OperationPrepared(operationId, inventory.revision));
    Append(OperationStream(operationId), StreamRevision(0), requested.decisionEventId, body)
  }

  function InventoryAppend(requested: OperationRequested, prepared: OperationPrepared): Append {
    Append(InventoryStream(requested.inventoryStream), StreamRevision(prepared.expectedInventoryRevision),
           requested.inventoryEventId, Applied(requested.operation))
  }

  datatype InventoryAppendResult = Committed(write: CommittedInventoryWrite) | Lost(conflict: InventoryConflict)

  predicate StoredInventoryEventMatches(stored: Recorded, requested: OperationRequested) {
    && stored.id == requested.inventoryEventId
    && stored.body.Applied?
    && stored.body.operation.EventType() == requested.inventoryEventType
    && stored.body.operation == requested.inventoryEventPayload
  }

  /** What reading the intended cell says about the append. */
  function InspectCell(requested: OperationRequested, prepared: OperationPrepared, stored: Recorded)
    : InventoryAppendResult
  {
    if stored.revision == prepared.expectedInventoryRevision + 1 && StoredInventoryEventMatches(stored, requested)
    then Committed(CommittedInventoryWrite(stored.revision, stored.position))
    else Lost(InventoryConflict(prepared.expectedInventoryRevision, stored.revision, stored.id))
  }

  function TerminalAppend(requested: OperationRequested, result: InventoryAppendResult): Append {
    var operationId := requested.operation.operationId;
    var body :=
      match result
      case Committed(write) => Completed(OperationCompleted(operationId, write))
      case Lost(conflict) => Conflicted(OperationConflicted(operationId, conflict));
    Append(OperationStream(operationId), StreamRevision(1), requested.terminalEventId, body)
  }

  // ---------------------------------------------------------------- steps and runs

  /**
   One step of the system.  `seen` and `inventorySeen` are how much of the operation
   log and of the inventory log the sending worker had read.
   */
  datatype Choice =
    | SendCreate(inventoryStream: string, created: InventoryCreated, eventId: Uuid)
    | SendClaim(inventoryStream: string, operation: InventoryOperation, decisionId: Uuid, terminalId: Uuid)
    | SendDecision(operationId: OperationId, seen: nat, inventorySeen: nat)
    | SendInventory(operationId: OperationId, seen: nat)
    | SendTerminalAcknowledged(operationId: OperationId, seen: nat)
    | SendTerminalInspected(operationId: OperationId, seen: nat, inventorySeen: nat)
    | Deliver(request: Append, position: Position)

  function Prefix(log: seq<Recorded>, n: nat): (p: seq<Recorded>)
    ensures p <= log
  {
    if n <= |log| then log[..n] else log
  }

  /** The operation state a worker decodes from the first `seen` cells; at most four are read. */
  function SeenState(logs: Logs, operationId: OperationId, seen: nat): Option<OperationState> {
    match DecodeOperation(operationId, Prefix(Prefix(Log(logs, OperationStream(operationId)), seen), 4))
    case Success(state) => state
    case Failure(_) => None
  }

  /** The append a worker sends in this step, if the step is a send and what it read calls for one. */
  function Message(logs: Logs, choice: Choice): Option<Append> {
    match choice
    case SendCreate(inventoryStream, created, eventId) =>
      Some(CreateAppend(inventoryStream, created, eventId))
    case SendClaim(inventoryStream, operation, decisionId, terminalId) =>
      Some(ClaimAppend(inventoryStream, operation, decisionId, terminalId))
    case SendDecision(operationId, seen, inventorySeen) =>
      (match SeenState(logs, operationId, seen)
       case Some(RequestedState(requested)) =>
         (match FoldInventory(Prefix(Log(logs, InventoryStream(requested.inventoryStream)), inventorySeen))
          case Some(view) => Some(DecisionAppend(requested, view))
          case None => None)
       case _ => None)
    case SendInventory(operationId, seen) =>
      (match SeenState(logs, operationId, seen)
       case Some(PreparedState(requested, prepared)) => Some(InventoryAppend(requested, prepared))
       case _ => None)
    case SendTerminalAcknowledged(operationId, seen) =>
      (match SeenState(logs, operationId, seen)
       case Some(PreparedState(requested, prepared)) =>
         var log := Log(logs, InventoryStream(requested.inventoryStream));
         var target := prepared.expectedInventoryRevision + 1;
         if target < |log| && log[target].id == requested.inventoryEventId
         then Some(TerminalAppend(requested, Committed(CommittedInventoryWrite(target, log[target].position))))
         else None
       case _ => None)
    case SendTerminalInspected(operationId, seen, inventorySeen) =>
      (match SeenState(logs, operationId, seen)
       case Some(PreparedState(requested, prepared)) =>
         var log := Prefix(Log(logs, InventoryStream(requested.inventoryStream)), inventorySeen);
         var target := prepared.expectedInventoryRevision + 1;
         if target < |log|
         then Some(TerminalAppend(requested, InspectCell(requested, prepared, log[target])))
         else None
       case _ => None)
    case Deliver(_, _) => None
  }

  function Delivered(logs: Logs, request: Append, position: Position): (r: (Logs, AppendReply)) {
    var (log, reply) := AppendTo(Log(logs, request.stream), request.expected, request.id, request.body, position);
    (logs[request.stream := log], reply)
  }

  function Next(s: System, choice: Choice): System {
    match choice
    case Deliver(request, position) =>
      if request in s.sent then s.(logs := Delivered(s.logs, request, position).0) else s
    case _ =>
      match Message(s.logs, choice)
      case Some(request) => s.(sent := s.sent + {request})
      case None => s
  }

  function Run(s: System, choices: seq<Choice>): System {
    if choices == [] then s
    else Next(Run(s, choices[..|choices| - 1]), choices[|choices| - 1])
  }

  ghost predicate Reachable(s: System) {
    exists choices :: Run(INITIAL, choices) == s
  }

  ghost predicate Reaches(s: System, t: System) {
    exists choices :: Run(s, choices) == t
  }

  lemma {:induction false} RunJoins(s: System, first: seq<Choice>, second: seq<Choice>)
    ensures Run(s, first + second) == Run(Run(s, first), second)
    decreases |second|
  {
    if second == [] {
      assert first + second == first;
    } else {
      assert (first + second)[..|first + second| - 1] == first + second[..|second| - 1];
      RunJoins(s, first, second[..|second| - 1]);
    }
  }

  lemma ReachesIsTransitive(s: System, t: System, u: System)
    requires Reaches(s, t) && Reaches(t, u)
    ensures Reaches(s, u)
  {
    var first :| Run(s, first) == t;
    var second :| Run(t, second) == u;
    RunJoins(s, first, second);
  }

  lemma ReachesByStep(s: System, choice: Choice)
    ensures Reaches(s, s) && Reaches(s, Next(s, choice))
  {
    assert Run(s, []) == s;
    assert [choice][..0] == [];
    assert Run(s, [choice]) == Next(s, choice);
  }

  // ---------------------------------------------------------------- the invariant

  ghost predicate Extends(a: Logs, b: Logs) {
    forall stream :: Log(a, stream) <= Log(b, stream)
  }

  /** The request cell of an operation log, when it is there. */
  ghost predicate Claimed(logs: Logs, operationId: OperationId) {
    var log := Log(logs, OperationStream(operationId));
    |log| > 0 && log[0].body.Requested?
  }

  function RequestOf(logs: Logs, operationId: OperationId): OperationRequested
    requires Claimed(logs, operationId)
  {
    Log(logs, OperationStream(operationId))[0].body.request
  }

  ghost predicate IsPrepared(logs: Logs, operationId: OperationId) {
    && Claimed(logs, operationId)
    && |Log(logs, OperationStream(operationId))| > 1
    && Log(logs, OperationStream(operationId))[1].body.Prepared?
  }

  /** The one inventory cell a prepared operation can occupy. */
  function PinnedCell(logs: Logs, operationId: OperationId): nat
    requires IsPrepared(logs, operationId)
  {
    Log(logs, OperationStream(operationId))[1].body.prepared.expectedInventoryRevision + 1
  }

  function InventoryLog(logs: Logs, operationId: OperationId): seq<Recorded>
    requires Claimed(logs, operationId)
  {
    Log(logs, InventoryStream(RequestOf(logs, operationId).inventoryStream))
  }

  /** The command rule's answer on the first `n` inventory events; None when folding them panics. */
  ghost predicate Judged(log: seq<Recorded>, n: nat, operation: InventoryOperation,
                         answer: Option<InventoryRejection>)
  {
    && 0 < n <= |log|
    && FoldInventory(log[..n]).Some?
    && RejectInventoryCommand(FoldInventory(log[..n]).value.state, operation) == answer
  }

  ghost predicate JustifiedDecision(logs: Logs, operationId: OperationId, id: Uuid, body: Body) {
    && Claimed(logs, operationId)
    && var requested := RequestOf(logs, operationId);
    var log := InventoryLog(logs, operationId);
    && id == requested.decisionEventId
    && match body
       case Prepared(OperationPrepared(preparedId, expected)) =>
         preparedId == operationId && Judged(log, expected + 1, requested.operation, None)
       case Rejected(OperationRejected(rejectedId, reason)) =>
         rejectedId == operationId && exists n :: Judged(log, n, requested.operation, Some(reason))
       case _ => false
  }

  ghost predicate JustifiedTerminal(logs: Logs, operationId: OperationId, id: Uuid, body: Body) {
    && IsPrepared(logs, operationId)
    && var log := InventoryLog(logs, operationId);
    var cell := PinnedCell(logs, operationId);
    && id == RequestOf(logs, operationId).terminalEventId
    && cell < |log|
    && match body
       case Completed(OperationCompleted(completedId, write)) =>
         && completedId == operationId
         && log[cell].id == operationId.value
         && write == CommittedInventoryWrite(cell, log[cell].position)
       case Conflicted(OperationConflicted(conflictedId, conflict)) =>
         && conflictedId == operationId
         && log[cell].id != operationId.value
         && conflict == InventoryConflict(cell - 1, cell, log[cell].id)
       case _ => false
  }

  ghost predicate JustifiedInventoryEvent(logs: Logs, name: string, cell: nat, id: Uuid, body: Body) {
    && body.Applied?
    && var operationId := body.operation.operationId;
    && id == operationId.value
    && IsPrepared(logs, operationId)
    && RequestOf(logs, operationId).inventoryStream == name
    && RequestOf(logs, operationId).operation == body.operation
    && PinnedCell(logs, operationId) == cell
  }

  /** Everything the protocol promises about the event a cell holds, or will hold. */
  ghost predicate Justified(logs: Logs, stream: StreamName, cell: nat, id: Uuid, body: Body) {
    match stream
    case OperationStream(operationId) =>
      if cell == 0 then body.Requested? && ConsistentRequest(operationId, id, body.request)
      else if cell == 1 then JustifiedDecision(logs, operationId, id, body)
      else cell == 2 && JustifiedTerminal(logs, operationId, id, body)
    case InventoryStream(name) =>
      if cell == 0 then body.Created?
      else JustifiedInventoryEvent(logs, name, cell, id, body)
  }

  ghost predicate CellOk(logs: Logs, stream: StreamName, cell: nat)
    requires cell < |Log(logs, stream)|
  {
    var event := Log(logs, stream)[cell];
    event.revision == cell && Justified(logs, stream, cell, event.id, event.body)
  }

  ghost predicate RequestOk(logs: Logs, request: Append) {
    Justified(logs, request.stream, request.expected.Target(), request.id, request.body)
  }

  ghost predicate Inv(s: System) {
    && (forall stream, cell: nat | cell < |Log(s.logs, stream)| :: CellOk(s.logs, stream, cell))
    && (forall request | request in s.sent :: RequestOk(s.logs, request))
  }

  lemma LogIsIndexed(s: System, stream: StreamName, n: nat)
    requires Inv(s) && n <= |Log(s.logs, stream)|
    ensures Indexed(Log(s.logs, stream)[..n])
  {
    forall k: nat | k < n
      ensures Log(s.logs, stream)[..n][k].revision == k
    {
      assert CellOk(s.logs, stream, k);
    }
  }

  lemma JudgedIsStable(log: seq<Recorded>, later: seq<Recorded>, n: nat, operation: InventoryOperation,
                       answer: Option<InventoryRejection>)
    requires log <= later && Judged(log, n, operation, answer)
    ensures Judged(later, n, operation, answer)
  {
    assert later[..n] == log[..n];
  }

  /** A justification never expires: logs only grow. */
  lemma JustifiedIsStable(a: Logs, b: Logs, stream: StreamName, cell: nat, id: Uuid, body: Body)
    requires Extends(a, b) && Justified(a, stream, cell, id, body)
    ensures Justified(b, stream, cell, id, body)
  {
    match stream {
      case InventoryStream(_) =>
        if cell > 0 {
          var own := OperationStream(body.operation.operationId);
          assert Log(a, own) <= Log(b, own);
        }
      case OperationStream(operationId) =>
        if cell > 0 {
          assert Log(a, stream) <= Log(b, stream);
          var log, later := InventoryLog(a, operationId), InventoryLog(b, operationId);
          assert log <= later;
          if cell == 1 {
            var operation := RequestOf(a, operationId).operation;
            if body.Prepared? {
              JudgedIsStable(log, later, body.prepared.expectedInventoryRevision + 1, operation, None);
            } else {
              var n :| Judged(log, n, operation, Some(body.rejected.reason));
              JudgedIsStable(log, later, n, operation, Some(body.rejected.reason));
            }
          }
        }
    }
  }

  /** What a worker decodes from a prefix of a justified operation log is what the log still says. */
  lemma SeenStateIsStored(s: System, operationId: OperationId, seen: nat)
    requires Inv(s)
    ensures SeenState(s.logs, operationId, seen).Some? ==>
      var log := Log(s.logs, OperationStream(operationId));
      var state := SeenState(s.logs, operationId, seen).value;
      state.Revision() < |log| && Stores(operationId, log[..state.Revision() + 1], state)
  {
    var log := Log(s.logs, OperationStream(operationId));
    var events := Prefix(Prefix(log, seen), 4);
    var n := |events|;
    assert events == log[..n];
    LogIsIndexed(s, OperationStream(operationId), n);
    match SeenState(s.logs, operationId, seen) {
      case None =>
      case Some(state) => DecodedState(operationId, events, state);
    }
  }

  lemma InventoryCellsBelongToTheirId(s: System, name: string, cell: nat)
    requires Inv(s) && 0 < cell < |Log(s.logs, InventoryStream(name))|
    ensures JustifiedInventoryEvent(s.logs, name, cell,
              Log(s.logs, InventoryStream(name))[cell].id, Log(s.logs, InventoryStream(name))[cell].body)
  {
    assert CellOk(s.logs, InventoryStream(name), cell);
  }

  lemma InspectionIsJustified(s: System, requested: OperationRequested, prepared: OperationPrepared)
    requires Inv(s)
    requires var operationId := requested.operation.operationId;
      var log := Log(s.logs, OperationStream(operationId));
      |log| > 1 && Stores(operationId, log[..2], PreparedState(requested, prepared))
    requires prepared.expectedInventoryRevision + 1 < |Log(s.logs, InventoryStream(requested.inventoryStream))|
    ensures var cell := prepared.expectedInventoryRevision + 1;
      var stored := Log(s.logs, InventoryStream(requested.inventoryStream))[cell];
      && RequestOk(s.logs, TerminalAppend(requested, InspectCell(requested, prepared, stored)))
      && (stored.id == requested.inventoryEventId ==>
            InspectCell(requested, prepared, stored) == Committed(CommittedInventoryWrite(cell, stored.position)))
  {
    var operationId := requested.operation.operationId;
    var own := Log(s.logs, OperationStream(operationId));
    assert own[0] == own[..2][0] && own[1] == own[..2][1];
    var cell := prepared.expectedInventoryRevision + 1;
    assert CellOk(s.logs, InventoryStream(requested.inventoryStream), cell);
    InventoryCellsBelongToTheirId(s, requested.inventoryStream, cell);
  }

  lemma DecisionIsJustified(s: System, operationId: OperationId, inventorySeen: nat)
    requires Inv(s) && Claimed(s.logs, operationId)
    requires RequestOf(s.logs, operationId).operation.operationId == operationId
    requires FoldInventory(Prefix(InventoryLog(s.logs, operationId), inventorySeen)).Some?
    ensures var requested := RequestOf(s.logs, operationId);
      var view := FoldInventory(Prefix(InventoryLog(s.logs, operationId), inventorySeen)).value;
      RequestOk(s.logs, DecisionAppend(requested, view))
  {
    var requested, log := RequestOf(s.logs, operationId), InventoryLog(s.logs, operationId);
    var events := Prefix(log, inventorySeen);
    var n := |events|;
    assert events == log[..n];
    LogIsIndexed(s, InventoryStream(requested.inventoryStream), n);
    var answer := RejectInventoryCommand(FoldInventory(events).value.state, requested.operation);
    assert Judged(log, n, requested.operation, answer);
    if answer.Some? {
      assert Judged(log, n, requested.operation, Some(answer.value));
    }
  }

  /** Whatever a worker sends is justified by the logs at that moment. */
  lemma MessageIsJustified(s: System, choice: Choice)
    requires Inv(s) && Message(s.logs, choice).Some?
    ensures RequestOk(s.logs, Message(s.logs, choice).value)
  {
    if !choice.SendCreate? && !choice.SendClaim? {
      var operationId := choice.operationId;
      var own := Log(s.logs, OperationStream(operationId));
      SeenStateIsStored(s, operationId, choice.seen);
      var state := SeenState(s.logs, operationId, choice.seen).value;
      var stored := own[..state.Revision() + 1];
      assert own[0] == stored[0];
      if choice.SendDecision? {
        DecisionIsJustified(s, operationId, choice.inventorySeen);
      } else {
        assert own[1] == stored[1];
        if !choice.SendInventory? {
          InspectionIsJustified(s, state.requested, state.prepared);
        }
      }
    }
  }

  lemma StepExtends(s: System, choice: Choice)
    ensures Extends(s.logs, Next(s, choice).logs)
    ensures s.sent <= Next(s, choice).sent
  {
  }

  lemma StepKeepsInvariant(s: System, choice: Choice)
    requires Inv(s)
    ensures Inv(Next(s, choice))
  {
    var t := Next(s, choice);
    StepExtends(s, choice);
    forall request | request in t.sent
      ensures RequestOk(t.logs, request)
    {
      if request !in s.sent { MessageIsJustified(s, choice); }
      JustifiedIsStable(s.logs, t.logs, request.stream, request.expected.Target(), request.id, request.body);
    }
    forall stream, cell: nat | cell < |Log(t.logs, stream)|
      ensures CellOk(t.logs, stream, cell)
    {
      var event := Log(t.logs, stream)[cell];
      if cell < |Log(s.logs, stream)| {
        assert CellOk(s.logs, stream, cell);
        assert Log(s.logs, stream) <= Log(t.logs, stream);
      } else {
        assert RequestOk(s.logs, choice.request);
      }
      JustifiedIsStable(s.logs, t.logs, stream, cell, event.id, event.body);
    }
  }

  /** Every run keeps the invariant, never rewrites a cell and never forgets a request. */
  lemma {:induction false} RunKeepsInvariant(s: System, choices: seq<Choice>)
    requires Inv(s)
    ensures Inv(Run(s, choices))
    ensures Extends(s.logs, Run(s, choices).logs)
    ensures s.sent <= Run(s, choices).sent
  {
    if choices != [] {
      var before, last := choices[..|choices| - 1], choices[|choices| - 1];
      RunKeepsInvariant(s, before);
      StepKeepsInvariant(Run(s, before), last);
      StepExtends(Run(s, before), last);
    }
  }

  lemma ReachableIsInvariant(s: System)
    requires Reachable(s)
    ensures Inv(s)
  {
    var choices :| Run(INITIAL, choices) == s;
    assert Inv(INITIAL);
    RunKeepsInvariant(INITIAL, choices);
  }

  lemma ReachesKeepsInvariant(s: System, t: System)
    requires Inv(s) && Reaches(s, t)
    ensures Inv(t) && Extends(s.logs, t.logs) && s.sent <= t.sent
  {
    var choices :| Run(s, choices) == t;
    RunKeepsInvariant(s, choices);
  }
}
