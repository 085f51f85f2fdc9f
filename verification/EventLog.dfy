/**
 The events of the reservation example, the logs that store them, and the part
 of the server the client relies on: the optimistic append.

 Payloads are typed values: JSON encoding is taken to be deterministic and
 injective, so comparing stored bytes is comparing stored values.
 */
module EventLog {
  import opened CoreTypes

  datatype OperationId = OperationId(value: Uuid)
  datatype ReservationId = ReservationId(value: Uuid)

  const U32_LIMIT: nat := 0x1_0000_0000
  type U32 = n: nat | n < U32_LIMIT

  const OPERATION_SCHEMA_VERSION: nat := 1

  const INVENTORY_RESERVED_EVENT_TYPE := "inventory-reserved"
  const INVENTORY_RELEASED_EVENT_TYPE := "inventory-released"

  datatype InventoryCreated = InventoryCreated(sku: string, available: U32)

  datatype InventoryOperation =
    | Reserve(operationId: OperationId, reservationId: ReservationId, client: string, sku: string, quantity: U32)
    | Release(operationId: OperationId, reservationId: ReservationId, sku: string, quantity: U32)
  {
    function EventType(): string {
      if Reserve? then INVENTORY_RESERVED_EVENT_TYPE else INVENTORY_RELEASED_EVENT_TYPE
    }
  }

  /** The decoded form of the bytes stored for an inventory operation. */
  type Payload = InventoryOperation

  datatype OperationRequested = OperationRequested(
    schemaVersion: nat,
    inventoryStream: string,
    inventoryEventId: Uuid,
    inventoryEventType: string,
    inventoryEventPayload: Payload,
    decisionEventId: Uuid,
    terminalEventId: Uuid,
    operation: InventoryOperation)

  datatype OperationPrepared = OperationPrepared(operationId: OperationId, expectedInventoryRevision: nat)

  datatype InventoryRejection =
    | WrongSku
    | InsufficientInventory(available: U32, requested: U32)
    | ReservationNotActive

  datatype OperationRejected = OperationRejected(operationId: OperationId, reason: InventoryRejection)

  datatype CommittedInventoryWrite = CommittedInventoryWrite(inventoryRevision: nat, position: Position)

  datatype OperationCompleted = OperationCompleted(operationId: OperationId, inventoryWrite: CommittedInventoryWrite)

  datatype InventoryConflict = InventoryConflict(
    expectedInventoryRevision: nat,
    occupiedInventoryRevision: nat,
    occupyingEventId: Uuid)

  datatype OperationConflicted = OperationConflicted(operationId: OperationId, conflict: InventoryConflict)

  /** An event type together with its decoded payload. */
  datatype Body =
    | Created(created: InventoryCreated)
    | Applied(operation: InventoryOperation)
    | Requested(request: OperationRequested)
    | Prepared(prepared: OperationPrepared)
    | Rejected(rejected: OperationRejected)
    | Completed(completed: OperationCompleted)
    | Conflicted(conflicted: OperationConflicted)
    | Foreign(eventType: string)

  datatype Recorded = Recorded(revision: nat, id: Uuid, position: Position, body: Body)

  datatype ExpectedState = NoStream | StreamRevision(revision: nat) {
    /** The only cell an append with this expectation can ever occupy. */
    function Target(): nat {
      match this
      case NoStream => 0
      case StreamRevision(r) => r + 1
    }
  }

  datatype WriteResult = WriteResult(nextExpectedVersion: nat, position: Position)

  datatype AppendReply = Acknowledged(write: WriteResult) | WrongExpectedVersion

  /**
   The server's optimistic append.  The event goes in when its target cell is
   the next free one; an occupied target is a success when it already holds the
   same event id (the payload is not compared); anything else is a conflict.
   */
  function AppendTo(log: seq<Recorded>, expected: ExpectedState, id: Uuid, body: Body, position: Position)
    : (r: (seq<Recorded>, AppendReply))
    ensures log <= r.0
    ensures r.1.Acknowledged? <==> expected.Target() < |r.0| && r.0[expected.Target()].id == id
    ensures r.1.Acknowledged? ==> r.1.write == WriteResult(expected.Target(), r.0[expected.Target()].position)
    ensures r.0 != log <==> expected.Target() == |log|
    ensures r.0 != log ==> r.0 == log + [Recorded(|log|, id, position, body)]
  {
    var target := expected.Target();
    if |log| == target then
      (log + [Recorded(target, id, position, body)], Acknowledged(WriteResult(target, position)))
    else if target < |log| && log[target].id == id then
      (log, Acknowledged(WriteResult(target, log[target].position)))
    else
      (log, WrongExpectedVersion)
  }

  /**
   A retry of an append is absorbed in every continuation: once acknowledged, the
   same event with the same expectation changes nothing and is acknowledged with
   the same write, however the log has grown and whatever payload it carries.
   */
  lemma RetryIsAbsorbed(log: seq<Recorded>, expected: ExpectedState, id: Uuid, body: Body, position: Position,
                        later: seq<Recorded>, otherBody: Body, otherPosition: Position)
    requires AppendTo(log, expected, id, body, position).1.Acknowledged?
    requires AppendTo(log, expected, id, body, position).0 <= later
    ensures AppendTo(later, expected, id, otherBody, otherPosition)
         == (later, AppendTo(log, expected, id, body, position).1)
  {
    var (written, reply) := AppendTo(log, expected, id, body, position);
    assert later[expected.Target()] == written[expected.Target()];
  }

  /**
   A refused append changes nothing.  One that met a different event in its target cell
   conflicts forever; one whose target cell is still ahead of the log is taken by the
   first longer log that ends right before that cell, and conflicts until then.
   */
  lemma ConflictIsPermanent(log: seq<Recorded>, expected: ExpectedState, id: Uuid, body: Body, position: Position,
                            later: seq<Recorded>)
    requires AppendTo(log, expected, id, body, position).1 == WrongExpectedVersion && log <= later
    ensures AppendTo(log, expected, id, body, position).0 == log
    ensures expected.Target() < |log| ==>
      AppendTo(later, expected, id, body, position) == (later, WrongExpectedVersion)
    ensures expected.Target() >= |log| ==>
      && expected.Target() > |log|
      && (|later| < expected.Target() ==>
            AppendTo(later, expected, id, body, position) == (later, WrongExpectedVersion))
      && (|later| == expected.Target() ==> AppendTo(later, expected, id, body, position).1.Acknowledged?)
  {
    if expected.Target() < |log| {
      assert later[expected.Target()] == log[expected.Target()];
    }
  }
}
