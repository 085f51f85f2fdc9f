/**
 The other fold over an inventory stream, the one the idempotency suite keeps: it also
 remembers which operations it has seen, and refuses to see one twice.  On every log
 the protocol can write it never refuses, and what it remembers is where each
 operation was pinned.
 */
module ProcessedOperations {
  import opened Wrappers
  import opened EventLog
  import opened Inventory
  import opened ReservationProtocol
  import opened ReservationTheorems

  datatype Processed = Processed(revision: nat, operation: InventoryOperation)

  datatype Ledger = Ledger(
    available: U32,
    reservations: map<ReservationId, U32>,
    processed: map<OperationId, Processed>)

  const EMPTY_LEDGER := Ledger(0, map[], map[])

  function Enter(t: Ledger, event: Recorded): Option<Ledger> {
    match event.body
    case Created(created) => Some(t.(available := created.available))
    case Applied(operation) =>
      var operationId := operation.operationId;
      if event.id != operationId.value || operationId in t.processed then None
      else
        var entry := t.processed[operationId := Processed(event.revision, operation)];
        (match operation
         case Reserve(_, reservationId, _, _, quantity) =>
           if t.available < quantity || reservationId in t.reservations then None
           else Some(Ledger(t.available - quantity, t.reservations[reservationId := quantity], entry))
         case Release(_, reservationId, _, quantity) =>
           if reservationId !in t.reservations || t.reservations[reservationId] != quantity
              || t.available + quantity >= U32_LIMIT
           then None
           else Some(Ledger(t.available + quantity, t.reservations - {reservationId}, entry)))
    case _ => None
  }

  function FoldLedger(events: seq<Recorded>): Option<Ledger> {
    if events == [] then Some(EMPTY_LEDGER)
    else
      match FoldLedger(events[..|events| - 1])
      case None => None
      case Some(t) => Enter(t, events[|events| - 1])
  }

  /** The fold as the suite runs it, over three maps and counters updated event by event. */
  method FoldInventoryEvents(events: seq<Recorded>) returns (r: Option<Ledger>)
    ensures r == FoldLedger(events)
  {
    var available: U32 := 0;
    var reservations: map<ReservationId, U32> := map[];
    var processed: map<OperationId, Processed> := map[];
    for i := 0 to |events|
      invariant FoldLedger(events[..i]) == Some(Ledger(available, reservations, processed))
    {
      assert events[..i + 1][..i] == events[..i];
      RefusalIsFinal(events, i + 1);
      var event := events[i];
      match event.body {
        case Created(created) => available := created.available;
        case Applied(Reserve(operationId, reservationId, client, sku, quantity)) =>
          if event.id != operationId.value || available < quantity { return None; }
          available := available - quantity;
          if reservationId in reservations { return None; }
          reservations := reservations[reservationId := quantity];
          if operationId in processed { return None; }
          processed := processed[operationId :=
            Processed(event.revision, Reserve(operationId, reservationId, client, sku, quantity))];
        case Applied(Release(operationId, reservationId, sku, quantity)) =>
          if event.id != operationId.value || reservationId !in reservations { return None; }
          if reservations[reservationId] != quantity || available + quantity >= U32_LIMIT { return None; }
          reservations := reservations - {reservationId};
          available := available + quantity;
          if operationId in processed { return None; }
          processed := processed[operationId :=
            Processed(event.revision, Release(operationId, reservationId, sku, quantity))];
        case _ => return None;
      }
    }
    assert events[..|events|] == events;
    return Some(Ledger(available, reservations, processed));
  }

  lemma {:induction false} RefusalIsFinal(events: seq<Recorded>, n: nat)
    requires n <= |events|
    ensures FoldLedger(events[..n]).None? ==> FoldLedger(events).None?
    decreases |events|
  {
    if n < |events| {
      assert events[..|events| - 1][..n] == events[..n];
      RefusalIsFinal(events[..|events| - 1], n);
    } else {
      assert events[..n] == events;
    }
  }

  predicate AppliedBy(event: Recorded, operationId: OperationId) {
    event.body.Applied? && event.body.operation.operationId == operationId
  }

  predicate EachOnce(events: seq<Recorded>) {
    forall i, j | 0 <= i < j < |events| && events[i].body.Applied? ::
      !AppliedBy(events[j], events[i].body.operation.operationId)
  }

  /** It remembers exactly the operations that occurred, each with its event's revision and content. */
  lemma {:induction false} LedgerRemembers(events: seq<Recorded>, o: OperationId)
    requires FoldLedger(events).Some?
    ensures o in FoldLedger(events).value.processed <==> exists k :: 0 <= k < |events| && AppliedBy(events[k], o)
    ensures forall k | 0 <= k < |events| && AppliedBy(events[k], o) ::
      FoldLedger(events).value.processed[o] == Processed(events[k].revision, events[k].body.operation)
  {
    if events != [] {
      var last := |events| - 1;
      var before := events[..last];
      LedgerRemembers(before, o);
      assert forall k | 0 <= k < last :: before[k] == events[k];
      if o in FoldLedger(before).value.processed {
        var k :| 0 <= k < |before| && AppliedBy(before[k], o);
        assert AppliedBy(events[k], o);
      }
    }
  }

  /**
   The two folds differ in one thing only: this one succeeds exactly where the other
   does and no operation occurs twice, and then both count the same.
   */
  lemma {:induction false} FoldsDifferInDuplicatesOnly(events: seq<Recorded>)
    ensures FoldLedger(events).Some? <==> CountAll(events).Some? && EachOnce(events)
    ensures FoldLedger(events).Some? ==>
      && FoldLedger(events).value.available == CountAll(events).value.available
      && FoldLedger(events).value.reservations == CountAll(events).value.reservations
  {
    if events != [] {
      var before := events[..|events| - 1];
      FoldsDifferInDuplicatesOnly(before);
      OnceMore(events);
      if FoldLedger(before).Some? && events[|before|].body.Applied? {
        LedgerRemembers(before, events[|before|].body.operation.operationId);
      }
    }
  }

  lemma OnceMore(events: seq<Recorded>)
    requires events != []
    ensures var before, last := events[..|events| - 1], events[|events| - 1];
      EachOnce(events) <==>
        EachOnce(before) && (last.body.Applied? ==>
          !exists k :: 0 <= k < |before| && AppliedBy(before[k], last.body.operation.operationId))
  {
    var before, last := events[..|events| - 1], events[|events| - 1];
    assert forall k | 0 <= k < |before| :: before[k] == events[k];
    if EachOnce(events) && last.body.Applied? {
      forall k | 0 <= k < |before|
        ensures !AppliedBy(before[k], last.body.operation.operationId)
      {
        if events[k].body.Applied? {
          assert !AppliedBy(events[|events| - 1], events[k].body.operation.operationId);
        }
      }
    }
  }

  /** On every inventory log the protocol can write, the remembering fold succeeds too. */
  lemma ProtocolLogsHaveNoDuplicates(s: System, name: string)
    requires Reachable(s) && DistinctReservations(s.logs)
    requires Log(s.logs, InventoryStream(name)) != []
    ensures var log := Log(s.logs, InventoryStream(name));
      && FoldLedger(log).Some? && FoldInventory(log).Some?
      && FoldLedger(log).value.available == FoldInventory(log).value.state.available
      && FoldLedger(log).value.reservations == FoldInventory(log).value.state.reservations
    ensures var log := Log(s.logs, InventoryStream(name));
      forall o | o in FoldLedger(log).value.processed ::
        IsPrepared(s.logs, o) && FoldLedger(log).value.processed[o]
          == Processed(PinnedCell(s.logs, o), RequestOf(s.logs, o).operation)
  {
    var log := Log(s.logs, InventoryStream(name));
    ReachableIsInvariant(s);
    assert Run(s, []) == s;
    InventoryAlwaysFolds(s, s, name, |log|);
    assert log[..|log|] == log;
    HistoryIsCreatedOnce(s, name);
    forall i, j | 0 <= i < j < |log| && log[i].body.Applied?
      ensures !AppliedBy(log[j], log[i].body.operation.operationId)
    {
      InventoryCellsBelongToTheirId(s, name, i);
      InventoryCellsBelongToTheirId(s, name, j);
    }
    FoldsDifferInDuplicatesOnly(log);
    var t := FoldLedger(log).value;
    forall o | o in t.processed
      ensures IsPrepared(s.logs, o)
      ensures t.processed[o] == Processed(PinnedCell(s.logs, o), RequestOf(s.logs, o).operation)
    {
      LedgerRemembers(log, o);
      var k :| 0 <= k < |log| && AppliedBy(log[k], o);
      InventoryCellsBelongToTheirId(s, name, k);
      assert CellOk(s.logs, InventoryStream(name), k);
    }
  }
}
