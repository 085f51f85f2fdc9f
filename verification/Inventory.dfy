/**
 The inventory stream: the fold that rebuilds its state, the rule that accepts
 or rejects a command, and what every accepted history conserves.
 */
module Inventory {
  import opened Wrappers
  import opened EventLog

  datatype InventoryState = InventoryState(sku: string, available: U32, reservations: map<ReservationId, U32>)

  datatype InventoryView = InventoryView(state: InventoryState, revision: nat, eventCount: nat)

  /** What the fold holds before it has seen the creation event. */
  datatype Tally = Tally(sku: Option<string>, available: U32, reservations: map<ReservationId, U32>)

  const EMPTY_TALLY := Tally(None, 0, map[])

  /** One event of the fold; None is a failed assertion or an overflowing addition. */
  function Count(t: Tally, event: Recorded): Option<Tally> {
    match event.body
    case Created(created) =>
      Some(t.(sku := Some(created.sku), available := created.available))
    case Applied(Reserve(operationId, reservationId, _, _, quantity)) =>
      if event.id != operationId.value || t.available < quantity || reservationId in t.reservations then None
      else Some(t.(available := t.available - quantity, reservations := t.reservations[reservationId := quantity]))
    case Applied(Release(operationId, reservationId, _, quantity)) =>
      if event.id != operationId.value
         || reservationId !in t.reservations
         || t.reservations[reservationId] != quantity
         || t.available + quantity >= U32_LIMIT
      then None
      else Some(t.(available := t.available + quantity, reservations := t.reservations - {reservationId}))
    case _ => None
  }

  function CountAll(events: seq<Recorded>): Option<Tally> {
    if events == [] then Some(EMPTY_TALLY)
    else
      match CountAll(events[..|events| - 1])
      case None => None
      case Some(t) => Count(t, events[|events| - 1])
  }

  /** The view of a history, or None when folding it panics. */
  function FoldInventory(events: seq<Recorded>): Option<InventoryView> {
    match CountAll(events)
    case None => None
    case Some(t) =>
      if events == [] || t.sku.None? then None
      else Some(InventoryView(InventoryState(t.sku.value, t.available, t.reservations),
                              events[|events| - 1].revision, |events|))
  }

  function RejectInventoryCommand(inventory: InventoryState, operation: InventoryOperation)
    : Option<InventoryRejection>
  {
    if operation.sku != inventory.sku then Some(WrongSku)
    else
      match operation
      case Reserve(_, _, _, _, quantity) =>
        if inventory.available < quantity then Some(InsufficientInventory(inventory.available, quantity)) else None
      case Release(_, reservationId, _, quantity) =>
        if reservationId in inventory.reservations && inventory.reservations[reservationId] == quantity
        then None
        else Some(ReservationNotActive)
  }

  /** The fold as the reader runs it, one event at a time over four variables. */
  method ReadInventoryEvents(events: seq<Recorded>) returns (view: Option<InventoryView>)
    ensures view == FoldInventory(events)
  {
    var sku: Option<string> := None;
    var available: U32 := 0;
    var reservations: map<ReservationId, U32> := map[];
    var revision: Option<nat> := None;
    var eventCount := 0;

    while eventCount < |events|
      invariant 0 <= eventCount <= |events|
      invariant CountAll(events[..eventCount]) == Some(Tally(sku, available, reservations))
      invariant revision == if eventCount == 0 then None else Some(events[eventCount - 1].revision)
    {
      var event := events[eventCount];
      PanicIsFinal(events, eventCount + 1);
      assert events[..eventCount + 1][..eventCount] == events[..eventCount];
      revision := Some(event.revision);
      eventCount := eventCount + 1;

      match event.body {
        case Created(created) =>
          sku := Some(created.sku);
          available := created.available;
        case Applied(Reserve(operationId, reservationId, _, _, quantity)) =>
          if event.id != operationId.value || available < quantity { return None; }
          available := available - quantity;
          if reservationId in reservations { return None; }
          reservations := reservations[reservationId := quantity];
        case Applied(Release(operationId, reservationId, _, quantity)) =>
          if event.id != operationId.value || reservationId !in reservations { return None; }
          var removed := reservations[reservationId];
          reservations := reservations - {reservationId};
          if removed != quantity || available + quantity >= U32_LIMIT { return None; }
          available := available + quantity;
        case _ =>
          return None;
      }
    }

    assert events[..eventCount] == events;
    if sku.None? || revision.None? { return None; }
    return Some(InventoryView(InventoryState(sku.value, available, reservations), revision.value, eventCount));
  }

  /** A prefix that panics makes every longer history panic. */
  lemma {:induction false} PanicIsFinal(events: seq<Recorded>, n: nat)
    requires n <= |events|
    ensures CountAll(events[..n]).None? ==> CountAll(events).None?
    decreases |events|
  {
    if n < |events| {
      assert events[..|events| - 1][..n] == events[..n];
      PanicIsFinal(events[..|events| - 1], n);
    } else {
      assert events[..n] == events;
    }
  }

  // ---------------------------------------------------------------- conservation

  ghost function Sum(m: map<ReservationId, U32>): nat
    decreases |m|
  {
    if m == map[] then 0
    else
      var k :| k in m;
      assert (m - {k}).Keys == m.Keys - {k};
      m[k] + Sum(m - {k})
  }

  lemma {:induction false} SumWithout(m: map<ReservationId, U32>, k: ReservationId)
    requires k in m
    ensures Sum(m) == m[k] + Sum(m - {k})
    decreases |m|
  {
    assert m != map[];
    var p :| p in m && Sum(m) == m[p] + Sum(m - {p});
    if p != k {
      assert (m - {p}).Keys == m.Keys - {p};
      SumWithout(m - {p}, k);
      assert (m - {k}).Keys == m.Keys - {k};
      SumWithout(m - {k}, p);
      assert m - {p} - {k} == m - {k} - {p};
    }
  }

  lemma SumWith(m: map<ReservationId, U32>, k: ReservationId, v: U32)
    requires k !in m
    ensures Sum(m[k := v]) == Sum(m) + v
  {
    SumWithout(m[k := v], k);
    assert m[k := v] - {k} == m;
  }

  /** A creation event first and inventory operations after it, as the protocol writes it. */
  predicate CreatedOnce(events: seq<Recorded>) {
    && |events| > 0
    && events[0].body.Created?
    && forall k | 1 <= k < |events| :: events[k].body.Applied?
  }

  /**
   Units are conserved: at every point of a history that folds, what is available
   and what is reserved add up to what was created.
   */
  lemma {:induction false} UnitsAreConserved(events: seq<Recorded>)
    requires CreatedOnce(events)
    requires CountAll(events).Some?
    ensures CountAll(events).value.sku == Some(events[0].body.created.sku)
    ensures CountAll(events).value.available + Sum(CountAll(events).value.reservations)
         == events[0].body.created.available
  {
    var last := |events| - 1;
    var before := CountAll(events[..last]);
    if last == 0 {
      assert events[..last] == [];
    } else {
      UnitsAreConserved(events[..last]);
      match events[last].body.operation {
        case Reserve(_, reservationId, _, _, quantity) =>
          SumWith(before.value.reservations, reservationId, quantity);
        case Release(_, reservationId, _, quantity) =>
          SumWithout(before.value.reservations, reservationId);
      }
    }
  }

  /**
   What the command rule is worth: on a history that folds, an accepted command's
   event folds too, with no assertion failing and no u32 under- or overflow, except
   for exactly one thing the rule never looks at, a reservation id already active.
   */
  lemma AcceptedCommandFolds(events: seq<Recorded>, event: Recorded)
    requires CreatedOnce(events)
    requires FoldInventory(events).Some?
    requires event.body.Applied? && event.id == event.body.operation.operationId.value
    requires RejectInventoryCommand(FoldInventory(events).value.state, event.body.operation) == None
    ensures FoldInventory(events + [event]).None?
       <==> event.body.operation.Reserve?
            && event.body.operation.reservationId in FoldInventory(events).value.state.reservations
  {
    UnitsAreConserved(events);
    assert (events + [event])[..|events|] == events;
    var t := CountAll(events).value;
    match event.body.operation {
      case Reserve(_, _, _, _, _) =>
      case Release(_, reservationId, _, _) => SumWithout(t.reservations, reservationId);
    }
  }

  /** A rejected command's event would have broken the fold: the rule refuses nothing it could accept. */
  lemma RejectedCommandWouldNotFold(events: seq<Recorded>, event: Recorded)
    requires FoldInventory(events).Some?
    requires event.body.Applied? && event.body.operation.sku == FoldInventory(events).value.state.sku
    requires RejectInventoryCommand(FoldInventory(events).value.state, event.body.operation).Some?
    ensures FoldInventory(events + [event]).None?
  {
    assert (events + [event])[..|events|] == events;
  }

  /** An active reservation was opened by an earlier reserve event of the same history. */
  lemma {:induction false} ActiveReservationHasEvent(events: seq<Recorded>, reservationId: ReservationId)
    returns (k: nat)
    requires CountAll(events).Some? && reservationId in CountAll(events).value.reservations
    ensures k < |events| && events[k].body.Applied? && events[k].body.operation.Reserve?
    ensures events[k].body.operation.reservationId == reservationId
    ensures events[k].body.operation.quantity == CountAll(events).value.reservations[reservationId]
  {
    var last := |events| - 1;
    var before := CountAll(events[..last]).value;
    if events[last].body.Applied? && events[last].body.operation.Reserve?
       && events[last].body.operation.reservationId == reservationId {
      k := last;
    } else {
      k := ActiveReservationHasEvent(events[..last], reservationId);
    }
  }

  /** The event opens a reservation that no later event releases. */
  predicate OpenedAt(events: seq<Recorded>, reservationId: ReservationId, k: int) {
    && 0 <= k < |events|
    && events[k].body.Applied? && events[k].body.operation.Reserve?
    && events[k].body.operation.reservationId == reservationId
    && forall j | k < j < |events| && events[j].body.Applied? && events[j].body.operation.Release? ::
         events[j].body.operation.reservationId != reservationId
  }

  lemma OpenedAtSnoc(events: seq<Recorded>, reservationId: ReservationId, k: int)
    requires events != []
    ensures
      var before, last := events[..|events| - 1], events[|events| - 1].body;
      OpenedAt(events, reservationId, k) <==>
        if k == |before|
        then last.Applied? && last.operation.Reserve? && last.operation.reservationId == reservationId
        else OpenedAt(before, reservationId, k)
             && !(last.Applied? && last.operation.Release? && last.operation.reservationId == reservationId)
  {
    var before := events[..|events| - 1];
    assert forall j | 0 <= j < |before| :: before[j] == events[j];
  }

  /** The active reservations are those reserved and not released since, each with the quantity reserved. */
  lemma {:induction false} ActiveReservations(events: seq<Recorded>, reservationId: ReservationId)
    requires CountAll(events).Some?
    ensures reservationId in CountAll(events).value.reservations
       <==> exists k :: OpenedAt(events, reservationId, k)
    ensures forall k | OpenedAt(events, reservationId, k) ::
      && reservationId in CountAll(events).value.reservations
      && CountAll(events).value.reservations[reservationId] == events[k].body.operation.quantity
  {
    if events != [] {
      var before := events[..|events| - 1];
      ActiveReservations(before, reservationId);
      forall k
        ensures OpenedAt(events, reservationId, k) ==> k == |before| || OpenedAt(before, reservationId, k)
      {
        OpenedAtSnoc(events, reservationId, k);
      }
      OpenedAtSnoc(events, reservationId, |before|);
      if reservationId in CountAll(before).value.reservations {
        var k :| OpenedAt(before, reservationId, k);
        OpenedAtSnoc(events, reservationId, k);
      }
      assert forall j | 0 <= j < |before| :: before[j] == events[j];
    }
  }

  /**
   Exactly which event a folding history admits next: a creation, a reserve under its own
   id of no more than is available and not reserved already, or a release under its own id
   of just what is reserved.
   */
  lemma FoldAdmits(events: seq<Recorded>, event: Recorded)
    requires CountAll(events).Some?
    ensures CountAll(events + [event]).Some?
       <==> match event.body
            case Created(_) => true
            case Applied(Reserve(operationId, reservationId, _, _, quantity)) =>
              && event.id == operationId.value
              && quantity <= CountAll(events).value.available
              && !exists k :: OpenedAt(events, reservationId, k)
            case Applied(Release(operationId, reservationId, _, quantity)) =>
              && event.id == operationId.value
              && (exists k :: OpenedAt(events, reservationId, k) && events[k].body.operation.quantity == quantity)
              && CountAll(events).value.available + quantity < 0x1_0000_0000
            case _ => false
  {
    assert (events + [event])[..|events|] == events;
    if event.body.Applied? {
      ActiveReservations(events, event.body.operation.reservationId);
    }
  }
}
