/**
 * Service orders (`orden_servicio`): creation with a stock pre-check, editing (cancellation, or
 * reconciliation of the part lines with an invoice on completion) and deletion.
 */
module Orders {
  import opened Outcomes
  import opened Domain
  import opened Lines
  import opened Ledger
  import opened Reconciliation
  import opened Invoices
  import opened Invariants

  /** The body of a create or update request. Lines a request leaves out are an empty sequence. */
  datatype OrderRequest = OrderRequest(
    date: Date,
    status: Status,
    amounts: Amounts,
    advances: Payments,
    keepHelmets: bool,
    keepPapers: bool,
    notes: Notes,
    mechanic: string,
    seller: string,
    vehicle: VehicleId,
    parts: seq<PartLine>,
    services: seq<ServiceLine>)

  /** The note a cancellation writes where the request gives none. */
  const CancelNote: string := "Orden cancelada"

  /** The order row and lines a create stores. */
  function Placed(req: OrderRequest): Order {
    Order(req.date, req.status, req.amounts, req.advances, req.keepHelmets, req.keepPapers, req.notes,
          req.mechanic, req.seller, req.vehicle, req.parts, req.services)
  }

  /**
   * Creates an order. The vehicle, the status and every line are checked before anything is
   * written, each line against the stock as it was; then the order and its lines are stored
   * and each line's part is decremented by its quantity. It is not one transaction, but no
   * write can fail once the checks have passed.
   */
  function Create(st: Store, req: OrderRequest): (r: Outcome<(Store, OrderId)>)
    ensures req.vehicle !in st.vehicles ==> r == Err(Conflict(VehicleMissing))
    ensures req.vehicle in st.vehicles && req.status != Pendiente ==> r == Err(Conflict(NotPending))
    ensures r.Ok? <==> req.vehicle in st.vehicles && req.status == Pendiente && Available(st.parts, req.parts)
    ensures r.Err? ==> r.error.Conflict?
  {
    if req.vehicle !in st.vehicles then Err(Conflict(VehicleMissing))
    else if req.status != Pendiente then Err(Conflict(NotPending))
    else if Shortfall(st.parts, req.parts).Some? then Err(Shortfall(st.parts, req.parts).value)
    else
      var id := st.nextOrder;
      match ConsumeAll(st.parts, req.parts)
      case Err(_) => Err(Internal)
      case Ok(parts) => Ok((st.(orders := st.orders[id := Placed(req)], parts := parts, nextOrder := id + 1), id))
  }

  /**
   * Edits an order inside one transaction. The order and the requested vehicle must exist;
   * a request for `CANCELADO` cancels, any other status revises. Nothing stops editing or
   * cancelling again an order that is already cancelled.
   */
  function Update(st: Store, id: OrderId, req: OrderRequest): (r: Outcome<(Store, Option<Invoice>)>)
    ensures id !in st.orders ==> r == Err(Conflict(OrderMissing))
    ensures id in st.orders && req.vehicle !in st.vehicles ==> r == Err(Conflict(VehicleMissing))
  {
    if id !in st.orders then Err(Conflict(OrderMissing))
    else if req.vehicle !in st.vehicles then Err(Conflict(VehicleMissing))
    else if req.status == Cancelado then Cancel(st, id, req)
    else Revise(st, id, req)
  }

  /** A note the request gives (and is not empty), or the cancellation note. */
  function OrCancelNote(given: Option<string>): string {
    if given.Some? && given.value != "" then given.value else CancelNote
  }

  function CancelNotes(given: Notes): Notes {
    Notes(Some(OrCancelNote(given.customer)), Some(OrCancelNote(given.mechanic)), Some(OrCancelNote(given.invoice)))
  }

  /** An invoice of a cancelled order: dated with the request, every amount and payment 0. */
  function Voided(inv: Invoice, date: Date): Invoice {
    inv.(date := date, payments := NoPayments, amounts := NoAmounts)
  }

  /**
   * The cancellation: zero the order's invoice if there is one, return every line's units to
   * stock, drop all part and service lines, zero the order's money and fill in its notes.
   * Date, vehicle and the other columns stay as they were.
   */
  function Cancel(st: Store, id: OrderId, req: OrderRequest): Outcome<(Store, Option<Invoice>)>
    requires id in st.orders
  {
    var o := st.orders[id];
    var invoices := match Find(st.invoices, OfOrder(id))
      case Some(k) => st.invoices[k := Voided(st.invoices[k], req.date)]
      case None => st.invoices;
    var parts :- ReturnAll(st.parts, o.parts);
    var cancelled := o.(status := Cancelado, amounts := NoAmounts, advances := NoPayments,
                        notes := CancelNotes(req.notes), parts := [], services := []);
    Ok((st.(parts := parts, invoices := invoices, orders := st.orders[id := cancelled]), None))
  }

  /** The order row after a revision: every column from the request, except notes it leaves undefined. */
  function Revised(o: Order, req: OrderRequest): Order {
    Placed(req).(notes := Notes(req.notes.customer.OrElse(o.notes.customer),
                                req.notes.mechanic.OrElse(o.notes.mechanic),
                                req.notes.invoice.OrElse(o.notes.invoice)))
  }

  /**
   * A revision: reconcile the stock, store the requested row and lines, and when the new status
   * is `COMPLETADO` bill the order.
   */
  function Revise(st: Store, id: OrderId, req: OrderRequest): Outcome<(Store, Option<Invoice>)>
    requires id in st.orders && req.vehicle in st.vehicles
  {
    var o := st.orders[id];
    var parts :- Reconcile(st.parts, o.parts, req.parts);
    var revised := st.(parts := parts, orders := st.orders[id := Revised(o, req)]);
    if req.status == Completado then
      var (invoices, inv, next) := Bill(st.invoices, st.nextInvoice, id, st.vehicles[req.vehicle], req);
      Ok((revised.(invoices := invoices, nextInvoice := next), Some(inv)))
    else
      Ok((revised, None))
  }

  /**
   * The invoice of a completed order: the existing one updated from the request's advances,
   * amounts and seller, or else a new one for the vehicle's client. Returns the invoices, the
   * invoice written and the next free invoice id.
   */
  function Bill(invs: seq<Invoice>, nextId: InvoiceId, id: OrderId, client: ClientId, req: OrderRequest)
    : (seq<Invoice>, Invoice, InvoiceId)
  {
    match Find(invs, OfOrder(id))
    case Some(k) =>
      var inv := invs[k].(date := req.date, payments := req.advances, amounts := req.amounts, seller := req.seller);
      (invs[k := inv], inv, nextId)
    case None =>
      var inv := Invoice(nextId, req.date, req.advances, req.amounts, client, Some(id), None, req.seller);
      (invs + [inv], inv, nextId + 1)
  }

  /**
   * Deletes an order as a plain sequence of writes: each line's units go back to stock, then the
   * lines and the order go. A part deleted under a line stops it half way, with the earlier
   * returns kept. The order's invoice, if any, is left in place with its reference to the
   * deleted order; what an enforced foreign key would do instead is not modelled.
   */
  function Remove(st: Store, id: OrderId): Run<Order> {
    var lines := if id in st.orders then st.orders[id].parts else [];
    var (parts, failure) := ReturnUpTo(st.parts, lines);
    var returned := st.(parts := parts);
    if failure.Some? || id !in st.orders then Run(returned, Err(Internal))
    else Run(returned.(orders := st.orders - {id}), Ok(st.orders[id]))
  }

  // ---------------------------------------------------------------------------
  // Create

  /**
   * A created order is a new order under a fresh id, pending, holding exactly the requested
   * lines; each part's stock has dropped by the units the request gives it, and nothing
   * else has changed.
   */
  lemma CreateEffect(st: Store, req: OrderRequest)
    requires CountersFresh(st) && Create(st, req).Ok?
    ensures var (after, id) := Create(st, req).value;
      && id !in st.orders
      && after.orders.Keys == st.orders.Keys + {id}
      && (forall o :: o in st.orders ==> after.orders[o] == st.orders[o])
      && after.orders[id].status == Pendiente
      && after.orders[id].parts == req.parts
      && after.orders[id].services == req.services
      && after.orders[id].vehicle == req.vehicle
      && SameRows(st.parts, after.parts)
      && (forall p :: p in st.parts ==> after.parts[p].stock == st.parts[p].stock - Qty(req.parts, p))
      && after.invoices == st.invoices && after.sales == st.sales
  {
  }

  /** With distinct part ids in the request, the pre-check is enough: no stock goes negative. */
  lemma CreateKeepsStockNonNegative(st: Store, req: OrderRequest)
    requires NonNegative(st.parts) && Distinct(req.parts) && Create(st, req).Ok?
    ensures NonNegative(Create(st, req).value.0.parts)
  {
    ConsumeCoveredKeepsNonNegative(st.parts, req.parts);
  }

  /**
   * Two lines for one part are each checked against the stock before either is applied, so
   * together they can overdraw it: 2 + 2 units out of 3 leave the part at -1.
   */
  lemma CreateWithRepeatedPartOverdraws()
    ensures
      var part := Part("", "", 0, 0, "", 3, 0);
      var st := Store(map[0 := part], map[0 := 0], {0}, map[], map[], [], [], [], 1, 0, 0, 0);
      var req := OrderRequest(0, Pendiente, NoAmounts, NoPayments, false, false, Notes(None, None, None),
                              "", "", 0, [PartLine(0, 2, 0), PartLine(0, 2, 0)], []);
      Create(st, req).Ok? && Create(st, req).value.0.parts[0].stock == -1
  {
  }

  // ---------------------------------------------------------------------------
  // Cancel

  /**
   * Cancelling fails, with a persistence error, only when a part was deleted under one of the
   * order's lines. Otherwise every line's units go back to stock, the lines go, the money is
   * zeroed and the notes filled in; an existing invoice is zeroed in place, and none is created.
   */
  lemma CancelEffect(st: Store, id: OrderId, req: OrderRequest)
    requires id in st.orders && req.vehicle in st.vehicles && req.status == Cancelado
    ensures Update(st, id, req).Ok? <==>
      forall i :: 0 <= i < |st.orders[id].parts| ==> st.orders[id].parts[i].part in st.parts
    ensures Update(st, id, req).Err? ==> Update(st, id, req).error == Internal
    ensures Update(st, id, req).Ok? ==> CancelledAs(st, id, req, Update(st, id, req).value)
  {
    var lines := st.orders[id].parts;
    ReturnUpToEffect(st.parts, lines);
    var (parts, failure) := ReturnUpTo(st.parts, lines);
    assert failure.None? <==> forall i :: 0 <= i < |lines| ==> lines[i].part in st.parts;
    assert Update(st, id, req).Ok? <==> failure.None?;
    match Find(st.invoices, OfOrder(id))
    case Some(k) =>
      ReplaceKeepsFind(st.invoices, k, Voided(st.invoices[k], req.date), OfOrder(id));
    case None =>
  }

  /** What a successful cancellation of order `id` leaves behind, compared with the store `st` it began from. */
  ghost predicate CancelledAs(st: Store, id: OrderId, req: OrderRequest, result: (Store, Option<Invoice>))
    requires id in st.orders
  {
    var after := result.0;
    var lines := st.orders[id].parts;
    && result.1 == None
    && SameRows(st.parts, after.parts)
    && (forall p :: p in st.parts ==> after.parts[p].stock == st.parts[p].stock + Qty(lines, p))
    && after.orders.Keys == st.orders.Keys
    && (forall o :: o in st.orders && o != id ==> after.orders[o] == st.orders[o])
    && after.orders[id].status == Cancelado
    && after.orders[id].parts == [] && after.orders[id].services == []
    && after.orders[id].amounts == NoAmounts && after.orders[id].advances == NoPayments
    && after.orders[id].notes == CancelNotes(req.notes)
    && after.orders[id].date == st.orders[id].date
    && after.orders[id].vehicle == st.orders[id].vehicle
    && |after.invoices| == |st.invoices|
    && after.nextInvoice == st.nextInvoice
    && after.sales == st.sales
    && Find(after.invoices, OfOrder(id)) == Find(st.invoices, OfOrder(id))
    && (forall k :: 0 <= k < |st.invoices| && !Belongs(st.invoices[k], OfOrder(id)) ==>
          after.invoices[k] == st.invoices[k])
    && (Find(st.invoices, OfOrder(id)).Some? ==>
          var k := Find(st.invoices, OfOrder(id)).value;
          after.invoices[k] == Voided(st.invoices[k], req.date))
  }

  /**
   * Cancelling an order right after creating it gives back exactly what the creation reserved:
   * the part rows are as they were before the order existed.
   */
  lemma CancelReturnsReserved(st: Store, req: OrderRequest, cancel: OrderRequest)
    requires Create(st, req).Ok?
    requires cancel.status == Cancelado && cancel.vehicle in st.vehicles
    ensures var (created, id) := Create(st, req).value;
      && Update(created, id, cancel).Ok?
      && Update(created, id, cancel).value.0.parts == st.parts
  {
    var (created, id) := Create(st, req).value;
    assert created.orders[id].parts == req.parts;
    forall i | 0 <= i < |req.parts| ensures req.parts[i].part in created.parts {
      assert Covers(st.parts, req.parts[i]);
    }
    CancelEffect(created, id, cancel);
    var after := Update(created, id, cancel).value.0;
    SameRowsSameStock(st.parts, after.parts);
  }

  // ---------------------------------------------------------------------------
  // Revise

  /**
   * A successful revision stores exactly the requested lines and row, and only stock changes
   * among the parts; with distinct part ids on both sides each part ends at its old stock plus
   * what the order held minus what the request holds.
   */
  lemma ReviseEffect(st: Store, id: OrderId, req: OrderRequest)
    requires req.status != Cancelado && Update(st, id, req).Ok?
    ensures var after := Update(st, id, req).value.0;
      var prev := st.orders[id].parts;
      && after.orders.Keys == st.orders.Keys
      && (forall o :: o in st.orders && o != id ==> after.orders[o] == st.orders[o])
      && after.orders[id].parts == req.parts
      && after.orders[id].services == req.services
      && after.orders[id].status == req.status
      && after.orders[id].vehicle == req.vehicle
      && after.sales == st.sales
      && SameRows(st.parts, after.parts)
      && (Distinct(prev) && Distinct(req.parts) ==>
            forall p :: p in st.parts ==> after.parts[p].stock == st.parts[p].stock + Qty(prev, p) - Qty(req.parts, p))
  {
    var prev := st.orders[id].parts;
    ReconcileEffect(st.parts, prev, req.parts);
    if Distinct(prev) && Distinct(req.parts) {
      ReconcileDelta(st.parts, prev, req.parts);
    }
  }

  /**
   * With distinct part ids on both sides, a revision of an existing order for an existing
   * vehicle succeeds exactly when the reconciliation is feasible against the current stock;
   * while every attached part exists, its only failures are conflicts, and any failure rolls
   * the whole edit back.
   */
  lemma ReviseSucceedsIff(st: Store, id: OrderId, req: OrderRequest)
    requires id in st.orders && req.vehicle in st.vehicles && req.status != Cancelado
    requires Distinct(st.orders[id].parts) && Distinct(req.parts)
    ensures Update(st, id, req).Ok? <==> Feasible(st.parts, st.orders[id].parts, req.parts)
    ensures (forall i :: 0 <= i < |st.orders[id].parts| ==> st.orders[id].parts[i].part in st.parts)
      ==> Update(st, id, req).Err? ==> Update(st, id, req).error.Conflict?
  {
    ReconcileSucceedsIff(st.parts, st.orders[id].parts, req.parts);
    if forall i :: 0 <= i < |st.orders[id].parts| ==> st.orders[id].parts[i].part in st.parts {
      ReconcileFailsByConflict(st.parts, st.orders[id].parts, req.parts);
    }
  }

  /** Resubmitting an order's own lines (distinct part ids) always goes through and leaves every part row as it was. */
  lemma ReviseIdenticalLines(st: Store, id: OrderId, req: OrderRequest)
    requires id in st.orders && req.vehicle in st.vehicles && req.status != Cancelado
    requires req.parts == st.orders[id].parts && Distinct(req.parts)
    ensures Update(st, id, req).Ok?
    ensures Update(st, id, req).value.0.parts == st.parts
  {
    ReconcileIdentical(st.parts, req.parts);
  }

  /**
   * Completing an order leaves exactly one invoice for it, carrying the request's advances as
   * payments, its amounts and seller: the existing invoice rewritten in place (same position,
   * id and client), or else a new one with the next invoice id for the client of the vehicle.
   */
  lemma CompletionBillsOnce(st: Store, id: OrderId, req: OrderRequest)
    requires Valid(st) && req.status == Completado && Update(st, id, req).Ok?
    ensures var (after, inv) := Update(st, id, req).value;
      && ExactlyOne(after.invoices, OfOrder(id))
      && Unique(after.invoices)
      && inv == Some(after.invoices[Find(after.invoices, OfOrder(id)).value])
      && inv.value.payments == req.advances && inv.value.amounts == req.amounts
      && inv.value.seller == req.seller && inv.value.date == req.date
      && (Find(st.invoices, OfOrder(id)).Some? ==>
            var k := Find(st.invoices, OfOrder(id)).value;
            && Find(after.invoices, OfOrder(id)) == Some(k)
            && |after.invoices| == |st.invoices|
            && inv.value.id == st.invoices[k].id && inv.value.client == st.invoices[k].client
            && (forall j :: 0 <= j < |st.invoices| && j != k ==> after.invoices[j] == st.invoices[j]))
      && (Find(st.invoices, OfOrder(id)).None? ==>
            && after.invoices == st.invoices + [inv.value]
            && inv.value.id == st.nextInvoice
            && inv.value.client == st.vehicles[req.vehicle]
            && inv.value.order == Some(id) && inv.value.sale == None)
  {
    var after := Update(st, id, req).value.0;
    match Find(st.invoices, OfOrder(id))
    case Some(k) =>
      var inv := st.invoices[k].(date := req.date, payments := req.advances, amounts := req.amounts, seller := req.seller);
      ReplaceKeepsFind(st.invoices, k, inv, OfOrder(id));
      ReplaceKeepsUnique(st.invoices, k, inv);
      UniqueFound(after.invoices, OfOrder(id));
    case None =>
      var inv := Invoice(st.nextInvoice, req.date, req.advances, req.amounts, st.vehicles[req.vehicle], Some(id), None, req.seller);
      AppendFinds(st.invoices, inv, OfOrder(id));
      AppendKeepsUnique(st.invoices, inv);
      UniqueFound(after.invoices, OfOrder(id));
  }

  /** A revision that does not complete the order touches no invoice and returns none. */
  lemma PendingLeavesInvoices(st: Store, id: OrderId, req: OrderRequest)
    requires req.status == Pendiente && Update(st, id, req).Ok?
    ensures Update(st, id, req).value.0.invoices == st.invoices
    ensures Update(st, id, req).value.0.nextInvoice == st.nextInvoice
    ensures Update(st, id, req).value.1 == None
  {
  }

  // ---------------------------------------------------------------------------
  // Remove

  /**
   * Deleting an order succeeds exactly when it exists and every part under its lines exists;
   * then its units are back in stock and the order is gone. Whatever happens, no invoice and no
   * other order changes, and the stock is only ever raised by lines with non-negative quantities.
   */
  lemma RemoveEffect(st: Store, id: OrderId)
    ensures Remove(st, id).outcome.Ok? <==>
      && id in st.orders
      && forall i :: 0 <= i < |st.orders[id].parts| ==> st.orders[id].parts[i].part in st.parts
    ensures Remove(st, id).outcome.Err? ==>
      Remove(st, id).outcome.error == Internal && Remove(st, id).store.orders == st.orders
    ensures Remove(st, id).outcome.Ok? ==>
      Remove(st, id).store.orders == st.orders - {id} && Remove(st, id).outcome.value == st.orders[id]
    ensures Remove(st, id).store.invoices == st.invoices
    ensures Remove(st, id).store.sales == st.sales
    ensures SameRows(st.parts, Remove(st, id).store.parts)
    ensures Remove(st, id).outcome.Ok? ==> forall p :: p in st.parts ==>
      Remove(st, id).store.parts[p].stock == st.parts[p].stock + Qty(st.orders[id].parts, p)
    ensures id in st.orders && NonNegativeQty(st.orders[id].parts) ==>
      forall p :: p in st.parts ==> Remove(st, id).store.parts[p].stock >= st.parts[p].stock
  {
    var lines := if id in st.orders then st.orders[id].parts else [];
    ReturnUpToEffect(st.parts, lines);
    var (parts, failure) := ReturnUpTo(st.parts, lines);
    assert failure.None? <==> forall i :: 0 <= i < |lines| ==> lines[i].part in st.parts;
    assert Remove(st, id).outcome.Ok? <==> failure.None? && id in st.orders;
  }

  /** Deleting an order right after creating it restores the part rows and the orders as they were. */
  lemma RemoveUndoesCreate(st: Store, req: OrderRequest)
    requires CountersFresh(st) && Create(st, req).Ok?
    ensures var (created, id) := Create(st, req).value;
      && Remove(created, id).outcome.Ok?
      && Remove(created, id).store.parts == st.parts
      && Remove(created, id).store.orders == st.orders
  {
    var (created, id) := Create(st, req).value;
    CreateEffect(st, req);
    forall i | 0 <= i < |req.parts| ensures req.parts[i].part in created.parts {
      assert Covers(st.parts, req.parts[i]);
    }
    RemoveEffect(created, id);
    var after := Remove(created, id).store;
    SameRowsSameStock(st.parts, after.parts);
    assert after.orders == st.orders;
  }
}
