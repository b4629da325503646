/**
 * Direct sales (`venta_directa`): every create, edit and delete is one transaction, and each
 * sale carries exactly one invoice from its creation to its deletion.
 */
module Sales {
  import opened Outcomes
  import opened Domain
  import opened Lines
  import opened Ledger
  import opened Reconciliation
  import opened Invoices
  import opened Invariants

  /** The body of a create or update request. Lines a request leaves out are an empty sequence. */
  datatype SaleRequest = SaleRequest(
    date: Date,
    subtotal: int,
    discount: Option<int>,
    iva: int,
    total: int,
    client: ClientId,
    payments: MaybePayments,
    seller: string,
    parts: seq<PartLine>)

  /** The sale row and lines a create stores. */
  function Recorded(req: SaleRequest): Sale {
    Sale(req.date, req.subtotal, req.discount, req.iva, req.total, req.client, req.payments, req.seller, req.parts)
  }

  /**
   * The invoice a sale is created with, dated `now`; undefined payments and discount are 0
   * there, whatever the sale row stores.
   */
  function Receipt(id: InvoiceId, sale: SaleId, req: SaleRequest, now: Date): Invoice {
    Invoice(id, now, req.payments.OrZero(), Amounts(req.subtotal, req.discount.GetOr(0), req.iva, req.total),
            req.client, None, Some(sale), req.seller)
  }

  /**
   * Creates a sale: the client and every line are checked against the stock as it was, then the
   * sale and its lines are stored, each line's part decremented, and its invoice created.
   * The clock reading `now` dates the invoice.
   */
  function Create(st: Store, req: SaleRequest, now: Date): (r: Outcome<(Store, SaleId, Invoice)>)
    ensures req.client !in st.clients ==> r == Err(Conflict(ClientMissing))
    ensures r.Ok? <==> req.client in st.clients && Available(st.parts, req.parts)
    ensures r.Err? ==> r.error.Conflict?
  {
    if req.client !in st.clients then Err(Conflict(ClientMissing))
    else if Shortfall(st.parts, req.parts).Some? then Err(Shortfall(st.parts, req.parts).value)
    else
      var id := st.nextSale;
      match ConsumeAll(st.parts, req.parts)
      case Err(_) => Err(Internal)
      case Ok(parts) =>
        var inv := Receipt(st.nextInvoice, id, req, now);
        Ok((st.(parts := parts, sales := st.sales[id := Recorded(req)], invoices := st.invoices + [inv],
                nextSale := id + 1, nextInvoice := st.nextInvoice + 1), id, inv))
  }

  /** The sale row after an edit: every column from the request, except payments and discount it leaves undefined. */
  function Amended(s: Sale, req: SaleRequest): Sale {
    Recorded(req).(discount := req.discount.OrElse(s.discount), payments := req.payments.Over(s.payments))
  }

  /**
   * The sale's invoice after an edit: the request's date, amounts and seller; undefined payments
   * are 0, an undefined discount leaves the invoice's own.
   */
  function Mirrored(inv: Invoice, req: SaleRequest): Invoice {
    inv.(date := req.date, payments := req.payments.OrZero(),
         amounts := Amounts(req.subtotal, req.discount.GetOr(inv.amounts.discount), req.iva, req.total),
         seller := req.seller)
  }

  /**
   * Edits a sale: the sale and the client must exist; the part lines are reconciled, the row and
   * lines replaced, and the sale's invoice rewritten (a missing invoice is a persistence error).
   */
  function Update(st: Store, id: SaleId, req: SaleRequest): (r: Outcome<(Store, Invoice)>)
    ensures id !in st.sales ==> r == Err(Conflict(SaleMissing))
    ensures id in st.sales && req.client !in st.clients ==> r == Err(Conflict(ClientMissing))
  {
    if id !in st.sales then Err(Conflict(SaleMissing))
    else if req.client !in st.clients then Err(Conflict(ClientMissing))
    else
      var s := st.sales[id];
      var parts :- Reconcile(st.parts, s.parts, req.parts);
      match Find(st.invoices, OfSale(id))
      case None => Err(Internal)
      case Some(k) =>
        var inv := Mirrored(st.invoices[k], req);
        Ok((st.(parts := parts, sales := st.sales[id := Amended(s, req)], invoices := st.invoices[k := inv]), inv))
  }

  /**
   * Deletes a sale: every line's units go back to stock, then the lines, the sale's invoice and
   * the sale are deleted. A missing part, invoice or sale rolls all of it back.
   */
  function Remove(st: Store, id: SaleId): Outcome<(Store, Sale)> {
    var lines := if id in st.sales then st.sales[id].parts else [];
    var parts :- ReturnAll(st.parts, lines);
    match Find(st.invoices, OfSale(id))
    case None => Err(Internal)
    case Some(k) =>
      if id !in st.sales then Err(Internal)
      else Ok((st.(parts := parts, invoices := RemoveAt(st.invoices, k), sales := st.sales - {id}), st.sales[id]))
  }

  // ---------------------------------------------------------------------------
  // Create

  /**
   * A created sale is a new sale under a fresh id holding exactly the requested lines; each
   * part's stock has dropped by the units the request gives it; and the sale has exactly one
   * invoice, the new last one, for the same client, with the sale's amounts and payments and
   * undefined payments and discount as 0.
   */
  lemma CreateEffect(st: Store, req: SaleRequest, now: Date)
    requires Valid(st) && Create(st, req, now).Ok?
    ensures var (after, id, inv) := Create(st, req, now).value;
      && id !in st.sales
      && after.sales.Keys == st.sales.Keys + {id}
      && (forall s :: s in st.sales ==> after.sales[s] == st.sales[s])
      && after.sales[id].parts == req.parts
      && after.sales[id].client == req.client
      && SameRows(st.parts, after.parts)
      && (forall p :: p in st.parts ==> after.parts[p].stock == st.parts[p].stock - Qty(req.parts, p))
      && after.orders == st.orders
      && after.invoices == st.invoices + [inv]
      && ExactlyOne(after.invoices, OfSale(id))
      && Unique(after.invoices)
      && inv.id == st.nextInvoice && inv.date == now
      && inv.client == req.client && inv.sale == Some(id) && inv.order == None
      && inv.payments == Payments(req.payments.cash.GetOr(0), req.payments.card.GetOr(0), req.payments.transfer.GetOr(0))
      && inv.amounts == Amounts(req.subtotal, req.discount.GetOr(0), req.iva, req.total)
      && inv.seller == req.seller
  {
    var (after, id, inv) := Create(st, req, now).value;
    assert Find(st.invoices, OfSale(id)).None?;
    AppendFinds(st.invoices, inv, OfSale(id));
    AppendKeepsUnique(st.invoices, inv);
    UniqueFound(after.invoices, OfSale(id));
  }

  /** With distinct part ids in the request, the pre-check is enough: no stock goes negative. */
  lemma CreateKeepsStockNonNegative(st: Store, req: SaleRequest, now: Date)
    requires NonNegative(st.parts) && Distinct(req.parts) && Create(st, req, now).Ok?
    ensures NonNegative(Create(st, req, now).value.0.parts)
  {
    ConsumeCoveredKeepsNonNegative(st.parts, req.parts);
  }

  // ---------------------------------------------------------------------------
  // Update

  /**
   * A successful edit stores exactly the requested lines, moves only stock among the parts
   * (with distinct part ids on both sides: old stock plus old units minus requested units), and
   * rewrites the sale's one invoice in place to mirror the request, keeping its id and client.
   */
  lemma UpdateEffect(st: Store, id: SaleId, req: SaleRequest)
    requires Update(st, id, req).Ok?
    ensures var (after, inv) := Update(st, id, req).value;
      var prev := st.sales[id].parts;
      var k := Find(st.invoices, OfSale(id)).value;
      && after.sales.Keys == st.sales.Keys
      && (forall s :: s in st.sales && s != id ==> after.sales[s] == st.sales[s])
      && after.sales[id].parts == req.parts
      && after.sales[id].client == req.client
      && after.orders == st.orders
      && SameRows(st.parts, after.parts)
      && (Distinct(prev) && Distinct(req.parts) ==>
            forall p :: p in st.parts ==> after.parts[p].stock == st.parts[p].stock + Qty(prev, p) - Qty(req.parts, p))
      && Find(after.invoices, OfSale(id)) == Some(k)
      && |after.invoices| == |st.invoices|
      && after.invoices[k] == inv
      && (forall j :: 0 <= j < |st.invoices| && j != k ==> after.invoices[j] == st.invoices[j])
      && inv.id == st.invoices[k].id && inv.client == st.invoices[k].client
      && inv.payments == Payments(req.payments.cash.GetOr(0), req.payments.card.GetOr(0), req.payments.transfer.GetOr(0))
      && inv.amounts == Amounts(req.subtotal, req.discount.GetOr(st.invoices[k].amounts.discount), req.iva, req.total)
      && inv.seller == req.seller && inv.date == req.date
      && (Unique(st.invoices) ==> Unique(after.invoices))
  {
    var prev := st.sales[id].parts;
    ReconcileEffect(st.parts, prev, req.parts);
    if Distinct(prev) && Distinct(req.parts) {
      ReconcileDelta(st.parts, prev, req.parts);
    }
    var k := Find(st.invoices, OfSale(id)).value;
    var inv := Mirrored(st.invoices[k], req);
    ReplaceKeepsFind(st.invoices, k, inv, OfSale(id));
    if Unique(st.invoices) {
      ReplaceKeepsUnique(st.invoices, k, inv);
    }
  }

  /**
   * In a valid store, with distinct part ids on both sides, an edit of an existing sale for an
   * existing client succeeds exactly when the reconciliation is feasible against the current
   * stock; while every attached part exists its only failures are conflicts.
   */
  lemma UpdateSucceedsIff(st: Store, id: SaleId, req: SaleRequest)
    requires Valid(st) && id in st.sales && req.client in st.clients
    requires Distinct(st.sales[id].parts) && Distinct(req.parts)
    ensures Update(st, id, req).Ok? <==> Feasible(st.parts, st.sales[id].parts, req.parts)
    ensures (forall i :: 0 <= i < |st.sales[id].parts| ==> st.sales[id].parts[i].part in st.parts)
      ==> Update(st, id, req).Err? ==> Update(st, id, req).error.Conflict?
  {
    ReconcileSucceedsIff(st.parts, st.sales[id].parts, req.parts);
    if forall i :: 0 <= i < |st.sales[id].parts| ==> st.sales[id].parts[i].part in st.parts {
      ReconcileFailsByConflict(st.parts, st.sales[id].parts, req.parts);
    }
  }

  /** In a valid store, resubmitting a sale's own lines (distinct part ids) always goes through and leaves every part row as it was. */
  lemma UpdateIdenticalLines(st: Store, id: SaleId, req: SaleRequest)
    requires Valid(st) && id in st.sales && req.client in st.clients
    requires req.parts == st.sales[id].parts && Distinct(req.parts)
    ensures Update(st, id, req).Ok?
    ensures Update(st, id, req).value.0.parts == st.parts
  {
    ReconcileIdentical(st.parts, req.parts);
  }

  // ---------------------------------------------------------------------------
  // Remove

  /**
   * In a valid store, deleting a sale succeeds exactly when it exists and every part under its
   * lines exists; any other outcome is a persistence error that rolls everything back.
   */
  lemma RemoveSucceedsIff(st: Store, id: SaleId)
    requires Valid(st)
    ensures Remove(st, id).Ok? <==>
      && id in st.sales
      && forall i :: 0 <= i < |st.sales[id].parts| ==> st.sales[id].parts[i].part in st.parts
    ensures Remove(st, id).Err? ==> Remove(st, id).error == Internal
  {
    var lines := if id in st.sales then st.sales[id].parts else [];
    ReturnAllEffect(st.parts, lines);
  }

  /** After a successful deletion the sale is gone and its units are back in stock. */
  lemma RemoveReturnsStock(st: Store, id: SaleId)
    requires Remove(st, id).Ok?
    ensures var after := Remove(st, id).value.0;
      && after.sales == st.sales - {id}
      && after.orders == st.orders
      && SameRows(st.parts, after.parts)
      && (forall p :: p in st.parts ==> after.parts[p].stock == st.parts[p].stock + Qty(st.sales[id].parts, p))
  {
    ReturnAllEffect(st.parts, st.sales[id].parts);
  }

  /**
   * After a successful deletion in a valid store the sale's invoice is gone, every other invoice
   * is kept, and every remaining sale is still invoiced.
   */
  lemma RemoveDropsInvoice(st: Store, id: SaleId)
    requires Valid(st) && Remove(st, id).Ok?
    ensures var after := Remove(st, id).value.0;
      && |after.invoices| == |st.invoices| - 1
      && Find(after.invoices, OfSale(id)).None?
      && Unique(after.invoices)
      && (forall s :: s in after.sales ==> Find(after.invoices, OfSale(s)).Some?)
  {
    var k := Find(st.invoices, OfSale(id)).value;
    var rest := RemoveAt(st.invoices, k);
    assert Remove(st, id).value.0.invoices == rest;
    assert Remove(st, id).value.0.sales == st.sales - {id};
    RemoveKeepsUnique(st.invoices, k);
    UniqueFound(st.invoices, OfSale(id));
    forall i | 0 <= i < |rest| ensures !Belongs(rest[i], OfSale(id)) {
      var i' := if i < k then i else i + 1;
      assert rest[i] == st.invoices[i'];
    }
    forall s | s in st.sales && s != id ensures Find(rest, OfSale(s)).Some? {
      RemoveKeepsFind(st.invoices, k, OfSale(s));
    }
  }

  /**
   * A successful deletion in a valid store drops the sale's invoice and nothing else: the
   * invoices left are exactly those of other owners, in their order.
   */
  lemma RemoveKeepsOtherInvoices(st: Store, id: SaleId)
    requires Valid(st) && Remove(st, id).Ok?
    ensures Remove(st, id).value.0.invoices == Others(st.invoices, OfSale(id))
  {
    var k := Find(st.invoices, OfSale(id)).value;
    UniqueFound(st.invoices, OfSale(id));
    RemoveAtIsOthers(st.invoices, OfSale(id), k);
  }

  /** In a valid store, deleting a sale right after creating it restores the parts, sales and invoices as they were. */
  lemma RemoveUndoesCreate(st: Store, req: SaleRequest, now: Date)
    requires Valid(st) && Create(st, req, now).Ok?
    ensures var (created, id, _) := Create(st, req, now).value;
      && Remove(created, id).Ok?
      && Remove(created, id).value.0.parts == st.parts
      && Remove(created, id).value.0.sales == st.sales
      && Remove(created, id).value.0.invoices == st.invoices
  {
    var (created, id, inv) := Create(st, req, now).value;
    CreateEffect(st, req, now);
    forall i | 0 <= i < |req.parts| ensures req.parts[i].part in created.parts {
      assert Covers(st.parts, req.parts[i]);
    }
    assert Find(st.invoices, OfSale(id)).None?;
    AppendFinds(st.invoices, inv, OfSale(id));
    ReturnAllEffect(created.parts, req.parts);
    var after := Remove(created, id).value.0;
    SameRowsSameStock(st.parts, after.parts);
    assert RemoveAt(created.invoices, |st.invoices|) == st.invoices;
    assert after.sales == st.sales;
  }
}
