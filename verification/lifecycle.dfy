/**
 * The operations run one after another against the same store. A failed transaction leaves the
 * store as it was; a failed plain sequence of writes leaves what it wrote. Whatever happens,
 * every store reached from a sound one by well-formed requests is sound: invoices stay one per
 * owner, every sale keeps its invoice, barcodes stay unique and no stock or stored line goes
 * negative.
 */
module Lifecycle {
  import opened Outcomes
  import opened Domain
  import opened Lines
  import opened Ledger
  import opened Reconciliation
  import opened Invoices
  import opened Associations
  import opened Invariants
  import Orders
  import Sales
  import Parts

  /** One request to the back end. */
  datatype Command =
    | PlaceOrder(order: Orders.OrderRequest)
    | EditOrder(orderId: OrderId, order: Orders.OrderRequest)
    | DeleteOrder(orderId: OrderId)
    | RecordSale(sale: Sales.SaleRequest, now: Date)
    | EditSale(saleId: SaleId, sale: Sales.SaleRequest)
    | DeleteSale(saleId: SaleId)
    | AddPart(part: Parts.PartRequest)
    | EditPart(partId: PartId, change: Parts.PartChange)
    | DeletePart(partId: PartId)

  /** The store after one command, whether it succeeded or not. */
  function Step(st: Store, c: Command): Store {
    match c
    case PlaceOrder(req) => (match Orders.Create(st, req) case Ok(v) => v.0 case Err(_) => st)
    case EditOrder(id, req) => (match Orders.Update(st, id, req) case Ok(v) => v.0 case Err(_) => st)
    case DeleteOrder(id) => Orders.Remove(st, id).store
    case RecordSale(req, now) => (match Sales.Create(st, req, now) case Ok(v) => v.0 case Err(_) => st)
    case EditSale(id, req) => (match Sales.Update(st, id, req) case Ok(v) => v.0 case Err(_) => st)
    case DeleteSale(id) => (match Sales.Remove(st, id) case Ok(v) => v.0 case Err(_) => st)
    case AddPart(req) => (match Parts.Create(st, req) case Ok(v) => v.0 case Err(_) => st)
    case EditPart(id, ch) => Parts.Update(st, id, ch).store
    case DeletePart(id) => (match Parts.Remove(st, id) case Ok(v) => v.0 case Err(_) => st)
  }

  /** The store after running the commands in order. */
  function Replay(st: Store, cs: seq<Command>): Store
    decreases |cs|
  {
    if |cs| == 0 then st else Replay(Step(st, cs[0]), cs[1..])
  }

  /**
   * What the stock theorem asks of a request: no negative quantity in any line, and no part
   * named twice in the lines of a create (the create pre-check reads the stock only once).
   */
  predicate WellFormed(c: Command) {
    match c
    case PlaceOrder(req) => Distinct(req.parts) && NonNegativeQty(req.parts)
    case EditOrder(_, req) => NonNegativeQty(req.parts)
    case RecordSale(req, _) => Distinct(req.parts) && NonNegativeQty(req.parts)
    case EditSale(_, req) => NonNegativeQty(req.parts)
    case _ => true
  }

  /** A store with the given vehicles and clients and nothing else. */
  function Initial(vehicles: map<VehicleId, ClientId>, clients: set<ClientId>): (st: Store)
    ensures Sound(st)
  {
    Store(map[], vehicles, clients, map[], map[], [], [], [], 0, 0, 0, 0)
  }

  // ---------------------------------------------------------------------------
  // Shared facts

  /** Rows equal up to stock carry the same barcodes. */
  lemma SameRowsKeepBarcodes(a: Stock, b: Stock)
    requires SameRows(a, b) && BarcodesUnique(a)
    ensures BarcodesUnique(b)
  {
  }

  /** Replacing an invoice by one with the same owners keeps every sale's invoice and every id fresh. */
  lemma ReplaceKeepsValid(st: Store, k: nat, inv: Invoice)
    requires Valid(st) && k < |st.invoices|
    requires inv.order == st.invoices[k].order && inv.sale == st.invoices[k].sale
    ensures Valid(st.(invoices := st.invoices[k := inv]))
  {
    ReplaceKeepsUnique(st.invoices, k, inv);
    forall s | s in st.sales ensures Find(st.invoices[k := inv], OfSale(s)).Some? {
      ReplaceKeepsFind(st.invoices, k, inv, OfSale(s));
    }
  }

  // ---------------------------------------------------------------------------
  // Service orders

  lemma PlaceOrderKeepsSound(st: Store, req: Orders.OrderRequest)
    requires Sound(st) && WellFormed(PlaceOrder(req))
    ensures Sound(Step(st, PlaceOrder(req)))
  {
    if Orders.Create(st, req).Ok? {
      Orders.CreateEffect(st, req);
      Orders.CreateKeepsStockNonNegative(st, req);
      SameRowsKeepBarcodes(st.parts, Step(st, PlaceOrder(req)).parts);
    }
  }

  lemma CancelKeepsSound(st: Store, id: OrderId, req: Orders.OrderRequest)
    requires Sound(st) && id in st.orders && req.vehicle in st.vehicles && req.status == Cancelado
    requires Orders.Update(st, id, req).Ok?
    ensures Sound(Orders.Update(st, id, req).value.0)
  {
    var after := Orders.Update(st, id, req).value.0;
    var lines := st.orders[id].parts;
    ReturnUpToEffect(st.parts, lines);
    SameRowsKeepBarcodes(st.parts, after.parts);
    var invs := st.invoices;
    match Find(invs, OfOrder(id))
    case Some(k) =>
      ReplaceKeepsValid(st, k, Orders.Voided(invs[k], req.date));
    case None =>
  }

  lemma ReviseKeepsSound(st: Store, id: OrderId, req: Orders.OrderRequest)
    requires Sound(st) && id in st.orders && req.vehicle in st.vehicles && req.status != Cancelado
    requires NonNegativeQty(req.parts) && Orders.Update(st, id, req).Ok?
    ensures Sound(Orders.Update(st, id, req).value.0)
  {
    var after := Orders.Update(st, id, req).value.0;
    var prev := st.orders[id].parts;
    ReconcileEffect(st.parts, prev, req.parts);
    ReconcileKeepsNonNegative(st.parts, prev, req.parts);
    SameRowsKeepBarcodes(st.parts, after.parts);
    if req.status == Completado {
      Orders.CompletionBillsOnce(st, id, req);
      match Find(st.invoices, OfOrder(id))
      case Some(k) =>
        var inv := after.invoices[k];
        ReplaceKeepsValid(st, k, inv);
      case None =>
        var inv := after.invoices[|st.invoices|];
        forall s | s in st.sales ensures Find(after.invoices, OfSale(s)).Some? {
          AppendKeepsFind(st.invoices, inv, OfSale(s));
        }
    }
  }

  lemma EditOrderKeepsSound(st: Store, id: OrderId, req: Orders.OrderRequest)
    requires Sound(st) && WellFormed(EditOrder(id, req))
    ensures Sound(Step(st, EditOrder(id, req)))
  {
    if Orders.Update(st, id, req).Ok? {
      if req.status == Cancelado {
        CancelKeepsSound(st, id, req);
      } else {
        ReviseKeepsSound(st, id, req);
      }
    }
  }

  lemma DeleteOrderKeepsSound(st: Store, id: OrderId)
    requires Sound(st)
    ensures Sound(Step(st, DeleteOrder(id)))
  {
    var lines := if id in st.orders then st.orders[id].parts else [];
    ReturnUpToEffect(st.parts, lines);
    SameRowsKeepBarcodes(st.parts, Orders.Remove(st, id).store.parts);
  }

  // ---------------------------------------------------------------------------
  // Direct sales

  /** Appending the invoice of a sale that had none keeps invoices one per owner and every invoiced sale invoiced. */
  lemma AppendSaleInvoice(invs: seq<Invoice>, inv: Invoice, id: SaleId, sales: set<SaleId>)
    requires Unique(invs) && Find(invs, OfSale(id)).None?
    requires inv.sale == Some(id) && inv.order == None
    requires forall s :: s in sales ==> Find(invs, OfSale(s)).Some?
    ensures Unique(invs + [inv])
    ensures forall s :: s in sales + {id} ==> Find(invs + [inv], OfSale(s)).Some?
  {
    AppendKeepsUnique(invs, inv);
    AppendFinds(invs, inv, OfSale(id));
    forall s | s in sales ensures Find(invs + [inv], OfSale(s)).Some? {
      AppendKeepsFind(invs, inv, OfSale(s));
    }
  }

  /** The store with a new sale under the next id, its re-stocked parts and its invoice appended. */
  function WithSale(st: Store, sale: Sale, parts: Stock, inv: Invoice): Store {
    st.(parts := parts, sales := st.sales[st.nextSale := sale], invoices := st.invoices + [inv],
        nextSale := st.nextSale + 1, nextInvoice := st.nextInvoice + 1)
  }

  lemma WithSaleFresh(st: Store, sale: Sale, parts: Stock, inv: Invoice)
    requires CountersFresh(st) && parts.Keys == st.parts.Keys
    requires inv.sale == Some(st.nextSale) && inv.order == None
    ensures CountersFresh(WithSale(st, sale, parts, inv))
  {
  }

  /** Adding a sale under the next id, with non-negative lines and its own new invoice, keeps a sound store sound. */
  lemma AddSaleKeepsSound(st: Store, sale: Sale, parts: Stock, inv: Invoice)
    requires Sound(st) && NonNegativeQty(sale.parts)
    requires SameRows(st.parts, parts) && NonNegative(parts)
    requires inv.sale == Some(st.nextSale) && inv.order == None
    ensures Sound(WithSale(st, sale, parts, inv))
  {
    var id := st.nextSale;
    assert Find(st.invoices, OfSale(id)).None? by {
      assert forall i :: 0 <= i < |st.invoices| ==> !Belongs(st.invoices[i], OfSale(id));
    }
    AppendSaleInvoice(st.invoices, inv, id, st.sales.Keys);
    WithSaleFresh(st, sale, parts, inv);
    SameRowsKeepBarcodes(st.parts, parts);
  }

  lemma RecordSaleKeepsSound(st: Store, req: Sales.SaleRequest, now: Date)
    requires Sound(st) && WellFormed(RecordSale(req, now))
    ensures Sound(Step(st, RecordSale(req, now)))
  {
    if Sales.Create(st, req, now).Ok? {
      var (after, id, inv) := Sales.Create(st, req, now).value;
      var parts := ConsumeAll(st.parts, req.parts).value;
      Sales.CreateKeepsStockNonNegative(st, req, now);
      AddSaleKeepsSound(st, Sales.Recorded(req), parts, inv);
      assert after == WithSale(st, Sales.Recorded(req), parts, inv);
    }
  }

  /** Writing back an existing sale with non-negative lines and re-stocked parts keeps a sound store sound. */
  lemma RewriteSaleKeepsSound(st: Store, id: SaleId, sale: Sale, parts: Stock)
    requires Sound(st) && id in st.sales && NonNegativeQty(sale.parts)
    requires SameRows(st.parts, parts) && NonNegative(parts)
    ensures Sound(st.(parts := parts, sales := st.sales[id := sale]))
  {
    SameRowsKeepBarcodes(st.parts, parts);
  }

  lemma EditSaleKeepsSound(st: Store, id: SaleId, req: Sales.SaleRequest)
    requires Sound(st) && WellFormed(EditSale(id, req))
    ensures Sound(Step(st, EditSale(id, req)))
  {
    if Sales.Update(st, id, req).Ok? {
      var (after, inv) := Sales.Update(st, id, req).value;
      var prev := st.sales[id].parts;
      var parts := Reconcile(st.parts, prev, req.parts).value;
      ReconcileEffect(st.parts, prev, req.parts);
      ReconcileKeepsNonNegative(st.parts, prev, req.parts);
      var k := Find(st.invoices, OfSale(id)).value;
      var mid := st.(invoices := st.invoices[k := inv]);
      ReplaceKeepsValid(st, k, inv);
      var sale := Sales.Amended(st.sales[id], req);
      RewriteSaleKeepsSound(mid, id, sale, parts);
      assert after == mid.(parts := parts, sales := mid.sales[id := sale]);
    }
  }

  /** The store without sale `id` and the invoice at `k`, with re-stocked parts. */
  function WithoutSale(st: Store, id: SaleId, k: nat, parts: Stock): Store
    requires k < |st.invoices|
  {
    st.(parts := parts, invoices := RemoveAt(st.invoices, k), sales := st.sales - {id})
  }

  lemma WithoutSaleFresh(st: Store, id: SaleId, k: nat, parts: Stock)
    requires CountersFresh(st) && k < |st.invoices| && parts.Keys == st.parts.Keys
    ensures CountersFresh(WithoutSale(st, id, k, parts))
  {
  }

  /** Removing the invoice of a sale that goes keeps invoices one per owner and every remaining sale invoiced. */
  lemma RemoveSaleInvoice(invs: seq<Invoice>, id: SaleId, sales: set<SaleId>)
    requires Unique(invs) && Find(invs, OfSale(id)).Some?
    requires forall s :: s in sales ==> Find(invs, OfSale(s)).Some?
    ensures Unique(RemoveAt(invs, Find(invs, OfSale(id)).value))
    ensures forall s :: s in sales - {id} ==> Find(RemoveAt(invs, Find(invs, OfSale(id)).value), OfSale(s)).Some?
  {
    var k := Find(invs, OfSale(id)).value;
    RemoveKeepsUnique(invs, k);
    forall s | s in sales - {id} ensures Find(RemoveAt(invs, k), OfSale(s)).Some? {
      RemoveKeepsFind(invs, k, OfSale(s));
    }
  }

  /** Dropping a sale together with its invoice, with re-stocked parts, keeps a sound store sound. */
  lemma DropSaleKeepsSound(st: Store, id: SaleId, parts: Stock)
    requires Sound(st) && id in st.sales
    requires SameRows(st.parts, parts) && NonNegative(parts)
    ensures Sound(WithoutSale(st, id, Find(st.invoices, OfSale(id)).value, parts))
  {
    var k := Find(st.invoices, OfSale(id)).value;
    RemoveSaleInvoice(st.invoices, id, st.sales.Keys);
    WithoutSaleFresh(st, id, k, parts);
    SameRowsKeepBarcodes(st.parts, parts);
  }

  lemma DeleteSaleKeepsSound(st: Store, id: SaleId)
    requires Sound(st)
    ensures Sound(Step(st, DeleteSale(id)))
  {
    if Sales.Remove(st, id).Ok? {
      var after := Sales.Remove(st, id).value.0;
      Sales.RemoveReturnsStock(st, id);
      ReturnUpToEffect(st.parts, st.sales[id].parts);
      DropSaleKeepsSound(st, id, after.parts);
      var k := Find(st.invoices, OfSale(id)).value;
      assert after == WithoutSale(st, id, k, after.parts);
    }
  }

  // ---------------------------------------------------------------------------
  // Part catalogue

  lemma AddPartKeepsSound(st: Store, req: Parts.PartRequest)
    requires Sound(st)
    ensures Sound(Step(st, AddPart(req)))
  {
  }

  /** Replacing a live part's rows keeps every row's part id below the part counter. */
  lemma RelinkBelow(rows: seq<Link>, id: PartId, owners: seq<nat>, bound: nat)
    requires id < bound && forall i :: 0 <= i < |rows| ==> rows[i].part < bound
    ensures forall i :: 0 <= i < |Relink(rows, id, owners)| ==> Relink(rows, id, owners)[i].part < bound
  {
    WithoutBelow(rows, id, bound);
    var w := Without(rows, id);
    forall i | 0 <= i < |Relink(rows, id, owners)| ensures Relink(rows, id, owners)[i].part < bound {
      if i >= |w| {
        assert Relink(rows, id, owners)[i] == Attach(id, owners)[i - |w|];
      }
    }
  }

  lemma EditPartKeepsSound(st: Store, id: PartId, ch: Parts.PartChange)
    requires Sound(st)
    ensures Sound(Step(st, EditPart(id, ch)))
  {
    var after := Parts.Update(st, id, ch).store;
    if after != st {
      var part := Parts.Edited(st.parts[id], ch);
      assert after.parts == st.parts[id := part];
      assert part.stock >= 0;
      forall p, q | p in after.parts && q in after.parts && p != q
        ensures after.parts[p].barcode != after.parts[q].barcode
      {
        if ch.barcode.Some? && (p == id || q == id) {
          assert !Parts.Clashes(st.parts, ch.barcode.value, Some(id));
        }
      }
      if ch.motos.Some? {
        RelinkBelow(st.motoParts, id, ch.motos.value, st.nextPart);
        if ch.suppliers.Some? {
          RelinkBelow(st.supplierParts, id, ch.suppliers.value, st.nextPart);
        }
      }
    }
  }

  lemma DeletePartKeepsSound(st: Store, id: PartId)
    requires Sound(st)
    ensures Sound(Step(st, DeletePart(id)))
  {
    WithoutBelow(st.motoParts, id, st.nextPart);
    WithoutBelow(st.supplierParts, id, st.nextPart);
  }

  // ---------------------------------------------------------------------------
  // Any sequence of commands

  /** Every command, whether it succeeds or fails, takes a sound store to a sound one. */
  lemma StepKeepsSound(st: Store, c: Command)
    requires Sound(st) && WellFormed(c)
    ensures Sound(Step(st, c))
  {
    match c
    case PlaceOrder(req) => PlaceOrderKeepsSound(st, req);
    case EditOrder(id, req) => EditOrderKeepsSound(st, id, req);
    case DeleteOrder(id) => DeleteOrderKeepsSound(st, id);
    case RecordSale(req, now) => RecordSaleKeepsSound(st, req, now);
    case EditSale(id, req) => EditSaleKeepsSound(st, id, req);
    case DeleteSale(id) => DeleteSaleKeepsSound(st, id);
    case AddPart(req) => AddPartKeepsSound(st, req);
    case EditPart(id, ch) => EditPartKeepsSound(st, id, ch);
    case DeletePart(id) => DeletePartKeepsSound(st, id);
  }

  /**
   * From a sound store, any run of well-formed commands reaches a sound store: no part's stock
   * ever goes negative, and no order or sale ever holds a negative line.
   */
  lemma {:induction false} ReplayKeepsSound(st: Store, cs: seq<Command>)
    requires Sound(st) && forall i :: 0 <= i < |cs| ==> WellFormed(cs[i])
    ensures Sound(Replay(st, cs))
    decreases |cs|
  {
    if |cs| > 0 {
      StepKeepsSound(st, cs[0]);
      assert forall i :: 0 <= i < |cs[1..]| ==> cs[1..][i] == cs[i + 1];
      ReplayKeepsSound(Step(st, cs[0]), cs[1..]);
    }
  }
}
