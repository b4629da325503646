/**
 * The part catalogue (`repuesto`): creating, editing and deleting part rows and their motorcycle
 * and supplier association rows. None of these run in a transaction; a failure after the first
 * write leaves what was written.
 */
module Parts {
  import opened Outcomes
  import opened Domain
  import opened Ledger
  import opened Associations
  import opened Invariants

  /** A create request: every column, plus the motorcycle and supplier ids (empty when not given). */
  datatype PartRequest = PartRequest(
    barcode: string,
    name: string,
    cost: int,
    price: int,
    location: string,
    stock: int,
    brand: nat,
    motos: seq<nat>,
    suppliers: seq<nat>)

  /**
   * An update request. A column left undefined keeps its value. The two id lists are read
   * unconditionally, so an undefined one is a runtime error.
   */
  datatype PartChange = PartChange(
    barcode: Option<string>,
    name: Option<string>,
    cost: Option<int>,
    price: Option<int>,
    location: Option<string>,
    stock: Option<int>,
    brand: Option<nat>,
    motos: Option<seq<nat>>,
    suppliers: Option<seq<nat>>)

  /** Some part other than `except` already carries `code`. */
  predicate Clashes(parts: Stock, code: string, except: Option<PartId>) {
    exists q :: q in parts && Some(q) != except && parts[q].barcode == code
  }

  /** Creates a part with its association rows, unless its barcode is taken or its stock negative. */
  function Create(st: Store, req: PartRequest): (r: Outcome<(Store, PartId)>)
    ensures Clashes(st.parts, req.barcode, None) ==> r == Err(Conflict(DuplicateBarcode))
    ensures !Clashes(st.parts, req.barcode, None) && req.stock < 0 ==> r == Err(Conflict(NegativeStock))
    ensures r.Ok? <==> !Clashes(st.parts, req.barcode, None) && req.stock >= 0
  {
    if Clashes(st.parts, req.barcode, None) then Err(Conflict(DuplicateBarcode))
    else if req.stock < 0 then Err(Conflict(NegativeStock))
    else
      var id := st.nextPart;
      var part := Part(req.barcode, req.name, req.cost, req.price, req.location, req.stock, req.brand);
      Ok((st.(parts := st.parts[id := part],
              motoParts := st.motoParts + Attach(id, req.motos),
              supplierParts := st.supplierParts + Attach(id, req.suppliers),
              nextPart := id + 1), id))
  }

  /** The stock the edit computes before checking it: the current stock plus the requested change. */
  function RequestedStock(have: int, want: int): int {
    have + (want - have)
  }

  /** The part row after an edit: each defined column replaced, the others kept. */
  function Edited(p: Part, ch: PartChange): Part {
    Part(ch.barcode.GetOr(p.barcode), ch.name.GetOr(p.name), ch.cost.GetOr(p.cost), ch.price.GetOr(p.price),
         ch.location.GetOr(p.location), ch.stock.GetOr(p.stock), ch.brand.GetOr(p.brand))
  }

  /**
   * Edits a part: a missing part is NotFound and a negative requested stock a conflict, before
   * anything is written. A barcode taken by another part fails the row write. After the row is
   * written, the motorcycle rows and then the supplier rows are replaced; an undefined list fails
   * there, keeping the writes before it.
   */
  function Update(st: Store, id: PartId, ch: PartChange): (r: Run<Part>)
    ensures id !in st.parts ==> r == Run(st, Err(NotFound))
    ensures r.outcome == Err(Conflict(NegativeStock)) <==> id in st.parts && ch.stock.Some? && ch.stock.value < 0
    ensures r.outcome.Ok? <==>
      && id in st.parts
      && (ch.stock.Some? ==> ch.stock.value >= 0)
      && (ch.barcode.Some? ==> !Clashes(st.parts, ch.barcode.value, Some(id)))
      && ch.motos.Some? && ch.suppliers.Some?
  {
    if id !in st.parts then Run(st, Err(NotFound))
    else if ch.stock.Some? && RequestedStock(st.parts[id].stock, ch.stock.value) < 0 then
      Run(st, Err(Conflict(NegativeStock)))
    else if ch.barcode.Some? && Clashes(st.parts, ch.barcode.value, Some(id)) then Run(st, Err(Internal))
    else
      var part := Edited(st.parts[id], ch);
      var written := st.(parts := st.parts[id := part]);
      match ch.motos
      case None => Run(written, Err(Internal))
      case Some(motos) =>
        var relinked := written.(motoParts := Relink(st.motoParts, id, motos));
        match ch.suppliers
        case None => Run(relinked, Err(Internal))
        case Some(suppliers) => Run(relinked.(supplierParts := Relink(st.supplierParts, id, suppliers)), Ok(part))
  }

  /** Deletes a part's association rows, then the part. */
  function Remove(st: Store, id: PartId): (r: Outcome<(Store, Part)>)
    ensures r.Ok? <==> id in st.parts
    ensures r.Err? ==> r.error == NotFound
  {
    if id !in st.parts then Err(NotFound)
    else
      Ok((st.(motoParts := Without(st.motoParts, id), supplierParts := Without(st.supplierParts, id),
              parts := st.parts - {id}), st.parts[id]))
  }

  // ---------------------------------------------------------------------------
  // Create

  /**
   * A created part sits under a fresh id with the requested columns and stock, associated with
   * exactly the given motorcycles and suppliers; every other part, its associations, the orders,
   * sales and invoices are as they were, and barcodes stay unique.
   */
  lemma CreateEffect(st: Store, req: PartRequest)
    requires Valid(st) && Create(st, req).Ok?
    ensures var (after, id) := Create(st, req).value;
      && id !in st.parts
      && after.parts == st.parts[id := Part(req.barcode, req.name, req.cost, req.price, req.location, req.stock, req.brand)]
      && Linked(after.motoParts, id) == req.motos
      && Linked(after.supplierParts, id) == req.suppliers
      && (forall q :: q != id ==> Linked(after.motoParts, q) == Linked(st.motoParts, q))
      && (forall q :: q != id ==> Linked(after.supplierParts, q) == Linked(st.supplierParts, q))
      && after.orders == st.orders && after.sales == st.sales && after.invoices == st.invoices
      && BarcodesUnique(after.parts)
      && (NonNegative(st.parts) ==> NonNegative(after.parts))
  {
    var (after, id) := Create(st, req).value;
    assert Unlinked(st.motoParts, id) && Unlinked(st.supplierParts, id);
    UnlinkedUntouched(st.motoParts, id);
    UnlinkedUntouched(st.supplierParts, id);
    forall q
      ensures Linked(after.motoParts, q) == Linked(st.motoParts, q) + (if q == id then req.motos else [])
      ensures Linked(after.supplierParts, q) == Linked(st.supplierParts, q) + (if q == id then req.suppliers else [])
    {
      LinkedConcat(st.motoParts, Attach(id, req.motos), q);
      LinkedConcat(st.supplierParts, Attach(id, req.suppliers), q);
      LinkedAttach(id, req.motos, q);
      LinkedAttach(id, req.suppliers, q);
    }
  }

  // ---------------------------------------------------------------------------
  // Update

  /**
   * A successful edit stores the edited row (the stock is the requested one when given), gives
   * the part exactly the given motorcycles and suppliers, and changes nothing else; barcodes stay
   * unique and, with every stock non-negative before, after as well.
   */
  lemma UpdateEffect(st: Store, id: PartId, ch: PartChange)
    requires Update(st, id, ch).outcome.Ok?
    ensures var after := Update(st, id, ch).store;
      && after.parts == st.parts[id := Edited(st.parts[id], ch)]
      && Update(st, id, ch).outcome.value == after.parts[id]
      && after.parts[id].stock == ch.stock.GetOr(st.parts[id].stock)
      && (forall q :: Linked(after.motoParts, q) == if q == id then ch.motos.value else Linked(st.motoParts, q))
      && (forall q :: Linked(after.supplierParts, q) == if q == id then ch.suppliers.value else Linked(st.supplierParts, q))
      && after.orders == st.orders && after.sales == st.sales && after.invoices == st.invoices
      && (BarcodesUnique(st.parts) ==> BarcodesUnique(after.parts))
      && (NonNegative(st.parts) ==> NonNegative(after.parts))
  {
    forall q
      ensures Linked(Relink(st.motoParts, id, ch.motos.value), q) == if q == id then ch.motos.value else Linked(st.motoParts, q)
      ensures Linked(Relink(st.supplierParts, id, ch.suppliers.value), q) == if q == id then ch.suppliers.value else Linked(st.supplierParts, q)
    {
      RelinkLinked(st.motoParts, id, ch.motos.value, q);
      RelinkLinked(st.supplierParts, id, ch.suppliers.value, q);
    }
  }

  /**
   * An edit that passes the checks but leaves the motorcycle list undefined fails after writing
   * the row: the edited row stays and no association changes. With the motorcycle list defined
   * and the supplier list not, the motorcycle rows are replaced as well.
   */
  lemma UpdateWithoutListsKeepsRow(st: Store, id: PartId, ch: PartChange)
    requires id in st.parts && (ch.stock.Some? ==> ch.stock.value >= 0)
    requires ch.barcode.Some? ==> !Clashes(st.parts, ch.barcode.value, Some(id))
    requires ch.motos.None? || ch.suppliers.None?
    ensures Update(st, id, ch).outcome == Err(Internal)
    ensures Update(st, id, ch).store.parts == st.parts[id := Edited(st.parts[id], ch)]
    ensures Update(st, id, ch).store.supplierParts == st.supplierParts
    ensures ch.motos.None? ==> Update(st, id, ch).store.motoParts == st.motoParts
    ensures ch.motos.Some? ==>
      forall q :: Linked(Update(st, id, ch).store.motoParts, q) == if q == id then ch.motos.value else Linked(st.motoParts, q)
  {
    if ch.motos.Some? {
      forall q
        ensures Linked(Relink(st.motoParts, id, ch.motos.value), q) == if q == id then ch.motos.value else Linked(st.motoParts, q)
      {
        RelinkLinked(st.motoParts, id, ch.motos.value, q);
      }
    }
  }

  /** Re-sending a successful edit to the store it produced succeeds again and changes nothing. */
  lemma UpdateIdempotent(st: Store, id: PartId, ch: PartChange)
    requires Update(st, id, ch).outcome.Ok?
    ensures Update(Update(st, id, ch).store, id, ch) == Update(st, id, ch)
  {
    var after := Update(st, id, ch).store;
    RelinkIdempotent(st.motoParts, id, ch.motos.value);
    RelinkIdempotent(st.supplierParts, id, ch.suppliers.value);
    if ch.barcode.Some? {
      assert !Clashes(after.parts, ch.barcode.value, Some(id));
    }
    assert Edited(Edited(st.parts[id], ch), ch) == Edited(st.parts[id], ch);
    assert after.parts[id := Edited(after.parts[id], ch)] == after.parts;
  }

  // ---------------------------------------------------------------------------
  // Remove

  /**
   * A deletion drops the part and every association row of it, keeps every other part's
   * associations, and leaves the orders, sales and invoices alone.
   */
  lemma RemoveEffect(st: Store, id: PartId)
    requires Remove(st, id).Ok?
    ensures var after := Remove(st, id).value.0;
      && after.parts == st.parts - {id}
      && Unlinked(after.motoParts, id) && Unlinked(after.supplierParts, id)
      && (forall q :: q != id ==> Linked(after.motoParts, q) == Linked(st.motoParts, q))
      && (forall q :: q != id ==> Linked(after.supplierParts, q) == Linked(st.supplierParts, q))
      && after.orders == st.orders && after.sales == st.sales && after.invoices == st.invoices
  {
    LinkedWithout(st.motoParts, id, id);
    LinkedWithout(st.supplierParts, id, id);
    forall q
      ensures Linked(Without(st.motoParts, id), q) == if q == id then [] else Linked(st.motoParts, q)
      ensures Linked(Without(st.supplierParts, id), q) == if q == id then [] else Linked(st.supplierParts, q)
    {
      LinkedWithout(st.motoParts, id, q);
      LinkedWithout(st.supplierParts, id, q);
    }
  }

  /** In a valid store, deleting a part right after creating it restores the parts and both association tables. */
  lemma RemoveUndoesCreate(st: Store, req: PartRequest)
    requires Valid(st) && Create(st, req).Ok?
    ensures var (created, id) := Create(st, req).value;
      && Remove(created, id).Ok?
      && Remove(created, id).value.0.parts == st.parts
      && Remove(created, id).value.0.motoParts == st.motoParts
      && Remove(created, id).value.0.supplierParts == st.supplierParts
  {
    var (created, id) := Create(st, req).value;
    WithoutUndoesAttach(st.motoParts, id, req.motos);
    WithoutUndoesAttach(st.supplierParts, id, req.suppliers);
    assert created.parts - {id} == st.parts;
  }
}
