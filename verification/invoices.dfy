/** Invoices and the one-invoice-per-owner rule the schema's unique foreign keys enforce. */
module Invoices {
  import opened Outcomes
  import opened Domain

  /** Whom an invoice is for: a service order or a direct sale. */
  datatype Owner = OfOrder(order: OrderId) | OfSale(sale: SaleId)

  predicate Belongs(inv: Invoice, w: Owner) {
    match w
    case OfOrder(o) => inv.order == Some(o)
    case OfSale(s) => inv.sale == Some(s)
  }

  /** Looks for an invoice of `w` at position `k` or later; the first one found. */
  function FindFrom(invs: seq<Invoice>, w: Owner, k: nat): (r: Option<nat>)
    requires k <= |invs|
    ensures r.Some? ==> k <= r.value < |invs| && Belongs(invs[r.value], w)
    ensures r.Some? ==> forall i :: k <= i < r.value ==> !Belongs(invs[i], w)
    ensures r.None? <==> forall i :: k <= i < |invs| ==> !Belongs(invs[i], w)
    decreases |invs| - k
  {
    if k == |invs| then None
    else if Belongs(invs[k], w) then Some(k)
    else FindFrom(invs, w, k + 1)
  }

  /** `factura.findUnique` on the owner's foreign key: the position of the invoice of `w`, if any. */
  function Find(invs: seq<Invoice>, w: Owner): Option<nat> {
    FindFrom(invs, w, 0)
  }

  /** The owner foreign keys are unique: no two invoices share an order or a sale. */
  predicate Unique(invs: seq<Invoice>) {
    forall i, j :: 0 <= i < j < |invs| ==>
      && (invs[i].order.Some? ==> invs[i].order != invs[j].order)
      && (invs[i].sale.Some? ==> invs[i].sale != invs[j].sale)
  }

  /** There is an invoice of `w`, and it is the only one. */
  predicate ExactlyOne(invs: seq<Invoice>, w: Owner) {
    && Find(invs, w).Some?
    && forall i :: 0 <= i < |invs| && Belongs(invs[i], w) ==> i == Find(invs, w).value
  }

  /** The sequence without the invoice at position `k`: a `factura.delete`. */
  function RemoveAt(invs: seq<Invoice>, k: nat): seq<Invoice>
    requires k < |invs|
  {
    invs[..k] + invs[k + 1..]
  }

  /** The invoices that do not belong to `w`, in their order. */
  function Others(invs: seq<Invoice>, w: Owner): seq<Invoice>
    decreases |invs|
  {
    if |invs| == 0 then []
    else (if Belongs(invs[0], w) then [] else [invs[0]]) + Others(invs[1..], w)
  }

  /** When no invoice belongs to `w`, none is left out. */
  lemma {:induction false} OthersOfNone(invs: seq<Invoice>, w: Owner)
    requires forall i :: 0 <= i < |invs| ==> !Belongs(invs[i], w)
    ensures Others(invs, w) == invs
    decreases |invs|
  {
    if |invs| > 0 {
      assert !Belongs(invs[0], w);
      OthersOfNone(invs[1..], w);
    }
  }

  /**
   * Deleting the one invoice of `w` keeps exactly the invoices of every other owner, in their
   * order.
   */
  lemma {:induction false} RemoveAtIsOthers(invs: seq<Invoice>, w: Owner, k: nat)
    requires k < |invs| && Belongs(invs[k], w)
    requires forall i :: 0 <= i < |invs| && i != k ==> !Belongs(invs[i], w)
    ensures RemoveAt(invs, k) == Others(invs, w)
    decreases |invs|
  {
    if k == 0 {
      assert RemoveAt(invs, k) == invs[1..];
      OthersOfNone(invs[1..], w);
    } else {
      assert !Belongs(invs[0], w);
      RemoveAtIsOthers(invs[1..], w, k - 1);
      assert RemoveAt(invs, k) == [invs[0]] + RemoveAt(invs[1..], k - 1);
    }
  }

  /** The first invoice of `w` is the one at `k` when none comes before it. */
  lemma FindIs(invs: seq<Invoice>, w: Owner, k: nat)
    requires k < |invs| && Belongs(invs[k], w)
    requires forall i :: 0 <= i < k ==> !Belongs(invs[i], w)
    ensures Find(invs, w) == Some(k)
  {
  }

  /** Under unique foreign keys, whatever invoice of `w` there is, is the one found. */
  lemma UniqueFound(invs: seq<Invoice>, w: Owner)
    requires Unique(invs)
    ensures Find(invs, w).Some? ==> ExactlyOne(invs, w)
  {
  }

  /** Rewriting an invoice without touching its owners leaves every lookup as it was. */
  lemma ReplaceKeepsFind(invs: seq<Invoice>, k: nat, inv: Invoice, w: Owner)
    requires k < |invs| && inv.order == invs[k].order && inv.sale == invs[k].sale
    ensures Find(invs[k := inv], w) == Find(invs, w)
  {
    assert forall i :: 0 <= i < |invs| ==> (Belongs(invs[k := inv][i], w) <==> Belongs(invs[i], w));
    if Find(invs, w).Some? {
      FindIs(invs[k := inv], w, Find(invs, w).value);
    }
  }

  lemma ReplaceKeepsUnique(invs: seq<Invoice>, k: nat, inv: Invoice)
    requires Unique(invs) && k < |invs| && inv.order == invs[k].order && inv.sale == invs[k].sale
    ensures Unique(invs[k := inv])
  {
  }

  /** Appending leaves an owner that already had an invoice with the same one. */
  lemma AppendKeepsFind(invs: seq<Invoice>, inv: Invoice, w: Owner)
    requires Find(invs, w).Some?
    ensures Find(invs + [inv], w) == Find(invs, w)
  {
    FindIs(invs + [inv], w, Find(invs, w).value);
  }

  /** An owner with no invoice finds the appended one when it is its owner, and still none otherwise. */
  lemma AppendFinds(invs: seq<Invoice>, inv: Invoice, w: Owner)
    requires Find(invs, w).None?
    ensures Find(invs + [inv], w) == if Belongs(inv, w) then Some(|invs|) else None
  {
    if Belongs(inv, w) {
      FindIs(invs + [inv], w, |invs|);
    } else {
      assert forall i :: 0 <= i < |invs + [inv]| ==> !Belongs((invs + [inv])[i], w);
    }
  }

  lemma AppendKeepsUnique(invs: seq<Invoice>, inv: Invoice)
    requires Unique(invs)
    requires inv.order.Some? ==> Find(invs, OfOrder(inv.order.value)).None?
    requires inv.sale.Some? ==> Find(invs, OfSale(inv.sale.value)).None?
    ensures Unique(invs + [inv])
  {
  }

  /** Deleting the invoice at `k` leaves every other owner's invoice findable. */
  lemma RemoveKeepsFind(invs: seq<Invoice>, k: nat, w: Owner)
    requires Unique(invs) && k < |invs| && Find(invs, w).Some? && Find(invs, w).value != k
    ensures Find(RemoveAt(invs, k), w).Some?
  {
    var f := Find(invs, w).value;
    var rest := RemoveAt(invs, k);
    if f < k {
      assert rest[f] == invs[f];
    } else {
      assert rest[f - 1] == invs[f];
    }
  }

  lemma RemoveKeepsUnique(invs: seq<Invoice>, k: nat)
    requires Unique(invs) && k < |invs|
    ensures Unique(RemoveAt(invs, k))
  {
  }
}
