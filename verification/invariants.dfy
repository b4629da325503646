/** What every reachable store satisfies, and what the stock-safety theorem adds to it. */
module Invariants {
  import opened Outcomes
  import opened Domain
  import opened Lines
  import opened Ledger
  import opened Invoices

  /** Every id in use, including those a dangling invoice or association row still mentions, is below its counter. */
  predicate CountersFresh(st: Store) {
    && (forall p :: p in st.parts ==> p < st.nextPart)
    && (forall o :: o in st.orders ==> o < st.nextOrder)
    && (forall s :: s in st.sales ==> s < st.nextSale)
    && (forall i :: 0 <= i < |st.invoices| ==>
          && (st.invoices[i].order.Some? ==> st.invoices[i].order.value < st.nextOrder)
          && (st.invoices[i].sale.Some? ==> st.invoices[i].sale.value < st.nextSale))
    && (forall i :: 0 <= i < |st.motoParts| ==> st.motoParts[i].part < st.nextPart)
    && (forall i :: 0 <= i < |st.supplierParts| ==> st.supplierParts[i].part < st.nextPart)
  }

  /** Every direct sale has its invoice. */
  predicate SalesInvoiced(st: Store) {
    forall s :: s in st.sales ==> Find(st.invoices, OfSale(s)).Some?
  }

  /** No two parts share a barcode. */
  predicate BarcodesUnique(parts: Stock) {
    forall p, q :: p in parts && q in parts && p != q ==> parts[p].barcode != parts[q].barcode
  }

  /** The schema's constraints and the id counters' freshness. */
  predicate Valid(st: Store) {
    && Unique(st.invoices)
    && CountersFresh(st)
    && SalesInvoiced(st)
    && BarcodesUnique(st.parts)
  }

  /** No stored part line holds a negative quantity. */
  predicate LinesNonNegative(st: Store) {
    && (forall o :: o in st.orders ==> NonNegativeQty(st.orders[o].parts))
    && (forall s :: s in st.sales ==> NonNegativeQty(st.sales[s].parts))
  }

  /** A valid store in which no stock is negative and no stored line could make one so when returned. */
  predicate Sound(st: Store) {
    && Valid(st)
    && NonNegative(st.parts)
    && LinesNonNegative(st)
  }
}
