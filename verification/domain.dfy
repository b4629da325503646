/** The entities of the workshop back office that the order and sale lifecycle reads and writes. */
module Domain {
  import opened Outcomes

  type PartId = nat
  type OrderId = nat
  type SaleId = nat
  type InvoiceId = nat
  type VehicleId = nat
  type ClientId = nat
  type ServiceId = nat

  /** A point in time. Dates are only copied from requests into rows, never compared. */
  type Date = int

  /** The `estado` of a service order. */
  datatype Status = Pendiente | Completado | Cancelado

  /** A part (`repuesto`). Money columns are copied, never computed with. */
  datatype Part = Part(
    barcode: string,
    name: string,
    cost: int,
    price: int,
    location: string,
    stock: int,
    brand: nat)

  /** One part line of an order or sale: the part, how many units, and the unit price agreed. */
  datatype PartLine = PartLine(part: PartId, qty: int, price: int)

  /** One service line of an order. */
  datatype ServiceLine = ServiceLine(service: ServiceId, price: int)

  datatype Amounts = Amounts(subtotal: int, discount: int, iva: int, total: int)

  const NoAmounts := Amounts(0, 0, 0, 0)

  /** Cash, card and transfer: the advance payments of an order or the payments of an invoice. */
  datatype Payments = Payments(cash: int, card: int, transfer: int)

  const NoPayments := Payments(0, 0, 0)

  /** Payments of a direct sale, each of which a request may leave undefined. */
  datatype MaybePayments = MaybePayments(cash: Option<int>, card: Option<int>, transfer: Option<int>) {

    /** Every undefined (or zero) channel read as 0, as `pago_x || 0` does. */
    function OrZero(): Payments {
      Payments(cash.GetOr(0), card.GetOr(0), transfer.GetOr(0))
    }

    /** The channels given here, the stored ones where this leaves them undefined. */
    function Over(stored: MaybePayments): MaybePayments {
      MaybePayments(cash.OrElse(stored.cash), card.OrElse(stored.card), transfer.OrElse(stored.transfer))
    }
  }

  /** Customer, mechanic and invoice notes of an order; a nullable column each. */
  datatype Notes = Notes(customer: Option<string>, mechanic: Option<string>, invoice: Option<string>)

  /** A service order (`orden_servicio`) together with the part and service lines it owns. */
  datatype Order = Order(
    date: Date,
    status: Status,
    amounts: Amounts,
    advances: Payments,
    keepHelmets: bool,
    keepPapers: bool,
    notes: Notes,
    mechanic: string,
    seller: string,
    vehicle: VehicleId,
    parts: seq<PartLine>,
    services: seq<ServiceLine>)

  /** A direct sale (`venta_directa`) together with the part lines it owns. */
  datatype Sale = Sale(
    date: Date,
    subtotal: int,
    discount: Option<int>,
    iva: int,
    total: int,
    client: ClientId,
    payments: MaybePayments,
    seller: string,
    parts: seq<PartLine>)

  /** An invoice (`factura`); it belongs to at most one order and at most one sale. */
  datatype Invoice = Invoice(
    id: InvoiceId,
    date: Date,
    payments: Payments,
    amounts: Amounts,
    client: ClientId,
    order: Option<OrderId>,
    sale: Option<SaleId>,
    seller: string)

  /** A row of an association table between a part and a market vehicle or a supplier. */
  datatype Link = Link(owner: nat, part: PartId)

  /**
   * The persisted state. Vehicles (`moto_cliente`) are known only by the client who owns them,
   * clients only by their ids. The counters hand out the next autoincrement id of each table.
   */
  datatype Store = Store(
    parts: map<PartId, Part>,
    vehicles: map<VehicleId, ClientId>,
    clients: set<ClientId>,
    orders: map<OrderId, Order>,
    sales: map<SaleId, Sale>,
    invoices: seq<Invoice>,
    motoParts: seq<Link>,
    supplierParts: seq<Link>,
    nextPart: nat,
    nextOrder: nat,
    nextSale: nat,
    nextInvoice: nat)

  /** Why a request was refused as a business-rule conflict. */
  datatype ConflictKind =
    | VehicleMissing
    | ClientMissing
    | OrderMissing
    | SaleMissing
    | NotPending
    | PartMissing(part: PartId)
    | ShortStock(part: PartId, have: int, want: int)
    | DuplicateBarcode
    | NegativeStock

  /** The three error classes the services raise: 409, 404 and 500. */
  datatype Error = Conflict(kind: ConflictKind) | NotFound | Internal

  type Outcome<T> = Result<T, Error>

  /**
   * The result of an operation that is not one transaction: the store after whatever
   * writes were done, and how the call ended.
   */
  datatype Run<T> = Run(store: Store, outcome: Outcome<T>)
}
