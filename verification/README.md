# Stock-aware orders and sales of a motorcycle workshop, in Dafny

This project models the core of a workshop back end: service orders (`orden_servicio`), direct sales (`venta_directa`) and the part catalogue (`repuesto`). Each part carries a `stock` counter. It is raised and lowered as order and sale lines are created, edited, cancelled and deleted. Invoices (`factura`) are projected from completed orders and from every sale.

The database is one immutable `Store` value:
- parts, orders and sales are maps from id to row;
- invoices are a sequence, looked up by their order or sale foreign key;
- the part–motorcycle and part–supplier association tables are sequences of rows;
- counters stand in for autoincrement ids.

Every service operation is a pure function of the store and the request:
- An operation whose every modelled failure leaves the store untouched returns an `Outcome`: `Ok` with the new store, or `Err`. That holds for the transactions (order edit, sale create, edit and delete). It also holds for order creation, part creation and part deletion: these are plain sequences of writes, but every failure the model covers happens before their first write.
- An operation that can fail after some of its writes (order deletion, part edit) returns a `Run`. This pairs the outcome with the store as far as the writes got.

Errors are `Conflict` (HTTP 409, with the reason), `NotFound` (404) or `Internal`. `Internal` is the 500 the order and sale services raise for any database error they do not recognise. The part service passes its persistence errors through unwrapped; such an error is also modelled as `Internal`.

Files:
- `outcomes.dfy`: `Option` and `Result`.
- `domain.dfy`: the rows, the store and the errors.
- `lines.dfy`: sums and keys over part lines.
- `ledger.dfy`: stock increments and decrements, and the create pre-check.
- `reconcile.dfy`: the two-loop stock reconciliation of order and sale edits.
- `invoices.dfy`: invoice lookup and the one-invoice-per-owner constraint.
- `invariants.dfy`: what a reachable store satisfies.
- `orders.dfy`, `sales.dfy`, `parts.dfy` and `associations.dfy`: the services.
- `lifecycle.dfy`: any sequence of requests, and the theorem that stock never goes negative along it.

## Model

| member | source | states |
|---|---|---|
| Ledger.Shortfall | src/orden-servicio/orden-servicio.service.ts:80-92 | The create pre-check passes exactly when every line's part exists and holds at least the line's quantity, read before any write. Otherwise it raises a missing-part or short-stock conflict naming the part of the first line that fails the check. |
| Ledger.ConsumeAll | src/orden-servicio/orden-servicio.service.ts:133-138 | The per-line decrements succeed exactly when every line's part exists. Only stock changes, and each part drops by the total units of all its lines. |
| Ledger.ReturnUpToEffect | src/orden-servicio/orden-servicio.service.ts:388-393 | The plain sequence of increments fails, with a persistence error, exactly when some line's part is missing. Succeed or fail, only stock changes, and non-negative lines never lower a stock. On success every part gains the total units of its lines. |
| Ledger.ReturnAllEffect | src/orden-servicio/orden-servicio.service.ts:186-192 | Inside a transaction, all lines go back to stock or none do. It fails, with a persistence error, exactly when some line's part is missing. |
| Ledger.ConsumeCoveredKeepsNonNegative | src/venta-directa/venta-directa.service.ts:74-124 | From non-negative stock, when no two lines name the same part, passing the pre-check is enough: no stock goes negative after the decrements. |
| Lines.KeyedLastWins | src/orden-servicio/orden-servicio.service.ts:224-226 | Keying the request by part keeps, for each part, the last line that names it. |
| Reconciliation.SettleOldEffect | src/orden-servicio/orden-servicio.service.ts:228-255 | The first loop changes only stock, moving each part by its previous quantity minus the wanted one over all its previous lines. |
| Reconciliation.ClaimAddedEffect | src/orden-servicio/orden-servicio.service.ts:257-275 | The second loop changes only stock, and takes every requested unit of a part that no previous line mentions. |
| Reconciliation.ReconcileEffect | src/orden-servicio/orden-servicio.service.ts:221-275 | As written, duplicate lines included: a part named by previous lines moves by the first loop's delta; any other part loses every unit requested for it. |
| Reconciliation.ReconcileDelta | src/venta-directa/venta-directa.service.ts:184-233 | With distinct part ids on both sides, each part ends at its old stock plus the previous quantity minus the requested quantity. |
| Reconciliation.SettleOldNonNegative | src/orden-servicio/orden-servicio.service.ts:242-254 | When no stored line has a negative quantity, the first loop keeps stocks non-negative: each increase is checked against the current stock before it is decremented, and every other step only adds. |
| Reconciliation.ClaimAddedNonNegative | src/orden-servicio/orden-servicio.service.ts:264-273 | Each added line is checked against the re-read stock before it is decremented, so the second loop keeps stocks non-negative, duplicates included. |
| Reconciliation.ReconcileKeepsNonNegative | src/venta-directa/venta-directa.service.ts:199-231 | A successful reconciliation keeps every stock non-negative, assuming only that the stored lines are non-negative. |
| Reconciliation.ReconcileIdentical | src/orden-servicio/orden-servicio.service.ts:228-275 | Resubmitting the stored lines (distinct part ids) succeeds and writes no stock. |
| Reconciliation.ResubmittedDuplicatesMoveStock | src/orden-servicio/orden-servicio.service.ts:224-254 | Resubmitting stored lines that repeat a part is not a no-op: lines of 2 and 3 units take a stock of 10 to 9. |
| Reconciliation.ResubmittedDuplicatesCanFail | src/orden-servicio/orden-servicio.service.ts:224-249 | Resubmitting the same stored lines of 2 and 3 units against a stock of 0 fails with a short-stock conflict for 1 unit, though nothing would change. |
| Reconciliation.StoredOrderMatters | src/orden-servicio/orden-servicio.service.ts:221-254 | With stored lines of 5 and then 1 unit of one part, re-saving a request for 3 units from a stock of 0 succeeds and leaves the parts as they were. With the stored lines the other way round, it fails with a short-stock conflict for 2 units. |
| Reconciliation.SettleOldSucceedsIff | src/orden-servicio/orden-servicio.service.ts:242-249 | With distinct previous lines, the first loop fails exactly when a changed or removed line's part is missing (a persistence error) or an increase exceeds the stock the edit began with. |
| Reconciliation.ClaimAddedSucceedsIff | src/orden-servicio/orden-servicio.service.ts:259-269 | With distinct requested lines, the second loop fails exactly when an added part is missing or holds less than its line. |
| Reconciliation.ReconcileSucceedsIff | src/venta-directa/venta-directa.service.ts:199-231 | With distinct part ids on both sides, the reconciliation succeeds exactly when every step's check passes against the stock the edit began with. |
| Reconciliation.ReconcileFailsByConflict | src/orden-servicio/orden-servicio.service.ts:242-273 | While every previously attached part exists, the reconciliation fails only with a conflict. |
| Invoices.FindFrom | src/orden-servicio/orden-servicio.service.ts:168-170 | Invoice lookup by owner returns the first invoice of that order or sale, and none exactly when no invoice belongs to it. |
| Orders.Create | src/orden-servicio/orden-servicio.service.ts:68-148 | Checked in order: a missing vehicle, then a status other than `PENDIENTE`, then a missing or short part, each a conflict. Creation succeeds exactly when all three pass. |
| Orders.Update | src/orden-servicio/orden-servicio.service.ts:149-165 | A missing order, then a missing vehicle, each a conflict, before anything else is looked at. |
| Orders.CreateEffect | src/orden-servicio/orden-servicio.service.ts:93-139 | The new order sits under a fresh id, is pending and holds exactly the requested lines. Each part drops by its requested units. Invoices and sales are untouched. |
| Orders.CreateKeepsStockNonNegative | src/orden-servicio/orden-servicio.service.ts:80-138 | From non-negative stock, with distinct part ids in the request, no stock goes negative. |
| Orders.CreateWithRepeatedPartOverdraws | src/orden-servicio/orden-servicio.service.ts:81-138 | Two lines of 2 units against a stock of 3 both pass the pre-check and leave the stock at -1. |
| Orders.CancelEffect | src/orden-servicio/orden-servicio.service.ts:167-218 | Cancelling fails exactly when a part under a line is missing, with a persistence error. Otherwise: every line's units return to stock; lines and services go; money is zeroed; each note left undefined or empty becomes "Orden cancelada"; date and vehicle stay; an existing invoice is zeroed in place and none is created. |
| Orders.CancelReturnsReserved | src/orden-servicio/orden-servicio.service.ts:186-192 | Cancelling an order right after creating it restores every part row. |
| Orders.ReviseEffect | src/orden-servicio/orden-servicio.service.ts:221-329 | A revision stores exactly the requested lines, services, status and vehicle, and leaves other orders and all sales alone. Only stock changes among the parts, by old minus new units when ids are distinct. |
| Orders.ReviseSucceedsIff | src/orden-servicio/orden-servicio.service.ts:242-273 | With distinct ids, a revision succeeds exactly when the reconciliation is feasible. While attached parts exist, its failures are conflicts. |
| Orders.ReviseIdenticalLines | src/orden-servicio/orden-servicio.service.ts:228-275 | Re-saving an order with its own lines, when they have distinct part ids, succeeds and leaves every part row as it was. |
| Orders.CompletionBillsOnce | src/orden-servicio/orden-servicio.service.ts:330-368 | After completion the order has exactly one invoice, carrying the advances as payments, the amounts and the seller. It is the existing invoice rewritten in place, or else a new one for the vehicle's client. |
| Orders.PendingLeavesInvoices | src/orden-servicio/orden-servicio.service.ts:330-332 | A revision that does not complete the order touches no invoice. |
| Orders.RemoveEffect | src/orden-servicio/orden-servicio.service.ts:382-410 | Deletion succeeds exactly when the order and every part under its lines exist; then its units are back and the order is gone. On failure the orders are unchanged, though stock may already have been raised. Invoices and sales never change. |
| Orders.RemoveUndoesCreate | src/orden-servicio/orden-servicio.service.ts:382-405 | Deleting an order right after creating it restores the part rows and the orders. |
| Sales.Create | src/venta-directa/venta-directa.service.ts:62-153 | A missing client, then a missing or short part, each a conflict with nothing written. Creation succeeds exactly when both checks pass. |
| Sales.Update | src/venta-directa/venta-directa.service.ts:155-174 | A missing sale, then a missing client, each a conflict. |
| Sales.CreateEffect | src/venta-directa/venta-directa.service.ts:91-142 | The new sale holds exactly the requested lines, and each part drops by its units. Exactly one invoice is created for the sale: dated with the clock reading, for the same client, with undefined payments and discount as 0. |
| Sales.CreateKeepsStockNonNegative | src/venta-directa/venta-directa.service.ts:74-124 | From non-negative stock, with distinct part ids in the request, no stock goes negative. |
| Sales.UpdateEffect | src/venta-directa/venta-directa.service.ts:176-284 | The sale holds exactly the requested lines, and only stock moves (old minus new units for distinct ids). The one invoice is rewritten in place with the request's date, amounts, seller and payments (undefined as 0). An undefined discount keeps the invoice's own. |
| Sales.UpdateSucceedsIff | src/venta-directa/venta-directa.service.ts:199-231 | With distinct ids in a valid store, an edit succeeds exactly when the reconciliation is feasible. While attached parts exist, its failures are conflicts. |
| Sales.UpdateIdenticalLines | src/venta-directa/venta-directa.service.ts:184-233 | Re-saving a sale with its own lines, when they have distinct part ids, succeeds and leaves every part row as it was. |
| Sales.RemoveSucceedsIff | src/venta-directa/venta-directa.service.ts:297-333 | Deletion succeeds exactly when the sale and every part under its lines exist. Any failure is a persistence error with everything rolled back. |
| Sales.RemoveReturnsStock | src/venta-directa/venta-directa.service.ts:300-315 | After deletion, the sale's units are back in stock and the sale is gone. |
| Sales.RemoveDropsInvoice | src/venta-directa/venta-directa.service.ts:317-325 | After deletion, the invoice count drops by one, the sale has no invoice, the owner keys stay unique, and every remaining sale is still invoiced. |
| Sales.RemoveKeepsOtherInvoices | src/venta-directa/venta-directa.service.ts:317-325 | Deletion drops the sale's invoice and nothing else: the invoices left are exactly those of other owners, in their order, each unchanged. |
| Invoices.RemoveAtIsOthers | src/venta-directa/venta-directa.service.ts:317-320 | Deleting the one invoice of an owner by its position leaves exactly the invoices of every other owner, in their order. |
| Sales.RemoveUndoesCreate | src/venta-directa/venta-directa.service.ts:297-327 | Deleting a sale right after creating it restores parts, sales and invoices. |
| Associations.LinkedAttach | src/repuesto/repuesto.service.ts:108-125 | The rows a `createMany` adds give the part exactly the listed owners, in order, and no other part any. |
| Associations.LinkedWithout | src/repuesto/repuesto.service.ts:224-231 | After a `deleteMany` on a part, it has no rows left, and every other part keeps its owners in order. |
| Associations.RelinkLinked | src/repuesto/repuesto.service.ts:166-209 | Replacing a part's rows gives it exactly the listed owners (none for an empty list) and leaves every other part's owners as they were. |
| Associations.RelinkIdempotent | src/repuesto/repuesto.service.ts:174-186 | Replacing a part's rows twice with the same list is the same as doing it once. |
| Associations.WithoutUndoesAttach | src/repuesto/repuesto.service.ts:224-231 | Deleting the rows just added for a part that had none restores the table. |
| Parts.Create | src/repuesto/repuesto.service.ts:77-128 | A taken barcode is a conflict, then a negative stock is. Creation succeeds exactly when neither holds. |
| Parts.Update | src/repuesto/repuesto.service.ts:130-212 | A missing part is NotFound with nothing written. The negative-stock conflict happens exactly when a stock is given and it is negative: the computed stock equals the requested one. Success requires an existing part, a non-negative stock when given, no barcode clash, and both id lists defined. |
| Parts.Remove | src/repuesto/repuesto.service.ts:213-237 | Deletion succeeds exactly when the part exists, and fails only with NotFound. |
| Parts.CreateEffect | src/repuesto/repuesto.service.ts:95-125 | The part sits under a fresh id with the requested columns. It is associated with exactly the listed motorcycles and suppliers. Everything else is unchanged, and barcodes stay unique. |
| Parts.UpdateEffect | src/repuesto/repuesto.service.ts:153-209 | The edited row replaces each defined column and keeps the others; the stock is the requested one when given. Both association lists are replaced exactly. Barcodes stay unique and stock non-negative. |
| Parts.UpdateWithoutListsKeepsRow | src/repuesto/repuesto.service.ts:153-194 | An edit that passes the checks but leaves an id list undefined fails after writing the row, keeping the row and any motorcycle rows already replaced. |
| Parts.UpdateIdempotent | src/repuesto/repuesto.service.ts:130-212 | Re-sending a successful edit to the store it produced succeeds again and changes nothing. |
| Parts.RemoveEffect | src/repuesto/repuesto.service.ts:224-236 | Deletion drops the part and all its association rows, keeps every other part's associations, and leaves orders, sales and invoices alone. |
| Parts.RemoveUndoesCreate | src/repuesto/repuesto.service.ts:213-237 | Deleting a part right after creating it restores the parts and both association tables. |
| Lifecycle.PlaceOrderKeepsSound | src/orden-servicio/orden-servicio.service.ts:68-148 | From a sound store, creating an order with distinct, non-negative lines leaves a sound store. Sound means: invoices one per owner, sales invoiced, ids fresh, barcodes unique, stock and stored lines non-negative. |
| Lifecycle.EditOrderKeepsSound | src/orden-servicio/orden-servicio.service.ts:149-381 | Editing, cancelling or completing an order with non-negative lines keeps the store sound. |
| Lifecycle.DeleteOrderKeepsSound | src/orden-servicio/orden-servicio.service.ts:382-410 | Deleting an order keeps the store sound, even when it fails half way. |
| Lifecycle.RecordSaleKeepsSound | src/venta-directa/venta-directa.service.ts:62-153 | Creating a sale with distinct, non-negative lines keeps the store sound. |
| Lifecycle.EditSaleKeepsSound | src/venta-directa/venta-directa.service.ts:155-295 | Editing a sale with non-negative lines keeps the store sound. |
| Lifecycle.DeleteSaleKeepsSound | src/venta-directa/venta-directa.service.ts:297-333 | Deleting a sale keeps the store sound. |
| Lifecycle.AddPartKeepsSound | src/repuesto/repuesto.service.ts:77-128 | Creating a part keeps the store sound. |
| Lifecycle.EditPartKeepsSound | src/repuesto/repuesto.service.ts:130-212 | Editing a part keeps the store sound, whether the edit succeeds, fails before writing, or fails half way. |
| Lifecycle.DeletePartKeepsSound | src/repuesto/repuesto.service.ts:213-237 | Deleting a part keeps the store sound. |
| Lifecycle.StepKeepsSound | src/orden-servicio/orden-servicio.service.ts:68-410 | About the whole system, not this file alone: any single well-formed request to any of the three services (orders at the cited lines, sales at src/venta-directa/venta-directa.service.ts:62-333, parts at src/repuesto/repuesto.service.ts:77-237), whatever its outcome, takes a sound store to a sound one. |
| Lifecycle.ReplayKeepsSound | src/orden-servicio/orden-servicio.service.ts:68-410 | About the whole system, not this file alone, with the same three services as Lifecycle.StepKeepsSound: along any sequence of well-formed requests from a sound store, no part's stock ever goes negative and no stored line holds a negative quantity. |

## Behaviour worth knowing

- Order creation reports a missing vehicle as a conflict, not as NotFound.
- `CANCELADO` is not a final state: a cancelled order can be edited or cancelled again.
- Order creation and order deletion are not transactions; only order edits are. A failed deletion keeps the stock increments it already made.
- Order deletion does not touch the order's invoice. What the database does with the invoice's reference is not modelled (see "## Left out").
- Both create paths check every line against the stock as it was before any decrement. Two lines for one part can therefore overdraw it together. The stock-safety results assume distinct part ids in create requests.
- Order and sale edits key the request by part, so of two requested lines for one part only the last counts in the first loop. Re-saving stored lines that repeat a part therefore moves stock, or fails when the stock cannot cover the difference.

## Left out

- `findAll` and `findOne` of all three services: read-only queries.
- Logging, HTTP routing, and the 409/404/500 mapping beyond the three error kinds.
- Concurrency between requests: requests run one after another.
- The clock: the sale invoice's `new Date()` is the parameter `now`.
- Date parsing: dates are integers given by the request. The order invoice's fallback to the clock when no date is given is not modelled; a date is always given.
- Request validation: request bodies are untyped in the source. The model assumes every field present and well-typed. The exceptions are the order notes, the sale payments and discount, the part-edit columns and the part id lists, whose undefined cases the code handles or trips over. A missing required field would be a database error, and none of these is modelled.
- Foreign keys and unique keys of tables the services do not check themselves: line, service-line, motorcycle and supplier association inserts, the part's brand (`id_marca`, which part creation and part edit write unchecked), and a duplicate id in a `createMany`. This also covers the delete restriction from order and sale lines on a part, and the invoice's reference to its order when the order is deleted: the model keeps the invoice with its now dangling reference, where an enforced key would either clear that reference or refuse the deletion after the stock has already been returned. The schema is not part of this model, so these failures, and the partial writes they would leave in the non-transactional paths, are not modelled.
- Integer width: stock and line quantities are unbounded integers. The range of the database column, and the persistence error an increment or decrement beyond it would raise, are not modelled.
- Money: amounts are copied between rows and never computed with; they are integers.
- A `null` stock in a part edit (as opposed to an undefined one): the edit's stock is either undefined or an integer.
- Orders.CreateKeepsStockNonNegative: requires distinct part ids in the request, because as written duplicates can overdraw (see Orders.CreateWithRepeatedPartOverdraws).
- Sales.CreateKeepsStockNonNegative: requires distinct part ids in the request, for the same reason.
- Orders.ReviseIdenticalLines: proves that re-saving is a no-op only when the stored lines have distinct part ids. Stored duplicates break this: the request is keyed by part, so only the last duplicate counts, and the re-save moves stock or fails (see Reconciliation.ResubmittedDuplicatesMoveStock and Reconciliation.ResubmittedDuplicatesCanFail).
- Sales.UpdateIdenticalLines: proves that re-saving is a no-op only when the stored lines have distinct part ids; stored duplicates break it for the same reason.
- Row order of stored lines: the first loop of an edit runs over the stored lines in the order the model keeps them, which is insertion order. The source reads them with `findMany` and no `orderBy`, so the database promises no order. With distinct part ids the order does not matter: the success condition and the stock formula are order-free. With stored duplicates it can matter. For example, stored lines (part 0, 5 units) then (part 0, 1 unit), re-saved wanting 3 units from a stock of 0, succeed. In the reverse order they fail (Reconciliation.StoredOrderMatters).
- Orders.ReviseEffect: states the old-plus-previous-minus-requested formula only for distinct part ids; Reconciliation.ReconcileEffect gives the general formula.
- Sales.UpdateEffect: states the same formula only for distinct part ids.
- Reconciliation.ReconcileSucceedsIff: characterises success only for distinct part ids on both sides. With duplicates, the second loop re-reads stock between lines of one part.
- Lifecycle.ReplayKeepsSound: holds for requests with non-negative line quantities and distinct part ids in creates. The source does not validate quantities, and a negative quantity raises stock on creation.
