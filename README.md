# Retail3 order workflow, modelled in Dafny

This project models the service layer of the Retail3 store (`Retail3Service`). The store keeps three keyed tables: customers, products and orders. On top of them the service runs a purchase/return workflow that moves units of stock between the shelf and customers.

- **Purchase.** Checks that the customer exists, the product exists and the product is in stock. It then records a `Completed` order that snapshots the customer's full name and the product's name and price, and takes one unit off the product's stock.
- **Return.** Allowed only for a `Completed` order. It marks the order `Returned`, stamps it with the time, and gives the unit back if the product still exists.
- **Product and customer operations.** Adding a customer or a product stores it under a fresh key. Updating a product overwrites a fixed set of its fields. Deleting a product fails when there is none.
- **Queries.** Completed orders, overdue orders (completed more than 30 days ago), and the dashboard totals.
- **Activity queue.** Every successful operation offers one message to the queue. A refused message is swallowed and never changes the outcome.

Modules:

- `Outcomes` (outcomes.dfy): `Option`, and the failures the service raises, as a `Result` rather than exceptions.
- `Models` (models.dfy): the `Customer`, `Product` and `Order` records.
  - Prices and order totals are whole numbers of cents.
  - Times are `DateTime` ticks.
- `Workflow` (workflow.dfy): each service operation as a pure function. It gives the result, the three tables afterwards, and the activity message the operation asks to queue. Its contract states what the source promises about that one call.
- `Service` (service.dfy): the class `Retail3Service`.
  - The three tables and the activity log are fields.
  - Each method updates them in place, one storage write at a time, in the source's order.
  - Each method is proved to end in exactly the state and result of its `Workflow` function.
  - The queue write takes a `delivered` flag (whether the queue accepted it). Nothing else depends on that flag.
- `Queries` (queries.dfy): the completed and overdue views, and the dashboard built from table sums. Lemmas say how each operation moves the dashboard figures.
- `Lifecycle` (lifecycle.dfy): arbitrary sequences of operations and the invariants they keep:
  - stock never goes negative;
  - an order is returned at most once;
  - order snapshots never change;
  - a purchase followed by its return restores stock;
  - stock plus outstanding orders is conserved.

Inputs the service takes from its environment are parameters:

- the clock (`DateTime.UtcNow`) is `now`;
- the new GUIDs are keys that are required to be non-empty and unused in their table;
- the URL returned by the image upload is `uploadedImageUrl`;
- whether the queue accepted a message is `delivered`.

The controllers reject empty ids before calling purchase or return (`Controllers/OrderContoller.cs:40-43`, `:54-57`). That check is a precondition here.

Three behaviours of the code are worth stating, and the model follows them:

- Adding and updating a product store whatever stock figure the caller typed in. Neither `Product.StockQuantity` nor the service range-checks it. So "stock is never negative" holds only for runs whose typed-in stock figures are not negative (`Lifecycle.StockNeverNegative`). It is not a table invariant.
- Orders are written with status `Completed` or `Returned` only. No `Pending` order is ever created.
- A return of an order whose key does not exist fails with the table store's not-found error (`NotFound`). The service does not catch that error.

## Model

| member | source | states |
|---|---|---|
| Workflow.BuyProduct | Services/Retail3Service.cs:157-188 | fails with "Invalid product or customer" exactly when the customer or product is missing or stock is not positive, and then changes nothing; otherwise adds exactly one order under the fresh key (Completed, keys as given, amount = product price, full name and product name copied, dated now), lowers that product's stock by exactly one (staying non-negative), leaves every other product and all customers unchanged, and keeps all stock non-negative |
| Workflow.ReturnProduct | Services/Retail3Service.cs:191-216 | succeeds exactly for a Completed order; a missing order gives NotFound and a non-Completed one "Order is not active", both without effect; on success only that order changes (to Returned, stamped now, snapshot kept), the referenced product's stock rises by one if it exists and the products are untouched otherwise, and non-negative stock stays non-negative |
| Workflow.AddCustomer | Services/Retail3Service.cs:41-48 | the customer is stored under the fresh key, returned with that key, and the customers table grows by exactly that entry; nothing else changes |
| Workflow.AddProduct | Services/Retail3Service.cs:76-88 | the product is stored under the fresh key (with the uploaded image URL if one came), the products table grows by exactly that entry, nothing else changes, and stock stays non-negative when the typed-in stock is |
| Workflow.UpdateProduct | Services/Retail3Service.cs:113-133 | an empty id fails with "Product ID is required", an unknown id with NotFound, both without effect; otherwise exactly the named product changes: name, description, price, stock and category are overwritten from the input, the image URL only when a new one was uploaded, and the row key is kept |
| Workflow.DeleteProduct | Services/Retail3Service.cs:136-152 | fails with "Product not found" exactly when the key is absent, without effect; otherwise removes exactly that key, keeps every other product, and leaves customers and orders (including orders for the product) alone |
| Workflow.IncrementInt32 | Services/Retail3Service.cs:208 | the stock increment as the source executes it on a 32-bit int: it equals stock + 1 exactly when stock is below the maximum, and stays in 32-bit range |
| Workflow.StockIncrementWrapsAtMax | Services/Retail3Service.cs:208 | at the 32-bit maximum that increment yields a negative stock |
| Service.Retail3Service.SendActivityMessage | Services/Retail3Service.cs:240-250 | the message is appended to the activity log when the queue accepts it and the log is unchanged otherwise; no failure is raised |
| Service.Retail3Service.AddCustomer | Services/Retail3Service.cs:41-48 | new tables and result are those of Workflow.AddCustomer; the registration message is logged only if delivered |
| Service.Retail3Service.AddProduct | Services/Retail3Service.cs:76-88 | new tables and result are those of Workflow.AddProduct; the message is logged only if delivered |
| Service.Retail3Service.UpdateProduct | Services/Retail3Service.cs:113-133 | new tables and result are those of Workflow.UpdateProduct; the message is logged only on success and if delivered |
| Service.Retail3Service.DeleteProduct | Services/Retail3Service.cs:136-152 | new tables and result are those of Workflow.DeleteProduct; the message is logged only on success and if delivered |
| Service.Retail3Service.BuyProduct | Services/Retail3Service.cs:157-188 | new tables and result are those of Workflow.BuyProduct, whatever the queue does; the purchase message is logged only on success and if delivered |
| Service.Retail3Service.ReturnProduct | Services/Retail3Service.cs:191-216 | new tables and result are those of Workflow.ReturnProduct, whatever the queue does; the return message is logged only on success and if delivered |
| Service.Retail3Service.constructor | Services/Retail3Service.cs:26-36 | a service instance (one per request) wraps the store's current tables and activity queue as they are, and the store's keying holds from the start |
| Queries.CompletedOrders | Services/Retail3Service.cs:219-224 | holds exactly the orders whose status is Completed, unchanged |
| Queries.OverdueOrders | Services/Retail3Service.cs:227-235 | holds exactly the Completed orders whose order date plus 30 days is before now |
| Queries.CompletedAfterInsert | Services/Retail3Service.cs:165-178 | a new Completed order under a new key joins the completed view and nothing else does |
| Queries.CompletedAfterLeaving | Services/Retail3Service.cs:199-202 | an order moved out of Completed leaves the completed view and nothing else does |
| Queries.SumKeysTake | Services/Retail3Service.cs:315-316 | a table sum does not depend on the order in which records are added up |
| Queries.SumOverInsert | Services/Retail3Service.cs:315-316 | storing a record under a new key adds its value to the table sum |
| Queries.SumOverUpdate | Services/Retail3Service.cs:315-316 | overwriting a record replaces its value in the table sum |
| Queries.SumOverRemove | Services/Retail3Service.cs:315-316 | removing a record subtracts its value from the table sum |
| Queries.SumOver | Services/Retail3Service.cs:315-316 | the `Sum` of a field over a whole table; an empty table sums to zero |
| Queries.SumKeysNonNegative | Services/Retail3Service.cs:315 | a sum of non-negative values over any set of keys is not negative |
| Queries.Dashboard | Services/Retail3Service.cs:304-318 | the customer and product counts are the table sizes; the order count is the number of completed orders; available products is stock summed over every product and revenue the amounts summed over completed orders only; with no negative stock the available figure is not negative, and an empty orders table gives zero orders and zero revenue |
| Queries.DashboardAfterBuy | Services/Retail3Service.cs:304-318 | a purchase raises the completed-order count by one and revenue by the product's price, lowers available products by one, and keeps customer and product counts |
| Queries.DashboardAfterReturn | Services/Retail3Service.cs:304-318 | a return lowers the completed-order count by one and revenue by the order's amount, and raises available products by one exactly when the product still exists |
| Queries.DashboardAfterDelete | Services/Retail3Service.cs:304-318 | deleting a product lowers the product count by one and available products by its stock, and keeps order count and revenue |
| Queries.NewOrderNotOverdue | Services/Retail3Service.cs:227-235 | an order just placed is completed and not overdue for the next 30 days |
| Queries.OverdueGrowsWithTime | Services/Retail3Service.cs:234 | an order overdue at one time is overdue at every later time |
| Queries.ReturnedOrderLeavesViews | Services/Retail3Service.cs:219-235 | a returned order was in the completed view and is afterwards in neither the completed nor the overdue view |
| Lifecycle.KeysStayWellKeyed | Services/Retail3Service.cs:41-216 | over any admissible sequence of operations every customer, product and order stays stored under its own row key |
| Lifecycle.StockNeverNegative | Services/Retail3Service.cs:157-216 | from non-negative stock, any admissible sequence of operations whose typed-in stock figures are non-negative keeps every product's stock non-negative |
| Lifecycle.ApplyKeepsOrder | Services/Retail3Service.cs:191-202 | no operation removes an order, and only a return of that order changes it, from Completed to Returned with its snapshot kept |
| Lifecycle.OrdersOnlyEvolve | Services/Retail3Service.cs:165-176 | over any sequence of operations every order survives with its snapshot (keys, date, amount, full name, product name) intact, whatever happens to customers and products, and its only status change is Completed to Returned |
| Lifecycle.ReturnedIsFinal | Services/Retail3Service.cs:193-196 | after any sequence of operations a Returned order is exactly as it was, and returning it again fails with "Order is not active" without effect |
| Lifecycle.ReturnAtMostOnce | Services/Retail3Service.cs:193-199 | in any sequence of operations an order is successfully returned at most once, and never if it was already past Completed |
| Lifecycle.BuyThenReturn | Services/Retail3Service.cs:181-208 | returning a just-bought order succeeds and restores the products and customers tables exactly; the only trace is the order, now Returned |
| Lifecycle.BuyThenReturnKeepsDashboard | Services/Retail3Service.cs:304-318 | a purchase followed by its return leaves every dashboard figure unchanged |
| Lifecycle.BuyTwiceIsNotIdempotent | Services/Retail3Service.cs:157-188 | buying the same product twice for the same customer creates two distinct orders and takes two units of stock |
| Lifecycle.AvoidingRunKeepsProduct | Services/Retail3Service.cs:181-210 | operations that neither update, delete nor buy a product, nor return an order for it, leave its record and its orders unchanged |
| Lifecycle.BuyRunReturnRestoresStock | Services/Retail3Service.cs:181-210 | a purchase, then any operations that leave that product alone (in particular do not delete it), then the return of that order: the return succeeds and the product's stock is back at its value before the purchase |
| Lifecycle.OutstandingAfterInsert | Services/Retail3Service.cs:165-178 | a new Completed order for a product joins that product's outstanding orders, and an order for another product does not |
| Lifecycle.OutstandingAfterLeaving | Services/Retail3Service.cs:199-202 | a returned order for a product leaves that product's outstanding orders, and an order for another product does not |
| Lifecycle.BuyKeepsReserve | Services/Retail3Service.cs:162-182 | a purchase keeps every product's stock plus its number of outstanding orders |
| Lifecycle.ReturnKeepsReserve | Services/Retail3Service.cs:195-210 | a return keeps every product's stock plus its number of outstanding orders |
| Lifecycle.ApplyKeepsReserve | Services/Retail3Service.cs:157-216 | any operation that does not update or delete a product keeps its stock plus its number of outstanding orders |
| Lifecycle.ReserveConserved | Services/Retail3Service.cs:157-216 | over any sequence of operations that never updates or deletes a product, its stock plus its number of outstanding orders never changes |

## Left out

- Image handling. The blob upload is represented only by the URL it returns (`uploadedImageUrl`). Deleting a product's image blob, including the filename taken from its URI, is not modelled. These are calls into the storage SDK. In the code a failing image delete aborts `DeleteProductAsync` before the record is removed (for instance `new Uri` throws on a `productImageURL` that is not an absolute URI, Services/Retail3Service.cs:145); the model does not capture that failure and always removes the record of an existing product.
- `GetRecentActivitiesAsync` is not modelled. It parses JSON queue messages for display.
- Document and contract storage is not modelled: `UploadDocumentsAsync`, `GetDocumentsAsync`, `DownloadDocumentsAsync` and `ContractStorageService`. These are file-share and blob I/O.
- `GetAllCustomersAsync`, `GetAllProductsAsync`, `GetCustomerAsync` and `GetProductAsync` have no member of their own. They are the tables themselves and `Outcomes.Lookup` ("the record, or nothing").
- The order's display price string (`Price.ToString("C")`) is not modelled. It is culture-dependent currency formatting.
- Prices are whole cents, not `double`. Floating point is not modelled.
- Each operation is applied whole and alone. The model leaves out:
  - async interleaving and the oversell race between concurrent purchases;
  - storage exceptions between the order write and the stock write, which can leave a partial update.
- ETags, partition keys and the store-assigned `Timestamp` of new records are not modelled. The code never checks ETags. Partition keys are fixed per table. Only the timestamp a return writes itself is modelled.
- Controllers, views, form validation attributes, logging and dependency injection are not modelled. The one exception is the non-empty id check before purchase and return.
- Query results are keyed maps, not lists. The order in which the table store lists rows is not modelled.
- Queries.Dashboard: sums are over unbounded integers. The source's `Sum` over `int` stock throws an overflow exception beyond 32 bits, and the decimal revenue sum throws beyond the decimal range. Neither is modelled.
- Workflow.ReturnProduct: gives back stock with an exact `+ 1`. It does not reproduce the 32-bit wrap-around of the source's increment (see Findings and `Workflow.IncrementInt32`).

## Findings

| source | as written | input that shows it | evidently intended | confidence | as-written member | corrected member |
|---|---|---|---|---|---|---|
| Services/Retail3Service.cs:208 | `product.StockQuantity++` on a 32-bit `int`; in C#'s default unchecked context, 2147483647 wraps to -2147483648 | a product whose stock was set to 2147483647 through UpdateProductAsync (which does not range-check stock) and a Completed order for it; returning the order stores stock -2147483648 | a return gives back exactly one unit and never makes stock negative | low (depends on the build's overflow-checking setting); not executed | Workflow.StockIncrementWrapsAtMax | Workflow.ReturnProduct |
