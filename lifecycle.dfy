/**
 * The service over time: any sequence of its operations, applied one after
 * another to the tables, and what stays true along the way.
 */
module Lifecycle {
  import opened Outcomes
  import opened Models
  import opened Workflow
  import opened Queries

  /** One call into the service, with the clock reading and the fresh GUID it receives. */
  datatype Op =
    | AddCustomerOp(customer: Customer, key: string)
    | AddProductOp(product: Product, key: string, uploadedImageUrl: Option<string>)
    | UpdateProductOp(product: Product, uploadedImageUrl: Option<string>)
    | DeleteProductOp(key: string)
    | BuyOp(customerKey: string, productKey: string, orderKey: string, now: Ticks)
    | ReturnOp(orderKey: string, now: Ticks)

  /** What the callers guarantee: the ids they pass are non-empty and new GUIDs are unused. */
  predicate Admissible(t: Tables, op: Op) {
    match op
    case AddCustomerOp(_, key) => key != "" && key !in t.customers
    case AddProductOp(_, key, _) => key != "" && key !in t.products
    case UpdateProductOp(_, _) => true
    case DeleteProductOp(_) => true
    case BuyOp(c, p, k, _) => c != "" && p != "" && k != "" && k !in t.orders
    case ReturnOp(k, _) => k != ""
  }

  /** The tables after one call, whether it succeeded or failed. */
  function Apply(t: Tables, op: Op): Tables
    requires Admissible(t, op)
  {
    match op
    case AddCustomerOp(c, key) => AddCustomer(t, c, key).tables
    case AddProductOp(p, key, url) => AddProduct(t, p, key, url).tables
    case UpdateProductOp(p, url) => UpdateProduct(t, p, url).tables
    case DeleteProductOp(key) => DeleteProduct(t, key).tables
    case BuyOp(c, p, k, now) => BuyProduct(t, c, p, k, now).tables
    case ReturnOp(k, now) => ReturnProduct(t, k, now).tables
  }

  /** Every call of `ops` is admissible in the state the calls before it leave. */
  predicate AdmissibleRun(t: Tables, ops: seq<Op>)
    decreases |ops|
  {
    ops == [] || (Admissible(t, ops[0]) && AdmissibleRun(Apply(t, ops[0]), ops[1..]))
  }

  function Run(t: Tables, ops: seq<Op>): Tables
    requires AdmissibleRun(t, ops)
    decreases |ops|
  {
    if ops == [] then t else Run(Apply(t, ops[0]), ops[1..])
  }

  // ---------------------------------------------------------------- stock never goes negative

  /** The stock figures a caller types in (add and update do not check them). */
  predicate SuppliesNonNegativeStock(op: Op) {
    match op
    case AddProductOp(p, _, _) => p.stockQuantity >= 0
    case UpdateProductOp(p, _) => p.stockQuantity >= 0
    case _ => true
  }

  /**
   * Starting from non-negative stock, no sequence of purchases, returns,
   * deletions and additions drives any product's stock below zero, as long as
   * the stock figures typed into add and update are not negative themselves.
   */
  lemma {:induction false} StockNeverNegative(t: Tables, ops: seq<Op>)
    requires AdmissibleRun(t, ops)
    requires StockNonNegative(t.products)
    requires forall i :: 0 <= i < |ops| ==> SuppliesNonNegativeStock(ops[i])
    ensures StockNonNegative(Run(t, ops).products)
    decreases |ops|
  {
    if ops != [] {
      var t' := Apply(t, ops[0]);
      assert StockNonNegative(t'.products) by {
        match ops[0]
        case AddCustomerOp(c, key) =>
        case AddProductOp(p, key, url) => assert p.stockQuantity >= 0 by { assert SuppliesNonNegativeStock(ops[0]); }
        case UpdateProductOp(p, url) => assert p.stockQuantity >= 0 by { assert SuppliesNonNegativeStock(ops[0]); }
        case DeleteProductOp(key) =>
        case BuyOp(c, p, k, now) =>
        case ReturnOp(k, now) =>
      }
      StockNeverNegative(t', ops[1..]);
    }
  }

  /** No sequence of calls breaks the store's keying: every record stays under its own row key. */
  lemma {:induction false} KeysStayWellKeyed(t: Tables, ops: seq<Op>)
    requires AdmissibleRun(t, ops) && WellKeyed(t)
    ensures WellKeyed(Run(t, ops))
    decreases |ops|
  {
    if ops != [] {
      var t' := Apply(t, ops[0]);
      assert WellKeyed(t') by {
        match ops[0]
        case AddCustomerOp(c, key) =>
        case AddProductOp(p, key, url) =>
        case UpdateProductOp(p, url) =>
        case DeleteProductOp(key) =>
        case BuyOp(c, p, k, now) =>
        case ReturnOp(k, now) =>
      }
      KeysStayWellKeyed(t', ops[1..]);
    }
  }

  // ---------------------------------------------------------------- orders are only ever returned

  /** One call leaves an existing order as it was, unless it is a return of that very order. */
  lemma ApplyKeepsOrder(t: Tables, op: Op, k: string)
    requires Admissible(t, op) && k in t.orders
    ensures k in Apply(t, op).orders
    ensures !(op.ReturnOp? && op.orderKey == k) ==> Apply(t, op).orders[k] == t.orders[k]
    ensures op.ReturnOp? && op.orderKey == k ==>
      var after := Apply(t, op).orders[k];
      && after.SameSnapshot(t.orders[k])
      && (after == t.orders[k] || (t.orders[k].status == Completed && after.status == Returned))
  {
  }

  /** How an order may evolve over time: not at all, or from "Completed" to "Returned". */
  ghost predicate Evolved(before: Order, after: Order) {
    after.SameSnapshot(before) && (after == before || (before.status == Completed && after.status == Returned))
  }

  /**
   * Over any sequence of calls no order disappears, none loses its snapshot of
   * customer name, product name, product, date and amount (whatever happens to
   * the customer or product records meanwhile), and the only status change is
   * "Completed" to "Returned".
   */
  lemma {:induction false} OrdersOnlyEvolve(t: Tables, ops: seq<Op>, k: string)
    requires AdmissibleRun(t, ops) && k in t.orders
    ensures k in Run(t, ops).orders && Evolved(t.orders[k], Run(t, ops).orders[k])
    decreases |ops|
  {
    if ops != [] {
      var t' := Apply(t, ops[0]);
      ApplyKeepsOrder(t, ops[0], k);
      OrdersOnlyEvolve(t', ops[1..], k);
    }
  }

  /** Once returned, an order stays exactly as it is, and every later return of it fails without effect. */
  lemma ReturnedIsFinal(t: Tables, ops: seq<Op>, k: string, now: Ticks)
    requires AdmissibleRun(t, ops) && k != ""
    requires k in t.orders && t.orders[k].status == Returned
    ensures k in Run(t, ops).orders && Run(t, ops).orders[k] == t.orders[k]
    ensures var e := ReturnProduct(Run(t, ops), k, now);
      e.result == Err(InvalidOperation(OrderNotActive)) && e.tables == Run(t, ops)
  {
    OrdersOnlyEvolve(t, ops, k);
  }

  /** Whether `op` is a return of order `k` that succeeds in state `t`. */
  predicate ReturnsOrder(t: Tables, op: Op, k: string)
    requires Admissible(t, op)
  {
    op.ReturnOp? && op.orderKey == k && ReturnProduct(t, k, op.now).result.Ok?
  }

  /** How many calls of `ops` successfully return order `k`. */
  function SuccessfulReturns(t: Tables, ops: seq<Op>, k: string): nat
    requires AdmissibleRun(t, ops)
    decreases |ops|
  {
    if ops == [] then 0
    else (if ReturnsOrder(t, ops[0], k) then 1 else 0) + SuccessfulReturns(Apply(t, ops[0]), ops[1..], k)
  }

  /**
   * Each order is returned at most once, over any sequence of calls; an order
   * that is already past "Completed" is never returned at all.
   */
  lemma {:induction false} ReturnAtMostOnce(t: Tables, ops: seq<Op>, k: string)
    requires AdmissibleRun(t, ops)
    ensures SuccessfulReturns(t, ops, k) <= 1
    ensures k in t.orders && t.orders[k].status != Completed ==> SuccessfulReturns(t, ops, k) == 0
    decreases |ops|
  {
    if ops != [] {
      var op, t' := ops[0], Apply(t, ops[0]);
      ReturnAtMostOnce(t', ops[1..], k);
      if ReturnsOrder(t, op, k) {
        assert k in t'.orders && t'.orders[k].status != Completed;
      } else if k in t.orders && t.orders[k].status != Completed {
        ApplyKeepsOrder(t, op, k);
        assert t'.orders[k] == t.orders[k];
      }
    }
  }

  // ---------------------------------------------------------------- buy, then return

  /**
   * A purchase immediately undone by returning its order leaves customers,
   * products and every other order exactly as they were; the only trace is
   * the new order, now "Returned".
   */
  lemma BuyThenReturn(t: Tables, customerKey: string, productKey: string, orderKey: string, now: Ticks, later: Ticks)
    requires customerKey != "" && productKey != ""
    requires orderKey != "" && orderKey !in t.orders
    requires BuyProduct(t, customerKey, productKey, orderKey, now).result.Ok?
    ensures var bought := BuyProduct(t, customerKey, productKey, orderKey, now);
      var returned := ReturnProduct(bought.tables, orderKey, later);
      && returned.result.Ok?
      && returned.result.value == bought.result.value.(status := Returned, timestamp := Some(later))
      && returned.tables.customers == t.customers
      && returned.tables.products == t.products
      && returned.tables.orders == t.orders[orderKey := returned.result.value]
  {
  }

  /** A purchase immediately undone by returning its order leaves every dashboard figure as it was. */
  lemma BuyThenReturnKeepsDashboard(t: Tables, customerKey: string, productKey: string, orderKey: string,
                                    now: Ticks, later: Ticks)
    requires customerKey != "" && productKey != ""
    requires orderKey != "" && orderKey !in t.orders
    requires BuyProduct(t, customerKey, productKey, orderKey, now).result.Ok?
    ensures var bought := BuyProduct(t, customerKey, productKey, orderKey, now);
      Dashboard(ReturnProduct(bought.tables, orderKey, later).tables) == Dashboard(t)
  {
    var bought := BuyProduct(t, customerKey, productKey, orderKey, now);
    var returned := ReturnProduct(bought.tables, orderKey, later);
    BuyThenReturn(t, customerKey, productKey, orderKey, now, later);
    assert CompletedOrders(returned.tables.orders) == CompletedOrders(t.orders);
  }

  /**
   * Purchases carry no idempotency key: the same customer buying the same
   * product twice gets two distinct orders and takes two units of stock.
   */
  lemma BuyTwiceIsNotIdempotent(t: Tables, customerKey: string, productKey: string,
                                first: string, second: string, now: Ticks, later: Ticks)
    requires customerKey != "" && productKey != ""
    requires first != "" && second != "" && first !in t.orders && second !in t.orders && second != first
    requires customerKey in t.customers && productKey in t.products
    requires t.products[productKey].stockQuantity >= 2
    ensures var once := BuyProduct(t, customerKey, productKey, first, now);
      second !in once.tables.orders &&
      var twice := BuyProduct(once.tables, customerKey, productKey, second, later);
      && once.result.Ok? && twice.result.Ok?
      && twice.tables.orders.Keys == t.orders.Keys + {first, second}
      && twice.tables.orders[first] != twice.tables.orders[second]
      && twice.tables.products[productKey].stockQuantity == t.products[productKey].stockQuantity - 2
  {
  }

  /** Whether `op` leaves product `p`'s record and the orders for it alone (judged in state `t`). */
  predicate AvoidsProduct(t: Tables, op: Op, p: string) {
    match op
    case UpdateProductOp(q, _) => q.rowKey != p
    case DeleteProductOp(key) => key != p
    case BuyOp(_, q, _, _) => q != p
    case ReturnOp(k, _) => k !in t.orders || t.orders[k].productRowKey != p
    case _ => true
  }

  /** Every call of `ops`, in the state it meets, avoids product `p`. */
  predicate RunAvoids(t: Tables, ops: seq<Op>, p: string)
    requires AdmissibleRun(t, ops)
    decreases |ops|
  {
    ops == [] || (AvoidsProduct(t, ops[0], p) && RunAvoids(Apply(t, ops[0]), ops[1..], p))
  }

  /** Calls that avoid a product leave its record and every order for it untouched. */
  lemma {:induction false} AvoidingRunKeepsProduct(t: Tables, ops: seq<Op>, p: string, k: string)
    requires AdmissibleRun(t, ops) && RunAvoids(t, ops, p)
    requires p in t.products
    requires k in t.orders && t.orders[k].productRowKey == p
    ensures p in Run(t, ops).products && Run(t, ops).products[p] == t.products[p]
    ensures k in Run(t, ops).orders && Run(t, ops).orders[k] == t.orders[k]
    decreases |ops|
  {
    if ops != [] {
      var op, t' := ops[0], Apply(t, ops[0]);
      ApplyKeepsOrder(t, op, k);
      assert p in t'.products && t'.products[p] == t.products[p] by {
        match op
        case AddCustomerOp(c, key) =>
        case AddProductOp(q, key, url) =>
        case UpdateProductOp(q, url) =>
        case DeleteProductOp(key) =>
        case BuyOp(c, q, j, now) =>
        case ReturnOp(j, now) =>
          if j in t.orders {
            assert t.orders[j].productRowKey != p;
          }
      }
      AvoidingRunKeepsProduct(t', ops[1..], p, k);
    }
  }

  /**
   * Buying a product, then any calls that leave that product alone, then
   * returning the order: the product's stock is back where it started.
   */
  lemma BuyRunReturnRestoresStock(t: Tables, customerKey: string, productKey: string, orderKey: string,
                                  now: Ticks, ops: seq<Op>, later: Ticks)
    requires customerKey != "" && productKey != ""
    requires orderKey != "" && orderKey !in t.orders
    requires BuyProduct(t, customerKey, productKey, orderKey, now).result.Ok?
    requires AdmissibleRun(BuyProduct(t, customerKey, productKey, orderKey, now).tables, ops)
    requires RunAvoids(BuyProduct(t, customerKey, productKey, orderKey, now).tables, ops, productKey)
    ensures var middle := Run(BuyProduct(t, customerKey, productKey, orderKey, now).tables, ops);
      var returned := ReturnProduct(middle, orderKey, later);
      && returned.result.Ok?
      && productKey in returned.tables.products
      && returned.tables.products[productKey].stockQuantity == t.products[productKey].stockQuantity
  {
    var bought := BuyProduct(t, customerKey, productKey, orderKey, now);
    AvoidingRunKeepsProduct(bought.tables, ops, productKey, orderKey);
  }

  // ---------------------------------------------------------------- stock is conserved

  /** The keys of the completed orders for product `p`: units sold and not yet given back. */
  ghost function Outstanding(orders: map<string, Order>, p: string): set<string> {
    set k | k in orders && orders[k].status == Completed && orders[k].productRowKey == p
  }

  /** Units of `p` on the shelf plus units out with customers. */
  ghost function Reserve(t: Tables, p: string): int
    requires p in t.products
  {
    t.products[p].stockQuantity + |Outstanding(t.orders, p)|
  }

  /** Whether `op` overwrites or removes the record of product `p`. */
  predicate RewritesProduct(op: Op, p: string) {
    (op.UpdateProductOp? && op.product.rowKey == p) || (op.DeleteProductOp? && op.key == p)
  }

  /** A new completed order for `p` joins the outstanding ones; an order for another product does not. */
  lemma OutstandingAfterInsert(orders: map<string, Order>, k: string, o: Order, p: string)
    requires k !in orders && o.status == Completed
    ensures o.productRowKey == p ==> Outstanding(orders[k := o], p) == Outstanding(orders, p) + {k}
    ensures o.productRowKey != p ==> Outstanding(orders[k := o], p) == Outstanding(orders, p)
  {
  }

  /** An order for `p` that leaves "Completed" leaves the outstanding ones; an order for another product does not. */
  lemma OutstandingAfterLeaving(orders: map<string, Order>, k: string, o: Order, p: string)
    requires k in orders && o.status != Completed && o.productRowKey == orders[k].productRowKey
    ensures orders[k].status == Completed && o.productRowKey == p ==>
      Outstanding(orders[k := o], p) == Outstanding(orders, p) - {k}
    ensures o.productRowKey != p ==> Outstanding(orders[k := o], p) == Outstanding(orders, p)
  {
  }

  /** A purchase moves a unit of its own product from the shelf to the outstanding orders. */
  lemma BuyKeepsReserve(t: Tables, c: string, q: string, k: string, now: Ticks, p: string)
    requires c != "" && q != "" && k != "" && k !in t.orders && p in t.products
    ensures var t' := BuyProduct(t, c, q, k, now).tables;
      p in t'.products && Reserve(t', p) == Reserve(t, p)
  {
    var e := BuyProduct(t, c, q, k, now);
    if e.result.Ok? {
      OutstandingAfterInsert(t.orders, k, e.result.value, p);
    }
  }

  /** A return moves a unit of its order's product from the outstanding orders back to the shelf. */
  lemma ReturnKeepsReserve(t: Tables, k: string, now: Ticks, p: string)
    requires k != "" && p in t.products
    ensures var t' := ReturnProduct(t, k, now).tables;
      p in t'.products && Reserve(t', p) == Reserve(t, p)
  {
    var e := ReturnProduct(t, k, now);
    if e.result.Ok? {
      OutstandingAfterLeaving(t.orders, k, e.result.value, p);
    }
  }

  /** One call that neither updates nor deletes product `p` keeps its reserve. */
  lemma ApplyKeepsReserve(t: Tables, op: Op, p: string)
    requires Admissible(t, op) && p in t.products && !RewritesProduct(op, p)
    ensures p in Apply(t, op).products && Reserve(Apply(t, op), p) == Reserve(t, p)
  {
    match op
    case AddCustomerOp(c, key) =>
    case AddProductOp(q, key, url) =>
    case UpdateProductOp(q, url) =>
    case DeleteProductOp(key) =>
    case BuyOp(c, q, k, now) => BuyKeepsReserve(t, c, q, k, now, p);
    case ReturnOp(k, now) => ReturnKeepsReserve(t, k, now, p);
  }

  /**
   * As long as nobody edits or deletes product `p`, purchases and returns
   * only move units between the shelf and the customers: stock plus the
   * number of completed orders for `p` never changes.
   */
  lemma {:induction false} ReserveConserved(t: Tables, ops: seq<Op>, p: string)
    requires AdmissibleRun(t, ops) && p in t.products
    requires forall i :: 0 <= i < |ops| ==> !RewritesProduct(ops[i], p)
    ensures p in Run(t, ops).products && Reserve(Run(t, ops), p) == Reserve(t, p)
    decreases |ops|
  {
    if ops != [] {
      ApplyKeepsReserve(t, ops[0], p);
      ReserveConserved(Apply(t, ops[0]), ops[1..], p);
    }
  }
}
