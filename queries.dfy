/**
 * The read side of the service: the completed-orders and overdue-orders views
 * and the dashboard totals, with how each workflow operation moves them.
 */
module Queries {
  import opened Outcomes
  import opened Models
  import opened Workflow

  /** An order is overdue once this many days have passed since it was placed. */
  const OverdueDays: int := 30

  /** GetCustomerBoughtAsync: the orders whose status is "Completed". */
  function CompletedOrders(orders: map<string, Order>): (r: map<string, Order>)
    ensures forall k :: k in r <==> k in orders && orders[k].status == Completed
    ensures forall k :: k in r ==> r[k] == orders[k]
  {
    map k | k in orders && orders[k].status == Completed :: orders[k]
  }

  /** GetOverdueOrdersAsync: the completed orders placed more than thirty days before `now`. */
  function OverdueOrders(orders: map<string, Order>, now: Ticks): (r: map<string, Order>)
    ensures forall k :: k in r <==>
      k in orders && orders[k].status == Completed && orders[k].orderDate + OverdueDays * TicksPerDay < now
    ensures forall k :: k in r ==> r[k] == orders[k]
  {
    var completed := CompletedOrders(orders);
    map k | k in completed && completed[k].orderDate + OverdueDays * TicksPerDay < now :: completed[k]
  }

  /** Placing a completed order under a new key adds exactly it to the completed view. */
  lemma CompletedAfterInsert(orders: map<string, Order>, k: string, o: Order)
    requires k !in orders && o.status == Completed
    ensures CompletedOrders(orders[k := o]) == CompletedOrders(orders)[k := o]
  {
  }

  /** Moving an order out of "Completed" takes exactly it out of the completed view. */
  lemma CompletedAfterLeaving(orders: map<string, Order>, k: string, o: Order)
    requires k in orders && o.status != Completed
    ensures CompletedOrders(orders[k := o]) == CompletedOrders(orders) - {k}
  {
  }

  // ---------------------------------------------------------------- sums over a table

  /** Some key of a non-empty key set; the same one each time it is asked for. */
  ghost function Pick(keys: set<string>): (k: string)
    requires keys != {}
    ensures k in keys
  {
    var k :| k in keys; k
  }

  /** The sum of `f` over the records of `m` stored under `keys`, in no particular order. */
  ghost function SumKeys<V>(m: map<string, V>, keys: set<string>, f: V -> int): int
    requires keys <= m.Keys
    decreases keys
  {
    if keys == {} then 0 else
      var k := Pick(keys);
      f(m[k]) + SumKeys(m, keys - {k}, f)
  }

  /** LINQ's `Sum` over a whole table; an empty table sums to nothing. */
  ghost function SumOver<V>(m: map<string, V>, f: V -> int): (r: int)
    ensures m == map[] ==> r == 0
  {
    SumKeys(m, m.Keys, f)
  }

  /** The sum does not depend on which key is taken out first. */
  lemma {:induction false} SumKeysTake<V>(m: map<string, V>, keys: set<string>, f: V -> int, k: string)
    requires keys <= m.Keys && k in keys
    ensures SumKeys(m, keys, f) == f(m[k]) + SumKeys(m, keys - {k}, f)
    decreases keys
  {
    var j := Pick(keys);
    if j != k {
      SumKeysTake(m, keys - {j}, f, k);
      SumKeysTake(m, keys - {k}, f, j);
      assert keys - {j} - {k} == keys - {k} - {j};
    }
  }

  /** Only the records under `keys` matter to the sum. */
  lemma {:induction false} SumKeysAgree<V>(m: map<string, V>, m': map<string, V>, keys: set<string>, f: V -> int)
    requires keys <= m.Keys && keys <= m'.Keys
    requires forall k :: k in keys ==> f(m[k]) == f(m'[k])
    ensures SumKeys(m, keys, f) == SumKeys(m', keys, f)
    decreases keys
  {
    if keys != {} {
      var k := Pick(keys);
      SumKeysAgree(m, m', keys - {k}, f);
    }
  }

  /** Storing a record under a new key adds its value to the sum. */
  lemma SumOverInsert<V>(m: map<string, V>, f: V -> int, k: string, v: V)
    requires k !in m
    ensures SumOver(m[k := v], f) == SumOver(m, f) + f(v)
  {
    var m' := m[k := v];
    SumKeysTake(m', m'.Keys, f, k);
    assert m'.Keys - {k} == m.Keys;
    SumKeysAgree(m', m, m.Keys, f);
  }

  /** Overwriting a record replaces its value in the sum. */
  lemma SumOverUpdate<V>(m: map<string, V>, f: V -> int, k: string, v: V)
    requires k in m
    ensures SumOver(m[k := v], f) == SumOver(m, f) - f(m[k]) + f(v)
  {
    var m' := m[k := v];
    SumKeysTake(m', m'.Keys, f, k);
    SumKeysTake(m, m.Keys, f, k);
    assert m'.Keys - {k} == m.Keys - {k};
    SumKeysAgree(m', m, m.Keys - {k}, f);
  }

  /** Removing a record takes its value out of the sum. */
  lemma SumOverRemove<V>(m: map<string, V>, f: V -> int, k: string)
    requires k in m
    ensures SumOver(m - {k}, f) == SumOver(m, f) - f(m[k])
  {
    var m' := m - {k};
    SumKeysTake(m, m.Keys, f, k);
    assert m'.Keys == m.Keys - {k};
    SumKeysAgree(m', m, m'.Keys, f);
  }

  /** A sum of non-negative values is non-negative. */
  lemma {:induction false} SumKeysNonNegative<V>(m: map<string, V>, keys: set<string>, f: V -> int)
    requires keys <= m.Keys
    ensures (forall k :: k in keys ==> f(m[k]) >= 0) ==> SumKeys(m, keys, f) >= 0
    decreases keys
  {
    if keys != {} {
      SumKeysNonNegative(m, keys - {Pick(keys)}, f);
    }
  }

  // ---------------------------------------------------------------- dashboard

  function StockOf(p: Product): int {
    p.stockQuantity
  }

  function AmountOf(o: Order): Cents {
    o.totalAmount
  }

  datatype DashboardStats = DashboardStats(
    totalCustomers: nat,
    totalProducts: nat,
    totalOrders: nat,
    availableProducts: int,
    totalRevenue: Cents)

  /**
   * GetDashboardStatsAsync: table sizes, the stock summed over all products,
   * and the number and summed amount of the completed orders only.
   */
  ghost function Dashboard(t: Tables): (r: DashboardStats)
    ensures r.totalCustomers == |t.customers| && r.totalProducts == |t.products|
    ensures r.totalOrders == |CompletedOrders(t.orders)|
    ensures r.availableProducts == SumOver(t.products, StockOf)
    ensures r.totalRevenue == SumOver(CompletedOrders(t.orders), AmountOf)
    ensures StockNonNegative(t.products) ==> r.availableProducts >= 0
    ensures t.orders == map[] ==> r.totalOrders == 0 && r.totalRevenue == 0
  {
    SumKeysNonNegative(t.products, t.products.Keys, StockOf);
    var completed := CompletedOrders(t.orders);
    DashboardStats(
      |t.customers|,
      |t.products|,
      |completed|,
      SumOver(t.products, StockOf),
      SumOver(completed, AmountOf))
  }

  /**
   * A purchase adds one customer-facing order worth the product's price and
   * takes one unit off the available stock; the table sizes of customers and
   * products do not move.
   */
  lemma DashboardAfterBuy(t: Tables, customerKey: string, productKey: string, orderKey: string, now: Ticks)
    requires customerKey != "" && productKey != ""
    requires orderKey != "" && orderKey !in t.orders
    ensures var e := BuyProduct(t, customerKey, productKey, orderKey, now);
      var before, after := Dashboard(t), Dashboard(e.tables);
      e.result.Ok? ==>
        && after.totalCustomers == before.totalCustomers
        && after.totalProducts == before.totalProducts
        && after.totalOrders == before.totalOrders + 1
        && after.availableProducts == before.availableProducts - 1
        && after.totalRevenue == before.totalRevenue + t.products[productKey].price
  {
    var e := BuyProduct(t, customerKey, productKey, orderKey, now);
    if e.result.Ok? {
      var o := e.result.value;
      var p := t.products[productKey];
      assert e.tables.products == t.products[productKey := p.(stockQuantity := p.stockQuantity - 1)];
      SumOverUpdate(t.products, StockOf, productKey, p.(stockQuantity := p.stockQuantity - 1));
      assert e.tables.orders == t.orders[orderKey := o];
      var completed := CompletedOrders(t.orders);
      CompletedAfterInsert(t.orders, orderKey, o);
      SumOverInsert(completed, AmountOf, orderKey, o);
    }
  }

  /**
   * A return takes its order out of the completed count and the revenue, and
   * gives one unit back to the available stock exactly when the product still
   * exists.
   */
  lemma DashboardAfterReturn(t: Tables, orderKey: string, now: Ticks)
    requires orderKey != ""
    ensures var e := ReturnProduct(t, orderKey, now);
      var before, after := Dashboard(t), Dashboard(e.tables);
      e.result.Ok? ==>
        && after.totalCustomers == before.totalCustomers
        && after.totalProducts == before.totalProducts
        && after.totalOrders == before.totalOrders - 1
        && after.totalRevenue == before.totalRevenue - t.orders[orderKey].totalAmount
        && after.availableProducts ==
             before.availableProducts + (if t.orders[orderKey].productRowKey in t.products then 1 else 0)
  {
    var e := ReturnProduct(t, orderKey, now);
    if e.result.Ok? {
      var o := t.orders[orderKey];
      var completed := CompletedOrders(t.orders);
      assert e.tables.orders == t.orders[orderKey := e.result.value];
      CompletedAfterLeaving(t.orders, orderKey, e.result.value);
      SumOverRemove(completed, AmountOf, orderKey);
      if o.productRowKey in t.products {
        var p := t.products[o.productRowKey];
        assert e.tables.products == t.products[o.productRowKey := p.(stockQuantity := p.stockQuantity + 1)];
        SumOverUpdate(t.products, StockOf, o.productRowKey, p.(stockQuantity := p.stockQuantity + 1));
      }
    }
  }

  /** Deleting a product takes it, and its stock, off the dashboard; orders are not touched. */
  lemma DashboardAfterDelete(t: Tables, key: string)
    ensures var e := DeleteProduct(t, key);
      var before, after := Dashboard(t), Dashboard(e.tables);
      e.result.Ok? ==>
        && after.totalProducts == before.totalProducts - 1
        && after.availableProducts == before.availableProducts - t.products[key].stockQuantity
        && after.totalOrders == before.totalOrders
        && after.totalRevenue == before.totalRevenue
  {
    var e := DeleteProduct(t, key);
    if e.result.Ok? {
      assert e.tables.products == t.products - {key};
      SumOverRemove(t.products, StockOf, key);
    }
  }

  /** An order placed at `now` is not overdue until thirty days have passed. */
  lemma NewOrderNotOverdue(t: Tables, customerKey: string, productKey: string, orderKey: string, now: Ticks, later: Ticks)
    requires customerKey != "" && productKey != ""
    requires orderKey != "" && orderKey !in t.orders
    requires later <= now + OverdueDays * TicksPerDay
    ensures var e := BuyProduct(t, customerKey, productKey, orderKey, now);
      e.result.Ok? ==> orderKey in CompletedOrders(e.tables.orders) && orderKey !in OverdueOrders(e.tables.orders, later)
  {
  }

  /** Once overdue, a completed order stays overdue as time goes on. */
  lemma OverdueGrowsWithTime(orders: map<string, Order>, now: Ticks, later: Ticks)
    requires now <= later
    ensures OverdueOrders(orders, now).Keys <= OverdueOrders(orders, later).Keys
  {
  }

  /** A returned order leaves both views at once. */
  lemma ReturnedOrderLeavesViews(t: Tables, orderKey: string, now: Ticks, at: Ticks)
    requires orderKey != ""
    ensures var e := ReturnProduct(t, orderKey, now);
      e.result.Ok? ==>
        && orderKey in CompletedOrders(t.orders)
        && orderKey !in CompletedOrders(e.tables.orders)
        && orderKey !in OverdueOrders(e.tables.orders, at)
  {
  }
}
