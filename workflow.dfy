/**
 * What each operation of the retail service does to the three tables, as pure
 * functions: the result (or the failure it raises), the tables afterwards, and
 * the activity notice it asks to have queued. The notice is only a request:
 * whether the queue accepts it is decided by the caller and never feeds back
 * into the result or the tables (see Service.Retail3Service.SendActivityMessage).
 */
module Workflow {
  import opened Outcomes
  import opened Models

  datatype Tables = Tables(
    customers: map<string, Customer>,
    products: map<string, Product>,
    orders: map<string, Order>)

  /** The outcome of one operation. */
  datatype Effect<+T> = Effect(result: Result<T>, tables: Tables, notice: Option<string>)

  const InvalidProductOrCustomer: string := "Invalid product or customer"
  const OrderNotActive: string := "Order is not active"
  const ProductIdRequired: string := "Product ID is required"
  const ProductNotFound: string := "Product not found"

  /** Every record is stored under its own row key. */
  ghost predicate WellKeyed(t: Tables) {
    && (forall k :: k in t.customers ==> t.customers[k].rowKey == k)
    && (forall k :: k in t.products ==> t.products[k].rowKey == k)
    && (forall k :: k in t.orders ==> t.orders[k].rowKey == k)
  }

  /** No product has negative stock. */
  ghost predicate StockNonNegative(products: map<string, Product>) {
    forall k :: k in products ==> products[k].stockQuantity >= 0
  }

  /** `after` agrees with `before` on every key other than `k`. */
  ghost predicate OnlyChangedAt<V>(before: map<string, V>, after: map<string, V>, k: string) {
    forall j :: j != k ==> (j in before <==> j in after) && (j in before ==> before[j] == after[j])
  }

  // ---------------------------------------------------------------- notices

  function CustomerRegistered(c: Customer): string {
    "New customer registered: " + c.FullName()
  }

  function ProductAdded(p: Product): string {
    "New product added: '" + p.productName + "'"
  }

  function ProductUpdated(p: Product): string {
    "Product updated: '" + p.productName + "'"
  }

  function ProductDeleted(p: Product): string {
    "Product deleted: '" + p.productName + "'"
  }

  function OrderPlaced(c: Customer, p: Product): string {
    "Order placed: " + c.FullName() + " bought '" + p.productName + "'"
  }

  function ProductReturned(o: Order): string {
    "Product returned: '" + o.productName + "' by " + o.fullName
  }

  // ---------------------------------------------------------------- stock arithmetic

  const MaxInt32: int := 0x7fff_ffff
  const MinInt32: int := -0x8000_0000

  /**
   * `StockQuantity++` exactly as the service executes it: on a 32-bit `int`
   * in C#'s default unchecked context, so the largest value wraps to the
   * smallest.
   */
  function IncrementInt32(x: int): (r: int)
    requires MinInt32 <= x <= MaxInt32
    ensures MinInt32 <= r <= MaxInt32
    ensures r == x + 1 <==> x < MaxInt32
  {
    if x == MaxInt32 then MinInt32 else x + 1
  }

  /** A return on a product whose stock is at the 32-bit maximum leaves it negative. */
  lemma StockIncrementWrapsAtMax()
    ensures IncrementInt32(MaxInt32) < 0 <= MaxInt32
  {
  }

  // ---------------------------------------------------------------- customers

  /** AddCustomerAsync: store the customer under a fresh row key. */
  function AddCustomer(t: Tables, customer: Customer, key: string): (e: Effect<Customer>)
    requires key != "" && key !in t.customers
    ensures e.result.Ok? && e.result.value == customer.(rowKey := key)
    ensures key in e.tables.customers && e.tables.customers[key] == e.result.value
    ensures OnlyChangedAt(t.customers, e.tables.customers, key)
    ensures |e.tables.customers| == |t.customers| + 1
    ensures e.tables.products == t.products && e.tables.orders == t.orders
    ensures WellKeyed(t) ==> WellKeyed(e.tables)
    ensures e.notice == Some(CustomerRegistered(e.result.value))
  {
    var c := customer.(rowKey := key);
    Effect(Ok(c), t.(customers := t.customers[key := c]), Some(CustomerRegistered(c)))
  }

  // ---------------------------------------------------------------- products

  /** The image URL a product keeps: the freshly uploaded one, if an image came with the request. */
  function ImageAfterUpload(current: string, uploadedImageUrl: Option<string>): string {
    if uploadedImageUrl.Some? then uploadedImageUrl.value else current
  }

  /** AddProductAsync: store the product under a fresh row key. */
  function AddProduct(t: Tables, product: Product, key: string, uploadedImageUrl: Option<string>): (e: Effect<Product>)
    requires key != "" && key !in t.products
    ensures e.result.Ok?
    ensures e.result.value == product.(rowKey := key, imageUrl := ImageAfterUpload(product.imageUrl, uploadedImageUrl))
    ensures key in e.tables.products && e.tables.products[key] == e.result.value
    ensures OnlyChangedAt(t.products, e.tables.products, key)
    ensures |e.tables.products| == |t.products| + 1
    ensures e.tables.customers == t.customers && e.tables.orders == t.orders
    ensures StockNonNegative(t.products) && product.stockQuantity >= 0 ==> StockNonNegative(e.tables.products)
    ensures WellKeyed(t) ==> WellKeyed(e.tables)
    ensures e.notice == Some(ProductAdded(product))
  {
    var p := product.(rowKey := key, imageUrl := ImageAfterUpload(product.imageUrl, uploadedImageUrl));
    Effect(Ok(p), t.(products := t.products[key := p]), Some(ProductAdded(p)))
  }

  /**
   * UpdateProductAsync: overwrite name, description, price, stock and category
   * of the stored product named by `product.rowKey` (and its image URL when an
   * image was uploaded). The stored row key and every other record stay.
   */
  function UpdateProduct(t: Tables, product: Product, uploadedImageUrl: Option<string>): (e: Effect<()>)
    ensures e.result.Ok? <==> product.rowKey != "" && product.rowKey in t.products
    ensures product.rowKey == "" ==> e.result == Err(ArgumentError(ProductIdRequired))
    ensures product.rowKey != "" && product.rowKey !in t.products ==> e.result == Err(NotFound)
    ensures e.result.Err? ==> e.tables == t && e.notice == None
    ensures e.result.Ok? ==>
      var k := product.rowKey;
      && k in e.tables.products
      && var before, after := t.products[k], e.tables.products[k];
      && after.rowKey == before.rowKey
      && after.productName == product.productName
      && after.description == product.description
      && after.price == product.price
      && after.stockQuantity == product.stockQuantity
      && after.category == product.category
      && after.imageUrl == ImageAfterUpload(before.imageUrl, uploadedImageUrl)
      && OnlyChangedAt(t.products, e.tables.products, k)
      && e.notice == Some(ProductUpdated(product))
    ensures e.tables.customers == t.customers && e.tables.orders == t.orders
    ensures StockNonNegative(t.products) && product.stockQuantity >= 0 ==> StockNonNegative(e.tables.products)
    ensures WellKeyed(t) ==> WellKeyed(e.tables)
  {
    if product.rowKey == "" then
      Effect(Err(ArgumentError(ProductIdRequired)), t, None)
    else if product.rowKey !in t.products then
      Effect(Err(NotFound), t, None)
    else
      var existing := t.products[product.rowKey];
      var updated := existing.(
        productName := product.productName,
        description := product.description,
        price := product.price,
        stockQuantity := product.stockQuantity,
        category := product.category,
        imageUrl := ImageAfterUpload(existing.imageUrl, uploadedImageUrl));
      Effect(Ok(()), t.(products := t.products[product.rowKey := updated]), Some(ProductUpdated(product)))
  }

  /** DeleteProductAsync: remove the product, or fail when there is none under `key`. */
  function DeleteProduct(t: Tables, key: string): (e: Effect<()>)
    ensures e.result.Err? <==> key !in t.products
    ensures e.result.Err? ==> e.result.error == ArgumentError(ProductNotFound) && e.tables == t && e.notice == None
    ensures e.result.Ok? ==>
      && e.tables.products.Keys == t.products.Keys - {key}
      && (forall k :: k in e.tables.products ==> e.tables.products[k] == t.products[k])
      && |e.tables.products| == |t.products| - 1
      && e.notice == Some(ProductDeleted(t.products[key]))
    ensures e.tables.customers == t.customers && e.tables.orders == t.orders
    ensures StockNonNegative(t.products) ==> StockNonNegative(e.tables.products)
    ensures WellKeyed(t) ==> WellKeyed(e.tables)
  {
    if key !in t.products then
      Effect(Err(ArgumentError(ProductNotFound)), t, None)
    else
      Effect(Ok(()), t.(products := t.products - {key}), Some(ProductDeleted(t.products[key])))
  }

  // ---------------------------------------------------------------- orders

  /**
   * BuyProductAsync: when the customer and the product exist and the product
   * is in stock, record a completed order under a fresh key, snapshotting the
   * customer's full name and the product's name and price, and take one unit
   * off the product's stock.
   */
  function BuyProduct(t: Tables, customerKey: string, productKey: string, orderKey: string, now: Ticks): (e: Effect<Order>)
    requires customerKey != "" && productKey != ""
    requires orderKey != "" && orderKey !in t.orders
    ensures e.result.Err? <==>
      customerKey !in t.customers || productKey !in t.products || t.products[productKey].stockQuantity <= 0
    ensures e.result.Err? ==>
      e.result.error == InvalidOperation(InvalidProductOrCustomer) && e.tables == t && e.notice == None
    ensures e.result.Ok? ==>
      var o, c, p := e.result.value, t.customers[customerKey], t.products[productKey];
      && o.rowKey == orderKey
      && o.customerRowKey == customerKey
      && o.productRowKey == productKey
      && o.orderDate == now
      && o.totalAmount == p.price
      && o.status == Completed
      && o.fullName == c.FullName()
      && o.productName == p.productName
      && o.timestamp == None
      && e.notice == Some(OrderPlaced(c, p))
    ensures e.result.Ok? ==>
      && e.tables.orders.Keys == t.orders.Keys + {orderKey}
      && e.tables.orders[orderKey] == e.result.value
      && OnlyChangedAt(t.orders, e.tables.orders, orderKey)
    ensures e.result.Ok? ==>
      && productKey in e.tables.products
      && e.tables.products[productKey].stockQuantity == t.products[productKey].stockQuantity - 1 >= 0
      && e.tables.products[productKey] == t.products[productKey].(stockQuantity := e.tables.products[productKey].stockQuantity)
      && OnlyChangedAt(t.products, e.tables.products, productKey)
    ensures e.tables.customers == t.customers
    ensures StockNonNegative(t.products) ==> StockNonNegative(e.tables.products)
    ensures WellKeyed(t) ==> WellKeyed(e.tables)
  {
    var customer, product := Lookup(t.customers, customerKey), Lookup(t.products, productKey);
    if customer.None? || product.None? || product.value.stockQuantity <= 0 then
      Effect(Err(InvalidOperation(InvalidProductOrCustomer)), t, None)
    else
      var c, p := customer.value, product.value;
      var order := Order(orderKey, customerKey, productKey, now, p.price, Completed,
                         c.FullName(), p.productName, None);
      var sold := p.(stockQuantity := p.stockQuantity - 1);
      Effect(Ok(order),
             t.(orders := t.orders[orderKey := order], products := t.products[productKey := sold]),
             Some(OrderPlaced(c, p)))
  }

  /**
   * ReturnProductAsync: a completed order becomes returned, stamped with the
   * time of the return, and its product (if it still exists) gets one unit of
   * stock back. A missing product is skipped without an error.
   */
  function ReturnProduct(t: Tables, orderKey: string, now: Ticks): (e: Effect<Order>)
    requires orderKey != ""
    ensures e.result.Ok? <==> orderKey in t.orders && t.orders[orderKey].status == Completed
    ensures orderKey !in t.orders ==> e.result == Err(NotFound)
    ensures orderKey in t.orders && t.orders[orderKey].status != Completed ==>
      e.result == Err(InvalidOperation(OrderNotActive))
    ensures e.result.Err? ==> e.tables == t && e.notice == None
    ensures e.result.Ok? ==>
      var o, r := t.orders[orderKey], e.result.value;
      && r == o.(status := Returned, timestamp := Some(now))
      && r.status != Completed
      && e.tables.orders.Keys == t.orders.Keys
      && e.tables.orders[orderKey] == r
      && OnlyChangedAt(t.orders, e.tables.orders, orderKey)
      && e.notice == Some(ProductReturned(o))
    ensures e.result.Ok? ==>
      var p := t.orders[orderKey].productRowKey;
      && (p in t.products ==>
            && p in e.tables.products
            && e.tables.products[p].stockQuantity == t.products[p].stockQuantity + 1
            && e.tables.products[p] == t.products[p].(stockQuantity := e.tables.products[p].stockQuantity)
            && OnlyChangedAt(t.products, e.tables.products, p))
      && (p !in t.products ==> e.tables.products == t.products)
    ensures e.tables.customers == t.customers
    ensures StockNonNegative(t.products) ==> StockNonNegative(e.tables.products)
    ensures WellKeyed(t) ==> WellKeyed(e.tables)
  {
    if orderKey !in t.orders then
      Effect(Err(NotFound), t, None)
    else
      var order := t.orders[orderKey];
      if order.status != Completed then
        Effect(Err(InvalidOperation(OrderNotActive)), t, None)
      else
        var returned := order.(status := Returned, timestamp := Some(now));
        var products :=
          match Lookup(t.products, order.productRowKey)
          case None => t.products
          case Some(p) => t.products[order.productRowKey := p.(stockQuantity := p.stockQuantity + 1)];
        Effect(Ok(returned), t.(orders := t.orders[orderKey := returned], products := products),
               Some(ProductReturned(order)))
  }
}
