/**
 * The retail service as an object: the customers, products and orders tables
 * and the activity queue are fields that its operations update in place, one
 * storage write at a time, in the order the service performs them. Each
 * operation's new state and result are those of the matching function in
 * Workflow; the queue write is best effort and never changes either.
 */
module Service {
  import opened Outcomes
  import opened Models
  import opened Workflow

  /** The activity queue after offering it `notice`: kept only when the queue accepted it. */
  function Logged(log: seq<string>, notice: Option<string>, delivered: bool): seq<string> {
    if delivered && notice.Some? then log + [notice.value] else log
  }

  class Retail3Service {
    var customers: map<string, Customer>
    var products: map<string, Product>
    var orders: map<string, Order>
    /** The messages the activity queue has accepted, oldest first. */
    var activity: seq<string>

    function Tables(): Tables
      reads this
    {
      Workflow.Tables(customers, products, orders)
    }

    /**
     * The table store's own keying: every record sits under its row key.
     * Every operation keeps it (see also Lifecycle.KeysStayWellKeyed).
     */
    ghost predicate Valid()
      reads this
    {
      WellKeyed(Tables())
    }

    /**
     * A service instance is built per request over a store that already holds
     * records: `t` is what the tables hold and `log` what the queue holds.
     */
    constructor (t: Workflow.Tables, log: seq<string>)
      requires WellKeyed(t)
      ensures Valid()
      ensures Tables() == t && activity == log
    {
      customers, products, orders, activity := t.customers, t.products, t.orders, log;
    }

    /**
     * SendActivityMessageAsync: offer `message` to the queue. `delivered` says
     * whether the queue accepted it; a refusal is swallowed, never raised.
     */
    method SendActivityMessage(message: string, delivered: bool)
      modifies this`activity
      ensures activity == if delivered then old(activity) + [message] else old(activity)
    {
      if delivered {
        activity := activity + [message];
      }
    }

    /** AddCustomerAsync, with `key` standing for the fresh GUID. */
    method AddCustomer(customer: Customer, key: string, delivered: bool) returns (r: Customer)
      requires Valid()
      requires key != "" && key !in customers
      modifies this
      ensures Valid()
      ensures var e := Workflow.AddCustomer(old(Tables()), customer, key);
        && e.result == Ok(r)
        && Tables() == e.tables
        && activity == Logged(old(activity), e.notice, delivered)
    {
      r := customer.(rowKey := key);
      customers := customers[key := r];
      SendActivityMessage(CustomerRegistered(r), delivered);
    }

    /**
     * AddProductAsync, with `key` standing for the fresh GUID and
     * `uploadedImageUrl` for the URL the blob upload returned, if an image came.
     */
    method AddProduct(product: Product, key: string, uploadedImageUrl: Option<string>, delivered: bool)
      returns (r: Product)
      requires Valid()
      requires key != "" && key !in products
      modifies this
      ensures Valid()
      ensures var e := Workflow.AddProduct(old(Tables()), product, key, uploadedImageUrl);
        && e.result == Ok(r)
        && Tables() == e.tables
        && activity == Logged(old(activity), e.notice, delivered)
    {
      r := product;
      if uploadedImageUrl.Some? {
        r := r.(imageUrl := uploadedImageUrl.value);
      }
      r := r.(rowKey := key);
      products := products[key := r];
      SendActivityMessage(ProductAdded(r), delivered);
    }

    /** UpdateProductAsync. */
    method UpdateProduct(product: Product, uploadedImageUrl: Option<string>, delivered: bool)
      returns (r: Result<()>)
      requires Valid()
      modifies this
      ensures Valid()
      ensures var e := Workflow.UpdateProduct(old(Tables()), product, uploadedImageUrl);
        && r == e.result
        && Tables() == e.tables
        && activity == Logged(old(activity), e.notice, delivered)
    {
      if product.rowKey == "" {
        return Err(ArgumentError(ProductIdRequired));
      }
      var found := Lookup(products, product.rowKey);
      if found.None? {
        return Err(NotFound);
      }
      var existing := found.value;
      existing := existing.(productName := product.productName);
      existing := existing.(description := product.description);
      existing := existing.(price := product.price);
      existing := existing.(stockQuantity := product.stockQuantity);
      existing := existing.(category := product.category);
      if uploadedImageUrl.Some? {
        existing := existing.(imageUrl := uploadedImageUrl.value);
      }
      products := products[product.rowKey := existing];
      SendActivityMessage(ProductUpdated(product), delivered);
      r := Ok(());
    }

    /** DeleteProductAsync (the record only; removing its image blob is not modelled). */
    method DeleteProduct(key: string, delivered: bool) returns (r: Result<()>)
      requires Valid()
      modifies this
      ensures Valid()
      ensures var e := Workflow.DeleteProduct(old(Tables()), key);
        && r == e.result
        && Tables() == e.tables
        && activity == Logged(old(activity), e.notice, delivered)
    {
      var found := Lookup(products, key);
      if found.None? {
        return Err(ArgumentError(ProductNotFound));
      }
      products := products - {key};
      SendActivityMessage(ProductDeleted(found.value), delivered);
      r := Ok(());
    }

    /** BuyProductAsync, with `orderKey` standing for the fresh GUID and `now` for the clock. */
    method BuyProduct(customerKey: string, productKey: string, orderKey: string, now: Ticks, delivered: bool)
      returns (r: Result<Order>)
      requires Valid()
      requires customerKey != "" && productKey != ""
      requires orderKey != "" && orderKey !in orders
      modifies this
      ensures Valid()
      ensures var e := Workflow.BuyProduct(old(Tables()), customerKey, productKey, orderKey, now);
        && r == e.result
        && Tables() == e.tables
        && activity == Logged(old(activity), e.notice, delivered)
    {
      var customer := Lookup(customers, customerKey);
      var product := Lookup(products, productKey);
      if customer.None? || product.None? || product.value.stockQuantity <= 0 {
        return Err(InvalidOperation(InvalidProductOrCustomer));
      }
      var order := Order(orderKey, customerKey, productKey, now, product.value.price, Completed,
                         customer.value.FullName(), product.value.productName, None);
      orders := orders[orderKey := order];

      var sold := product.value;
      sold := sold.(stockQuantity := sold.stockQuantity - 1);
      products := products[productKey := sold];

      SendActivityMessage(OrderPlaced(customer.value, product.value), delivered);
      r := Ok(order);
    }

    /** ReturnProductAsync, with `now` for the clock. */
    method ReturnProduct(orderKey: string, now: Ticks, delivered: bool) returns (r: Result<Order>)
      requires Valid()
      requires orderKey != ""
      modifies this
      ensures Valid()
      ensures var e := Workflow.ReturnProduct(old(Tables()), orderKey, now);
        && r == e.result
        && Tables() == e.tables
        && activity == Logged(old(activity), e.notice, delivered)
    {
      var found := Lookup(orders, orderKey);
      if found.None? {
        return Err(NotFound);
      }
      var order := found.value;
      if order.status != Completed {
        return Err(InvalidOperation(OrderNotActive));
      }
      var placed := order;
      order := order.(status := Returned);
      order := order.(timestamp := Some(now));
      orders := orders[orderKey := order];

      var product := Lookup(products, order.productRowKey);
      if product.Some? {
        var restocked := product.value;
        restocked := restocked.(stockQuantity := restocked.stockQuantity + 1);
        products := products[order.productRowKey := restocked];
      }

      SendActivityMessage(ProductReturned(placed), delivered);
      r := Ok(order);
    }
  }
}
