/**
 * The three table records of the retail store: customers, products and orders.
 * Each record carries the row key it is stored under; the fixed partition labels
 * ("customers", "products", "orders") are implied by the table a record lives in.
 */
module Models {
  import opened Outcomes

  /** A price or an order total, as a whole number of cents. */
  type Cents = int

  /** A point in time, in 100-nanosecond ticks (the resolution of DateTime). */
  type Ticks = int

  const TicksPerDay: int := 864_000_000_000

  /** The two order statuses the workflow writes. */
  const Completed: string := "Completed"
  const Returned: string := "Returned"

  datatype Customer = Customer(
    rowKey: string,
    firstName: string,
    lastName: string,
    email: string,
    phone: string,
    idImagePath: Option<string>)
  {
    /** The display name an order copies when it is placed. */
    function FullName(): string {
      firstName + " " + lastName
    }
  }

  datatype Product = Product(
    rowKey: string,
    productName: string,
    description: string,
    price: Cents,
    stockQuantity: int,
    category: string,
    imageUrl: string)

  /**
   * An order refers to its customer and product by row key only. Its name and
   * amount fields are a snapshot taken when it was placed, never kept in sync.
   */
  datatype Order = Order(
    rowKey: string,
    customerRowKey: string,
    productRowKey: string,
    orderDate: Ticks,
    totalAmount: Cents,
    status: string,
    fullName: string,
    productName: string,
    timestamp: Option<Ticks>)
  {
    /** Everything about an order except what a return rewrites (status and timestamp). */
    predicate SameSnapshot(other: Order) {
      && rowKey == other.rowKey
      && customerRowKey == other.customerRowKey
      && productRowKey == other.productRowKey
      && orderDate == other.orderDate
      && totalAmount == other.totalAmount
      && fullName == other.fullName
      && productName == other.productName
    }
  }
}
