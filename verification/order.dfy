/** The `Order` entity: one row of the Orders table. */
module Models {
  import opened Primitives

  /**
   * An order as stored. `unitPrice` and `totalAmount` are C# `decimal`s,
   * modelled as exact reals. `totalAmount` is a stored field: nothing in the
   * entity ties it to `quantity` and `unitPrice`; the writers do (see
   * `TotalConsistent` and the store invariant). `userName` is the owner and is
   * nullable in the entity type.
   */
  datatype Order = Order(
    id: int32,
    productName: string,
    quantity: int32,
    unitPrice: real,
    totalAmount: real,
    userName: Option<string>)

  /**
   * The entity's initial values, as `new Order { }` gives them: every number
   * zero, `productName` the empty string (never null), `userName` null.
   */
  const Default: Order := Order(0, "", 0, 0.0, 0.0, None)

  /** The amount the server charges for `quantity` units at `unitPrice`. */
  function Total(quantity: int32, unitPrice: real): real
  {
    quantity as real * unitPrice
  }

  /** The stored total agrees with the stored quantity and unit price. */
  predicate TotalConsistent(o: Order)
  {
    o.totalAmount == Total(o.quantity, o.unitPrice)
  }

  /** With at least one unit at a positive price, the total is at least the unit price. */
  lemma TotalAtLeastUnitPrice(quantity: int32, unitPrice: real)
    requires quantity >= 1 && unitPrice > 0.0
    ensures Total(quantity, unitPrice) >= unitPrice > 0.0
  {
  }
}
