/**
 * `OrdersController`: the five actions over the shared Orders table, each
 * scoped to the caller named by the request's Name claim.
 */
module OrdersApi {
  import opened Primitives
  import opened Models
  import opened Dtos
  import opened OrderTable

  /** The action results the controller returns (messages and headers left aside). */
  datatype Response<T> =
    | Ok(value: T)                         // 200
    | Created(value: T)                    // 201
    | NoContent                            // 204
    | BadRequest(errors: set<Violation>)   // 400 with the whole ModelState
    | NotFound                             // 404, for a missing and for a foreign order alike

  /** `User.FindFirst(ClaimTypes.Name)?.Value ?? string.Empty`. */
  function CurrentUserName(nameClaim: Option<string>): (name: string)
    ensures nameClaim.Some? ==> name == nameClaim.value
    ensures nameClaim.None? ==> name == ""
  {
    match nameClaim
    case Some(n) => n
    case None => ""
  }

  class OrdersController {
    /** `_context.Orders`. */
    var orders: Table

    ghost predicate Valid()
      reads this
    {
      TableValid(orders)
    }

    /** The controller is handed the database context, with whatever rows it already holds. */
    constructor (context: Table)
      requires TableValid(context)
      ensures Valid() && orders == context
    {
      orders := context;
    }

    /**
     * POST: an invalid DTO is answered with all its violations and the table
     * is untouched; otherwise a new row is added whose owner is the caller and
     * whose total the server computes. `newId` is the identity the database
     * assigns on save; the model only assumes it is unused.
     */
    method PlaceOrder(nameClaim: Option<string>, dto: OrderDto, newId: int32) returns (r: Response<Order>)
      requires Valid()
      requires newId !in orders
      modifies this
      ensures Valid()
      ensures !IsValid(dto) ==> r == BadRequest(Violations(dto)) && orders == old(orders)
      ensures IsValid(dto) ==>
        && r.Created?
        && r.value.id == newId
        && Fields(r.value) == dto
        && r.value.userName == Some(CurrentUserName(nameClaim))
        && TotalConsistent(r.value)
        && orders == old(orders)[newId := r.value]
      ensures forall k | k in old(orders) :: k in orders && orders[k] == old(orders)[k]
      ensures forall u | u != CurrentUserName(nameClaim) :: View(orders, u) == View(old(orders), u)
    {
      if !IsValid(dto) {
        return BadRequest(Violations(dto));
      }
      var user := CurrentUserName(nameClaim);
      var order := Default.(
        productName := dto.productName,
        quantity := dto.quantity,
        unitPrice := dto.unitPrice,
        userName := Some(user),
        totalAmount := Total(dto.quantity, dto.unitPrice));
      // SaveChanges fills in the identity column.
      order := order.(id := newId);
      WritePreservesValid(orders, order);
      forall u | u != user ensures View(orders[newId := order], u) == View(orders, u) {
        ViewUnchangedByForeignWrite(orders, newId, order, u);
      }
      orders := orders[newId := order];
      r := Created(order);
    }

    /** GET: the caller's orders, newest Id first. */
    method GetAllOrders(nameClaim: Option<string>) returns (r: Response<seq<Order>>)
      requires KeysMatch(orders)
      ensures r.Ok? && r.value == Listing(orders, CurrentUserName(nameClaim))
    {
      var user := CurrentUserName(nameClaim);
      r := Ok(Listing(orders, user));
    }

    /** GET by id: the order if it exists and the caller owns it, NotFound otherwise. */
    method GetOrderById(nameClaim: Option<string>, id: int32) returns (r: Response<Order>)
      ensures r.Ok? <==> id in orders && Owns(orders[id], CurrentUserName(nameClaim))
      ensures r.Ok? ==> r.value == orders[id]
      ensures !r.Ok? ==> r == NotFound
    {
      var user := CurrentUserName(nameClaim);
      var order := Lookup(orders, id, user);
      if order.None? {
        return NotFound;
      }
      r := Ok(order.value);
    }

    /**
     * PUT: validation first; then, only for a row with this id owned by the
     * caller, overwrite the three client fields and recompute the total. The
     * row keeps its id and owner and every other row is untouched; a missing
     * or foreign id leaves the table as it was.
     */
    method UpdateOrder(nameClaim: Option<string>, id: int32, dto: OrderDto) returns (r: Response<()>)
      requires Valid()
      modifies this
      ensures Valid()
      ensures !IsValid(dto) ==> r == BadRequest(Violations(dto)) && orders == old(orders)
      ensures IsValid(dto) && !(id in old(orders) && Owns(old(orders)[id], CurrentUserName(nameClaim))) ==>
        r == NotFound && orders == old(orders)
      ensures IsValid(dto) && id in old(orders) && Owns(old(orders)[id], CurrentUserName(nameClaim)) ==>
        && r == NoContent
        && id in orders
        && orders[id].id == id
        && orders[id].userName == old(orders)[id].userName
        && Fields(orders[id]) == dto
        && TotalConsistent(orders[id])
        && orders == old(orders)[id := orders[id]]
      ensures orders.Keys == old(orders).Keys
      ensures forall k | k in old(orders) :: orders[k].userName == old(orders)[k].userName
      ensures forall u | u != CurrentUserName(nameClaim) :: View(orders, u) == View(old(orders), u)
    {
      if !IsValid(dto) {
        return BadRequest(Violations(dto));
      }
      var user := CurrentUserName(nameClaim);
      var existing := Lookup(orders, id, user);
      if existing.None? {
        return NotFound;
      }
      var order := existing.value;
      order := order.(productName := dto.productName);
      order := order.(quantity := dto.quantity);
      order := order.(unitPrice := dto.unitPrice);
      // The total is recomputed on the server, never taken from the client.
      order := order.(totalAmount := Total(dto.quantity, dto.unitPrice));
      WritePreservesValid(orders, order);
      forall u | u != user ensures View(orders[id := order], u) == View(orders, u) {
        ViewUnchangedByForeignWrite(orders, id, order, u);
      }
      orders := orders[id := order];
      r := NoContent;
    }

    /**
     * DELETE: removes exactly the row with this id when the caller owns it;
     * a missing or foreign id gives NotFound and removes nothing.
     */
    method DeleteOrder(nameClaim: Option<string>, id: int32) returns (r: Response<()>)
      requires Valid()
      modifies this
      ensures Valid()
      ensures id in old(orders) && Owns(old(orders)[id], CurrentUserName(nameClaim)) ==>
        r == NoContent && orders == old(orders) - {id}
      ensures !(id in old(orders) && Owns(old(orders)[id], CurrentUserName(nameClaim))) ==>
        r == NotFound && orders == old(orders)
      ensures forall u | u != CurrentUserName(nameClaim) :: View(orders, u) == View(old(orders), u)
    {
      var user := CurrentUserName(nameClaim);
      var order := Lookup(orders, id, user);
      if order.None? {
        return NotFound;
      }
      RemovePreservesValid(orders, order.value.id);
      forall u | u != user ensures View(orders - {id}, u) == View(orders, u) {
        ViewUnchangedByForeignRemove(orders, id, u);
      }
      orders := orders - {order.value.id};
      r := NoContent;
    }
  }

  /**
   * A caller's reads see nothing of another caller's writes: if B's view is
   * the same before and after A's action, B's listing and lookups are too.
   */
  lemma OthersReadsUnaffected(before: Table, after: Table, a: string, b: string)
    requires KeysMatch(before) && KeysMatch(after) && a != b
    requires forall u | u != a :: View(after, u) == View(before, u)
    ensures Listing(after, b) == Listing(before, b)
    ensures forall id :: Lookup(after, id, b) == Lookup(before, id, b)
  {
    ReadsDependOnlyOnView(after, before, b);
  }

  /** The request bodies the end-to-end scenario sends pass validation. */
  lemma ScenarioBodiesValid()
    ensures IsValid(OrderDto("Pen", 2, 1.5)) && IsValid(OrderDto("Ink", 9, 1.0))
  {
  }

  /** A table of one row lists that row to its owner and nothing to anyone else. */
  lemma SingleRowListing(t: Table, o: Order, user: string)
    requires t == map[o.id := o]
    ensures Owns(o, user) ==> Listing(t, user) == [o]
    ensures !Owns(o, user) ==> Listing(t, user) == []
  {
    var r := Listing(t, user);
    if Owns(o, user) {
      assert View(t, user) == t;
      assert |r| == 1;
      assert r[0].id in t;
    } else {
      assert View(t, user) == map[];
    }
  }

  /**
   * End to end, owner side: on an empty table, user `a` places an order for
   * two pens at 1.50; the total is 3.00, the owner is `a`, and `a`'s listing
   * is exactly that order.
   */
  method OwnerScenario(a: string, newId: int32)
    returns (placed: Response<Order>, listA: Response<seq<Order>>)
    ensures placed.Created? && placed.value.totalAmount == 3.0 && placed.value.userName == Some(a)
    ensures listA == Ok([placed.value])
  {
    ScenarioBodiesValid();
    var c := new OrdersController(map[]);
    placed := c.PlaceOrder(Some(a), OrderDto("Pen", 2, 1.5), newId);
    var o := placed.value;
    assert c.orders == map[newId := o];
    listA := c.GetAllOrders(Some(a));
    SingleRowListing(c.orders, o, a);
  }

  /**
   * End to end, other side: after `a` places that order, user `b` lists
   * nothing, and `b`'s get, update and delete of its id all give NotFound
   * and leave it in place.
   */
  method CrossUserScenario(a: string, b: string, newId: int32)
    returns (listB: Response<seq<Order>>, getB: Response<Order>,
             updateB: Response<()>, deleteB: Response<()>)
    requires a != b
    ensures listB == Ok([])
    ensures getB == NotFound && updateB == NotFound && deleteB == NotFound
  {
    ScenarioBodiesValid();
    var c := new OrdersController(map[]);
    var placed := c.PlaceOrder(Some(a), OrderDto("Pen", 2, 1.5), newId);
    ghost var o := placed.value;
    assert c.orders == map[newId := o];
    listB := c.GetAllOrders(Some(b));
    SingleRowListing(c.orders, o, b);
    getB := c.GetOrderById(Some(b), newId);
    updateB := c.UpdateOrder(Some(b), newId, OrderDto("Ink", 9, 1.0));
    assert c.orders == map[newId := o];
    deleteB := c.DeleteOrder(Some(b), newId);
  }
}
