# Order Management API: ownership-scoped order store

A Dafny model of the order store behind `OrdersController` in the Order
Management API. Authenticated users place, list, read, update and delete
orders. Every query is filtered by the caller's user name, so one user never
sees or touches another user's orders.

The model has five modules:

- `Primitives` (`primitives.dfy`): C#'s 32-bit `int` as the newtype `int32`, and `Option` for nullable values.
- `Models` (`order.dfy`): the `Order` entity as a datatype with exactly its six fields. `productName` is a `string`, so it is never null. `Default` gives the entity's initial values: `ProductName` is `""` and `UserName` is null. `unitPrice` and `totalAmount` are C# `decimal`s, modelled as exact reals. `Total` is the server's `Quantity * UnitPrice`.
- `Dtos` (`order_dto.dfy`): the `OrderDto` request body (only name, quantity and unit price) and its data-annotation validation. `Violations` returns the set of every failed attribute, as ModelState reports them.
- `OrderTable` (`order_table.dfy`): the Orders table as a map from primary key to row. It holds the ownership filter (`Owns`, `View`), the scoped lookup (`Lookup`), the listing query, and the store invariant `TableValid`. The invariant says every row sits under its own Id, has an owner, has `totalAmount == quantity * unitPrice`, and holds client fields that passed validation.
- `OrdersApi` (`orders_controller.dfy`): `CurrentUserName` and the class `OrdersController`. Its field `orders` is the table, handed in by the constructor as the database context holds it. Its five methods are the controller actions. The three writers (`PlaceOrder`, `UpdateOrder`, `DeleteOrder`) carry a `modifies` clause and state the whole new table in terms of the old one. The two readers (`GetAllOrders`, `GetOrderById`) change nothing. Each action takes the request's Name claim as an explicit `Option<string>`.

Points of the code the model follows closely:

- `[Range(0.01, …)]` rejects any unit price below 0.01, not only non-positive ones.
- `[Required]` also rejects product names made only of whitespace.
- `[StringLength(100)]` counts UTF-16 code units, so a character outside the Basic Multilingual Plane counts as two.
- Ids come from the database, so the model assumes only that a new id is unused.

## Model

| member | source | states |
|---|---|---|
| `Dtos.Utf16LengthBounds` | OrderManagementApi/DTOs/OrderDto.cs:12 | The length `[StringLength]` measures (UTF-16 units) lies between the character count and twice it. It equals the character count when every character is in the BMP. |
| `Dtos.Violations` | OrderManagementApi/DTOs/OrderDto.cs:11-21 | Each constraint is reported if and only if it is violated: blank name, name over 100 units, quantity below 1, unit price below 0.01. All violations come back together, not just the first. |
| `Dtos.ValidIff` | OrderManagementApi/DTOs/OrderDto.cs:11-21 | A DTO is valid exactly when its name is non-blank and at most 100 units, its quantity is in 1..int.MaxValue, and its unit price is at least 0.01 (both directions). |
| `OrderTable.ViewsDisjoint` | OrderManagementApi/OrderManagementApi/Controllers/OrdersController.cs:54 | No row is in the views of two different callers: the ownership filter gives every row at most one owner. |
| `OrderTable.GettableIffListed` | OrderManagementApi/OrderManagementApi/Controllers/OrdersController.cs:53-67 | A caller can fetch an id by the scoped lookup exactly when an order with that id is in the caller's listing, so GetOrderById and GetAllOrders agree. |
| `OrderTable.StoredTotalsAtLeastMinPrice` | OrderManagementApi/OrderManagementApi/Controllers/OrdersController.cs:39 | In a table that satisfies the store invariant, every order's total is at least 0.01, so every stored order has a positive amount. |
| `OrderTable.Descending` | OrderManagementApi/OrderManagementApi/Controllers/OrdersController.cs:55 | Lists a set of ids in strictly descending order, each exactly once: same size, same members. |
| `OrderTable.Listing` | OrderManagementApi/OrderManagementApi/Controllers/OrdersController.cs:53-56 | The listing holds every order the caller owns and only those, each as stored. Ids are strictly descending, and its length is the size of the caller's view. |
| `OrderTable.ReadsDependOnlyOnView` | OrderManagementApi/OrderManagementApi/Controllers/OrdersController.cs:51-67 | Two tables that give a caller the same view give that caller the same listing and the same lookup for every id. Other users' rows cannot influence what a caller reads. |
| `OrderTable.ViewUnchangedByForeignWrite` | OrderManagementApi/OrderManagementApi/Controllers/OrdersController.cs:96-101 | Writing a row that a user neither owned nor owns afterwards leaves that user's view unchanged. |
| `OrderTable.ViewUnchangedByForeignRemove` | OrderManagementApi/OrderManagementApi/Controllers/OrdersController.cs:121 | Removing a row a user does not own leaves that user's view unchanged. |
| `OrderTable.WritePreservesValid` | OrderManagementApi/OrderManagementApi/Controllers/OrdersController.cs:33-42 | Storing a well-formed row under its own id keeps the store invariant, including total consistency. |
| `OrderTable.RemovePreservesValid` | OrderManagementApi/OrderManagementApi/Controllers/OrdersController.cs:121 | Removing a row keeps the store invariant. |
| `OrdersApi.OrdersController.constructor` | OrderManagementApi/OrderManagementApi/Controllers/OrdersController.cs:15-20 | The controller works on the injected context's table as it stands, which must satisfy the store invariant. |
| `OrdersApi.OrdersController.PlaceOrder` | OrderManagementApi/OrderManagementApi/Controllers/OrdersController.cs:25-46 | An invalid DTO gives BadRequest with all violations and leaves the table unchanged. Otherwise the new row has the fresh id, copies name, quantity and price, is owned by the caller, and has total = quantity × price. No existing row and no other user's view changes, and the invariant is kept. |
| `OrdersApi.OrdersController.GetAllOrders` | OrderManagementApi/OrderManagementApi/Controllers/OrdersController.cs:48-59 | Returns Ok with the caller's listing: exactly the caller's orders, in strictly descending id order. It needs only that rows sit under their own ids. |
| `OrdersApi.OrdersController.GetOrderById` | OrderManagementApi/OrderManagementApi/Controllers/OrdersController.cs:61-75 | On any table, returns Ok with the stored order if and only if the id exists and the caller owns it. Otherwise it returns NotFound, the same for foreign and missing ids. |
| `OrdersApi.OrdersController.UpdateOrder` | OrderManagementApi/OrderManagementApi/Controllers/OrdersController.cs:78-107 | Validation comes first: an invalid DTO gives BadRequest and no change. A missing or foreign id gives NotFound and no change. Otherwise only that row is rewritten: same id and owner, the DTO's fields, and a recomputed total. Keys and all owners are unchanged, other users' views are unchanged, and the invariant is kept. |
| `OrdersApi.OrdersController.DeleteOrder` | OrderManagementApi/OrderManagementApi/Controllers/OrdersController.cs:109-125 | On an owned id, the table afterwards is the old table minus exactly that row, with NoContent. A missing or foreign id gives NotFound and no change. Other users' views are unchanged and the invariant is kept. |
| `OrdersApi.OthersReadsUnaffected` | OrderManagementApi/OrderManagementApi/Controllers/OrdersController.cs:51-67 | After any action by user A that keeps every other user's view (as `PlaceOrder`, `UpdateOrder` and `DeleteOrder` each guarantee), user B ≠ A lists and looks up exactly what B did before. |
| `OrdersApi.OwnerScenario` | OrderManagementApi/OrderManagementApi/Controllers/OrdersController.cs:25-59 | On an empty store, A places two pens at 1.50. The total is 3.00, the owner is A, and A's listing is exactly that order. |
| `OrdersApi.CrossUserScenario` | OrderManagementApi/OrderManagementApi/Controllers/OrdersController.cs:25-125 | After A places that order, B's listing is empty, and B's get, update and delete of that id all give NotFound. |

## Left out

- Login, registration and token handling (`AuthControllers.cs`) are not part of this model. They are calls into ASP.NET Identity and a JWT library, plus a clock and a random GUID.
- `ApplicationUser.cs` is not part of this model; it is an empty subclass of the identity user type.
- `[Authorize]` token validation and the claims lookup are not modelled. The model starts from the request's Name claim, passed in as a parameter.
- Persistence details are left out: `SaveChangesAsync`, `EntityState.Modified` and async execution.
- Database id generation is not modelled. `PlaceOrder` takes the identity the database assigns as a parameter and requires it to be unused.
- `OrderTable.Owns` compares owner names by exact string equality. The source's filters (`OrdersController.cs` lines 54, 67, 88 and 114) run in the database, where equality follows the column collation. The model does not capture that collation; SQL Server's default, for one, ignores case and trailing spaces. Every isolation result holds for exact equality only.
- Concurrent requests and the atomicity of each check-and-act are left out; the model is sequential.
- `Models.Total` is exact. It does not model `decimal`'s 28-digit rounding or overflow.
- `Dtos.Violations` compares the unit price with 0.01 exactly. It does not model how `RangeAttribute` converts the `decimal` to `double` before comparing.
- `Dtos.Violations` covers only the four data-annotation checks. Model-binding failures (a malformed body, a number outside `int` range) also make ModelState invalid; they are not modelled.
- A JSON `null` product name is represented by the empty string. Both fail `[Required]` and pass `[StringLength]`, so they produce the same set of violations.
- `[Required]` on `Quantity` and `UnitPrice` is not modelled. They are value types, so it never fails.
- Response details are left out: the `Location` header of `CreatedAtAction`, the NotFound message text (it names only the id and caller, which the caller already knows), and status-code objects.
