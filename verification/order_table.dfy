/**
 * The Orders table as the controller queries it: a map from primary key to
 * row, the ownership filter every query applies, and the listing query
 * `Where(UserName == caller).OrderByDescending(Id)`.
 */
module OrderTable {
  import opened Primitives
  import opened Models
  import opened Dtos

  /** The Orders set, keyed by its primary key `Id`. */
  type Table = map<int32, Order>

  /** The query predicate `o.UserName == userName`; a null owner matches no caller. */
  predicate Owns(o: Order, user: string)
  {
    o.userName == Some(user)
  }

  /** Every row is stored under its own Id. */
  predicate KeysMatch(t: Table)
  {
    forall k | k in t :: t[k].id == k
  }

  /** The DTO an order's client-supplied fields would form. */
  function Fields(o: Order): OrderDto
  {
    OrderDto(o.productName, o.quantity, o.unitPrice)
  }

  /**
   * What every row written by the controller satisfies: its total is the
   * server's product, it has an owner, and its client-supplied fields passed
   * validation.
   */
  predicate WellFormed(o: Order)
  {
    TotalConsistent(o) && o.userName.Some? && IsValid(Fields(o))
  }

  /** The store invariant. */
  predicate TableValid(t: Table)
  {
    KeysMatch(t) && forall k | k in t :: WellFormed(t[k])
  }

  /** The rows a caller may see: exactly those it owns. */
  function View(t: Table, user: string): (v: Table)
    ensures forall k :: k in v <==> k in t && Owns(t[k], user)
    ensures forall k | k in v :: v[k] == t[k]
  {
    map k | k in t && Owns(t[k], user) :: t[k]
  }

  /**
   * `FirstOrDefault(o => o.Id == id && o.UserName == userName)`: the id and
   * the owner are tested in the same query, so a row owned by someone else
   * and a missing row give the same `None`.
   */
  function Lookup(t: Table, id: int32, user: string): (r: Option<Order>)
    ensures r.Some? <==> id in t && Owns(t[id], user)
    ensures r.Some? ==> r.value == t[id]
  {
    if id in t && Owns(t[id], user) then Some(t[id]) else None
  }

  /** A nonempty set of ids has a largest element, `top`. */
  lemma {:induction false} Maximum(s: set<int32>) returns (top: int32)
    requires s != {}
    ensures top in s && forall k | k in s :: k <= top
  {
    var x :| x in s;
    if s == {x} {
      top := x;
    } else {
      var m := Maximum(s - {x});
      top := if x > m then x else m;
      forall k | k in s ensures k <= top {
        if k != x {
          assert k in s - {x};
        }
      }
    }
  }

  lemma MaximumExists(s: set<int32>)
    requires s != {}
    ensures exists m :: m in s && forall k | k in s :: k <= m
  {
    var top := Maximum(s);
  }

  /** The largest id in a nonempty set. */
  function MaxId(s: set<int32>): (m: int32)
    requires s != {}
    ensures m in s && forall k | k in s :: k <= m
  {
    MaximumExists(s);
    var m :| m in s && forall k | k in s :: k <= m;
    m
  }

  /** Sorted descending, without repetition. */
  predicate StrictlyDescending(r: seq<int32>)
  {
    forall i, j | 0 <= i < j < |r| :: r[i] > r[j]
  }

  /** Putting the maximum of `s` in front of a descending listing of the rest lists `s` descending. */
  lemma PrependMaximum(s: set<int32>, m: int32, rest: seq<int32>)
    requires m in s && forall k | k in s :: k <= m
    requires |rest| == |s - {m}| && StrictlyDescending(rest)
    requires forall k :: k in rest <==> k in s - {m}
    ensures |[m] + rest| == |s| && StrictlyDescending([m] + rest)
    ensures forall k :: k in [m] + rest <==> k in s
  {
    assert |s - {m}| == |s| - 1;
    assert forall i | 0 <= i < |rest| :: rest[i] in s - {m} && rest[i] < m;
    var r := [m] + rest;
    assert forall i | 0 < i < |r| :: r[i] == rest[i - 1];
  }

  /** The ids of `s`, each once, largest first. */
  function Descending(s: set<int32>): (r: seq<int32>)
    ensures |r| == |s|
    ensures forall k :: k in r <==> k in s
    ensures StrictlyDescending(r)
    decreases |s|
  {
    if s == {} then []
    else
      var m := MaxId(s);
      var rest := Descending(s - {m});
      PrependMaximum(s, m, rest);
      [m] + rest
  }

  /** The ids of the rows `user` owns. */
  function OwnedIds(t: Table, user: string): set<int32>
  {
    set k | k in t && Owns(t[k], user)
  }

  /** The rows stored under `ids`, in that order. */
  function Rows(t: Table, ids: seq<int32>): (r: seq<Order>)
    requires forall i | 0 <= i < |ids| :: ids[i] in t
    ensures |r| == |ids|
    ensures forall i | 0 <= i < |ids| :: r[i] == t[ids[i]]
  {
    if ids == [] then [] else [t[ids[0]]] + Rows(t, ids[1..])
  }

  /**
   * `Where(o => o.UserName == userName).OrderByDescending(o => o.Id)`:
   * exactly the caller's rows, none omitted and none of another owner's, in
   * strictly descending Id order.
   */
  function Listing(t: Table, user: string): (r: seq<Order>)
    requires KeysMatch(t)
    ensures forall i | 0 <= i < |r| :: r[i].id in t && t[r[i].id] == r[i] && Owns(r[i], user)
    ensures forall k | k in t && Owns(t[k], user) :: t[k] in r
    ensures forall i, j | 0 <= i < j < |r| :: r[i].id > r[j].id
    ensures |r| == |View(t, user)|
  {
    var ids := Descending(OwnedIds(t, user));
    OwnedRowsListed(t, user, ids);
    Rows(t, ids)
  }

  /** The rows under a descending listing of the owned ids are exactly the owned rows, in that order. */
  lemma OwnedRowsListed(t: Table, user: string, ids: seq<int32>)
    requires KeysMatch(t)
    requires |ids| == |OwnedIds(t, user)| && StrictlyDescending(ids)
    requires forall k :: k in ids <==> k in OwnedIds(t, user)
    ensures forall i | 0 <= i < |ids| :: ids[i] in t
    ensures var r := Rows(t, ids);
      && (forall i | 0 <= i < |r| :: r[i].id in t && t[r[i].id] == r[i] && Owns(r[i], user))
      && (forall k | k in t && Owns(t[k], user) :: t[k] in r)
      && (forall i, j | 0 <= i < j < |r| :: r[i].id > r[j].id)
      && |r| == |View(t, user)|
  {
    assert forall i | 0 <= i < |ids| :: ids[i] in OwnedIds(t, user);
    var r := Rows(t, ids);
    assert forall i | 0 <= i < |r| :: r[i] == t[ids[i]] && r[i].id == ids[i];
    assert OwnedIds(t, user) == View(t, user).Keys;
    forall k | k in t && Owns(t[k], user) ensures t[k] in r {
      assert k in OwnedIds(t, user);
      var i :| 0 <= i < |ids| && ids[i] == k;
      assert r[i] == t[k];
    }
  }

  /**
   * Per-user isolation of reads: what a caller can list or look up depends
   * only on the rows it owns, so no other owner's rows influence it.
   */
  lemma ReadsDependOnlyOnView(t1: Table, t2: Table, user: string)
    requires KeysMatch(t1) && KeysMatch(t2)
    requires View(t1, user) == View(t2, user)
    ensures Listing(t1, user) == Listing(t2, user)
    ensures forall id :: Lookup(t1, id, user) == Lookup(t2, id, user)
  {
  }

  /** No row is in two callers' views: a row has at most one owner. */
  lemma ViewsDisjoint(t: Table, u1: string, u2: string)
    requires u1 != u2
    ensures View(t, u1).Keys !! View(t, u2).Keys
  {
  }

  /**
   * GetOrderById agrees with GetAllOrders: an id can be fetched by a caller
   * exactly when an order with that id appears in the caller's listing.
   */
  lemma GettableIffListed(t: Table, id: int32, user: string)
    requires KeysMatch(t)
    ensures Lookup(t, id, user).Some? <==>
      exists i | 0 <= i < |Listing(t, user)| :: Listing(t, user)[i].id == id
  {
    var r := Listing(t, user);
    if id in t && Owns(t[id], user) {
      assert t[id] in r;
      var i :| 0 <= i < |r| && r[i] == t[id];
      assert r[i].id == id;
    }
  }

  /** Every stored order is charged at least the minimum unit price, hence a positive amount. */
  lemma StoredTotalsAtLeastMinPrice(t: Table)
    requires TableValid(t)
    ensures forall k | k in t :: t[k].totalAmount >= MinUnitPrice
  {
    forall k | k in t ensures t[k].totalAmount >= MinUnitPrice {
      ValidIff(Fields(t[k]));
      TotalAtLeastUnitPrice(t[k].quantity, t[k].unitPrice);
    }
  }

  /** Writing a row that `user` neither owned nor owns leaves `user`'s view unchanged. */
  lemma ViewUnchangedByForeignWrite(t: Table, k: int32, o: Order, user: string)
    requires k !in t || !Owns(t[k], user)
    requires !Owns(o, user)
    ensures View(t[k := o], user) == View(t, user)
  {
  }

  /** Removing a row that `user` does not own leaves `user`'s view unchanged. */
  lemma ViewUnchangedByForeignRemove(t: Table, k: int32, user: string)
    requires k !in t || !Owns(t[k], user)
    ensures View(t - {k}, user) == View(t, user)
  {
  }

  /** Adding a well-formed row under a fresh key, or rewriting one in place, keeps the invariant. */
  lemma WritePreservesValid(t: Table, o: Order)
    requires TableValid(t) && WellFormed(o)
    ensures TableValid(t[o.id := o])
  {
  }

  /** Removing a row keeps the invariant. */
  lemma RemovePreservesValid(t: Table, k: int32)
    requires TableValid(t)
    ensures TableValid(t - {k})
  {
  }
}
