/** The D1 database as an immutable value: a products table keyed by id and an
    orders table kept in insertion order. Every SQL statement of the data layer
    is one function from a store to a new store, so each is atomic. */
module Store {
  import opened Wrappers
  import opened Types

  /** `orders` lists rows in insertion order, which is the order a
      `SELECT … .first()` without `ORDER BY` finds them in. */
  datatype Store = Store(products: map<string, Product>, orders: seq<Order>)

  /** Why an INSERT failed: a row with that primary key already exists. */
  datatype StoreError = DuplicateProductId(id: string) | DuplicateOrderId(id: string)

  /** The primary-key invariant of both tables: a product is filed under its
      own id, and no two order rows share an id. */
  ghost predicate Valid(s: Store) {
    && (forall id :: id in s.products ==> s.products[id].id == id)
    && (forall i, j :: 0 <= i < j < |s.orders| ==> s.orders[i].id != s.orders[j].id)
  }

  predicate HasOrderId(orders: seq<Order>, id: string) {
    exists i :: 0 <= i < |orders| && orders[i].id == id
  }

  predicate HasSession(orders: seq<Order>, sessionId: string) {
    exists i :: 0 <= i < |orders| && orders[i].stripeSessionId == sessionId
  }

  // ---------------------------------------------------------------------------
  // Reads
  // ---------------------------------------------------------------------------

  /** `SELECT * FROM products WHERE id = ?` (`getProductById`). */
  function GetProductById(s: Store, id: string): (r: Option<Product>)
    ensures r.Some? <==> id in s.products
    ensures r.Some? ==> r.value == s.products[id]
  {
    if id in s.products then Some(s.products[id]) else None
  }

  /** The first order row, in table order, whose session id is `sessionId`. */
  function FirstWithSession(orders: seq<Order>, sessionId: string): (r: Option<Order>)
    ensures r.Some? <==> HasSession(orders, sessionId)
    ensures r.Some? ==> exists i :: 0 <= i < |orders| && orders[i] == r.value
                                   && r.value.stripeSessionId == sessionId
                                   && forall j :: 0 <= j < i ==> orders[j].stripeSessionId != sessionId
  {
    if |orders| == 0 then None
    else if orders[0].stripeSessionId == sessionId then Some(orders[0])
    else
      var rest := FirstWithSession(orders[1..], sessionId);
      if rest.Some? then
        ghost var k :| 0 <= k < |orders[1..]| && orders[1..][k] == rest.value
                       && rest.value.stripeSessionId == sessionId
                       && forall j :: 0 <= j < k ==> orders[1..][j].stripeSessionId != sessionId;
        assert orders[k + 1] == rest.value;
        rest
      else
        assert !HasSession(orders[1..], sessionId);
        assert forall i :: 1 <= i < |orders| ==> orders[i] == orders[1..][i - 1];
        rest
  }

  /** `SELECT * FROM orders WHERE stripe_session_id = ?` with `.first()`
      (`getOrderBySessionId`). */
  function GetOrderBySessionId(s: Store, sessionId: string): (r: Option<Order>)
    ensures r.Some? <==> HasSession(s.orders, sessionId)
    ensures r.Some? ==> r.value in s.orders && r.value.stripeSessionId == sessionId
  {
    FirstWithSession(s.orders, sessionId)
  }

  /** The available products of `s`, by key. */
  ghost predicate IsAvailable(s: Store, id: string) {
    id in s.products && s.products[id].status == Available
  }

  /** `ORDER BY created_at DESC`: creation times never increase along `ps`. */
  predicate NewestFirst(ps: seq<Product>) {
    forall i, j :: 0 <= i < j < |ps| ==> ps[i].createdAt >= ps[j].createdAt
  }

  predicate DistinctIds(ps: seq<Product>) {
    forall i, j :: 0 <= i < j < |ps| ==> ps[i].id != ps[j].id
  }

  /** Inserts `p` into a newest-first list before the first product that is
      not newer than it. */
  function InsertNewestFirst(ps: seq<Product>, p: Product): (r: seq<Product>)
    requires NewestFirst(ps)
    ensures NewestFirst(r)
    ensures |r| == |ps| + 1
    ensures forall q :: q in r <==> q in ps || q == p
  {
    if |ps| == 0 || ps[0].createdAt <= p.createdAt then [p] + ps
    else
      var rest := InsertNewestFirst(ps[1..], p);
      assert forall q :: q in ps ==> q == ps[0] || q in ps[1..];
      assert forall q :: q in ps[1..] ==> q.createdAt <= ps[0].createdAt;
      assert forall k :: 0 <= k < |rest| ==> rest[k] in rest;
      [ps[0]] + rest
  }

  /** Prepending a product whose id the list lacks keeps the ids distinct. */
  lemma DistinctCons(x: Product, rest: seq<Product>)
    requires DistinctIds(rest)
    requires forall q :: q in rest ==> q.id != x.id
    ensures DistinctIds([x] + rest)
  {
    var r := [x] + rest;
    forall i, j | 0 <= i < j < |r| ensures r[i].id != r[j].id {
      if i > 0 {
        assert r[i] == rest[i - 1] && r[j] == rest[j - 1];
      } else {
        assert r[j] in rest;
      }
    }
  }

  lemma {:induction false} InsertKeepsIdsDistinct(ps: seq<Product>, p: Product)
    requires NewestFirst(ps) && DistinctIds(ps)
    requires forall q :: q in ps ==> q.id != p.id
    ensures DistinctIds(InsertNewestFirst(ps, p))
  {
    if |ps| == 0 || ps[0].createdAt <= p.createdAt {
      DistinctCons(p, ps);
    } else {
      var tail := ps[1..];
      assert forall q :: q in tail ==> q in ps;
      InsertKeepsIdsDistinct(tail, p);
      var rest := InsertNewestFirst(tail, p);
      assert InsertNewestFirst(ps, p) == [ps[0]] + rest;
      forall q | q in rest ensures q.id != ps[0].id {
        if q != p {
          var k :| 0 <= k < |tail| && tail[k] == q;
          assert ps[k + 1] == q;
        }
      }
      DistinctCons(ps[0], rest);
    }
  }

  /** `SELECT * FROM products WHERE status = 'available' ORDER BY created_at DESC`
      (`getAvailableProducts`): every available product exactly once, newest
      first. Products created at the same instant come back in no fixed order. */
  method GetAvailableProducts(s: Store) returns (r: seq<Product>)
    requires Valid(s)
    ensures NewestFirst(r)
    ensures DistinctIds(r)
    ensures forall i :: 0 <= i < |r| ==> IsAvailable(s, r[i].id) && s.products[r[i].id] == r[i]
    ensures forall id :: IsAvailable(s, id) ==> s.products[id] in r
  {
    r := [];
    var remaining := s.products.Keys;
    while remaining != {}
      invariant remaining <= s.products.Keys
      invariant NewestFirst(r)
      invariant DistinctIds(r)
      invariant forall q :: q in r ==>
                  q.id in s.products.Keys - remaining && IsAvailable(s, q.id) && s.products[q.id] == q
      invariant forall id :: id in s.products.Keys - remaining && IsAvailable(s, id) ==> s.products[id] in r
      decreases remaining
    {
      var id :| id in remaining;
      remaining := remaining - {id};
      if s.products[id].status == Available {
        InsertKeepsIdsDistinct(r, s.products[id]);
        r := InsertNewestFirst(r, s.products[id]);
      }
    }
    forall i | 0 <= i < |r|
      ensures IsAvailable(s, r[i].id) && s.products[r[i].id] == r[i]
    {
      assert r[i] in r;
    }
  }

  // ---------------------------------------------------------------------------
  // Writes (one SQL statement each)
  // ---------------------------------------------------------------------------

  /** `createProduct`: INSERT of the given columns, then the row read back.
      `created_at` takes the database clock `now`; `sold_at` is not inserted, so
      it is null. The caller's status is stored as given. */
  function CreateProduct(s: Store, p: Product, now: int): (r: Result<(Store, Product), StoreError>)
    ensures r.Ok? <==> p.id !in s.products
    ensures r.Err? ==> r.error == DuplicateProductId(p.id)
    ensures r.Ok? ==>
      var (s', row) := r.value;
      && GetProductById(s', p.id) == Some(row)
      && row == p.(createdAt := now, soldAt := None)
      && s'.products.Keys == s.products.Keys + {p.id}
      && (forall id :: id in s.products ==> s'.products[id] == s.products[id])
      && s'.orders == s.orders
  {
    if p.id in s.products then Err(DuplicateProductId(p.id))
    else
      var row := p.(createdAt := now, soldAt := None);
      Ok((s.(products := s.products[p.id := row]), row))
  }

  /** `markProductAsSold`: `UPDATE products SET status = 'sold', sold_at = now
      WHERE id = ?`, whatever the current status. No row, no change. */
  function MarkProductAsSold(s: Store, id: string, now: int): (s': Store)
    ensures id !in s.products ==> s' == s
    ensures id in s.products ==>
      && id in s'.products
      && s'.products[id].status == Sold
      && s'.products[id].soldAt == Some(now)
      && s'.products[id] == s.products[id].(status := Sold, soldAt := Some(now))
    ensures s'.products.Keys == s.products.Keys
    ensures forall other :: other in s.products && other != id ==> s'.products[other] == s.products[other]
    ensures s'.orders == s.orders
  {
    if id in s.products then
      s.(products := s.products[id := s.products[id].(status := Sold, soldAt := Some(now))])
    else s
  }

  /** `lockProductForPurchase`: the compare-and-swap
      `UPDATE products SET status = 'sold' WHERE id = ? AND status = 'available'`,
      answering whether a row changed. It does not touch `sold_at`. */
  function LockProductForPurchase(s: Store, id: string): (r: (Store, bool))
    ensures r.1 <==> IsAvailable(s, id)
    ensures !r.1 ==> r.0 == s
    ensures r.1 ==>
      && IsAvailable(s, id)
      && r.0.products.Keys == s.products.Keys
      && r.0.products[id].status == Sold
      && r.0.products[id] == s.products[id].(status := Sold)
      && r.0.products[id].soldAt == s.products[id].soldAt
      && (forall other :: other in s.products && other != id ==> r.0.products[other] == s.products[other])
      && r.0.orders == s.orders
  {
    if id in s.products && s.products[id].status == Available then
      (s.(products := s.products[id := s.products[id].(status := Sold)]), true)
    else
      (s, false)
  }

  /** `createOrder`: INSERT of the row with both timestamps set to `now`, then
      `SELECT * FROM orders WHERE id = ?`. Nothing constrains the session id, so
      a second order for a session is stored as well. */
  function CreateOrder(s: Store, o: Order, now: int): (r: Result<(Store, Order), StoreError>)
    ensures r.Ok? <==> !HasOrderId(s.orders, o.id)
    ensures r.Err? ==> r.error == DuplicateOrderId(o.id)
    ensures r.Ok? ==>
      var (s', row) := r.value;
      && row == o.(createdAt := now, updatedAt := now)
      && s'.orders == s.orders + [row]
      && s'.products == s.products
  {
    if HasOrderId(s.orders, o.id) then Err(DuplicateOrderId(o.id))
    else
      var row := o.(createdAt := now, updatedAt := now);
      Ok((s.(orders := s.orders + [row]), row))
  }

  /** The row `o` after `updateOrderPrintfulId` has written it. */
  function WithPrintfulId(o: Order, printfulOrderId: string, now: int): Order {
    o.(printfulOrderId := Some(printfulOrderId), status := Fulfilled, updatedAt := now)
  }

  function UpdateRows(orders: seq<Order>, orderId: string, printfulOrderId: string, now: int): (r: seq<Order>)
    ensures |r| == |orders|
    ensures forall i :: 0 <= i < |orders| ==>
      r[i] == (if orders[i].id == orderId then WithPrintfulId(orders[i], printfulOrderId, now) else orders[i])
  {
    if |orders| == 0 then []
    else
      var head := if orders[0].id == orderId then WithPrintfulId(orders[0], printfulOrderId, now) else orders[0];
      [head] + UpdateRows(orders[1..], orderId, printfulOrderId, now)
  }

  /** `updateOrderPrintfulId`: `UPDATE orders SET printful_order_id = ?,
      status = 'fulfilled', updated_at = now WHERE id = ?`. */
  function UpdateOrderPrintfulId(s: Store, orderId: string, printfulOrderId: string, now: int): (s': Store)
    ensures s'.products == s.products
    ensures |s'.orders| == |s.orders|
    ensures forall i :: 0 <= i < |s.orders| && s.orders[i].id != orderId ==> s'.orders[i] == s.orders[i]
    ensures forall i :: 0 <= i < |s.orders| && s.orders[i].id == orderId ==>
      && s'.orders[i].status == Fulfilled
      && s'.orders[i].printfulOrderId == Some(printfulOrderId)
      && s'.orders[i].updatedAt == now
      && s'.orders[i] == s.orders[i].(printfulOrderId := Some(printfulOrderId), status := Fulfilled, updatedAt := now)
  {
    s.(orders := UpdateRows(s.orders, orderId, printfulOrderId, now))
  }

  // ---------------------------------------------------------------------------
  // Properties of the statements
  // ---------------------------------------------------------------------------

  /** A second lock on the same product changes nothing and reports failure,
      whatever the first one answered. */
  lemma LockIsIdempotent(s: Store, id: string)
    ensures var s1 := LockProductForPurchase(s, id).0;
            LockProductForPurchase(s1, id) == (s1, false)
  {
  }

  /** Appending a row never changes which row `.first()` finds for a session
      that already had one. */
  lemma {:induction false} FirstWithSessionStable(orders: seq<Order>, extra: Order, sessionId: string)
    requires HasSession(orders, sessionId)
    ensures FirstWithSession(orders + [extra], sessionId) == FirstWithSession(orders, sessionId)
  {
    if orders[0].stripeSessionId != sessionId {
      assert (orders + [extra])[1..] == orders[1..] + [extra];
      var k :| 0 <= k < |orders| && orders[k].stripeSessionId == sessionId;
      assert orders[1..][k - 1] == orders[k];
      FirstWithSessionStable(orders[1..], extra, sessionId);
    }
  }

  /** A session with no row yet is found, after the append, at the new row. */
  lemma {:induction false} FirstWithSessionAppended(orders: seq<Order>, extra: Order, sessionId: string)
    requires !HasSession(orders, sessionId) && extra.stripeSessionId == sessionId
    ensures FirstWithSession(orders + [extra], sessionId) == Some(extra)
  {
    if |orders| == 0 {
      assert orders + [extra] == [extra];
    } else {
      assert (orders + [extra])[1..] == orders[1..] + [extra];
      assert forall i :: 0 <= i < |orders[1..]| ==> orders[1..][i] == orders[i + 1];
      FirstWithSessionAppended(orders[1..], extra, sessionId);
    }
  }

  /** After `createOrder(o)` succeeds, `getOrderBySessionId(o.stripe_session_id)`
      is not null; when the session had no row before, it is the new row. */
  lemma CreateOrderThenFind(s: Store, o: Order, now: int)
    requires CreateOrder(s, o, now).Ok?
    ensures var (s', row) := CreateOrder(s, o, now).value;
            && GetOrderBySessionId(s', o.stripeSessionId).Some?
            && (!HasSession(s.orders, o.stripeSessionId) ==>
                  GetOrderBySessionId(s', o.stripeSessionId) == Some(row)
                  && row.id == o.id)
            && (HasSession(s.orders, o.stripeSessionId) ==>
                  GetOrderBySessionId(s', o.stripeSessionId) == GetOrderBySessionId(s, o.stripeSessionId))
  {
    var (s', row) := CreateOrder(s, o, now).value;
    if HasSession(s.orders, o.stripeSessionId) {
      FirstWithSessionStable(s.orders, row, o.stripeSessionId);
    } else {
      FirstWithSessionAppended(s.orders, row, o.stripeSessionId);
    }
  }

  /** After `createProduct(p)` succeeds, `getProductById(p.id)` returns the
      inserted row: the caller's fields, created now, not yet sold. */
  lemma CreateProductThenGet(s: Store, p: Product, now: int)
    requires p.id !in s.products
    ensures var s' := CreateProduct(s, p, now).value.0;
            && GetProductById(s', p.id) == Some(p.(createdAt := now, soldAt := None))
            && GetProductById(s', p.id).value.status == p.status
  {
  }

  /** The listing columns a product keeps for life: everything but `status`
      and `sold_at`. */
  predicate SameListing(a: Product, b: Product) {
    && a.id == b.id && a.title == b.title && a.description == b.description
    && a.mockupImageUrl == b.mockupImageUrl && a.printfulProductId == b.printfulProductId
    && a.variants == b.variants && a.createdAt == b.createdAt
  }

  /** `s'` is a later state of `s`: no product disappears or changes its listing,
      a sold product stays sold, and existing order rows keep their id, session
      and product. */
  ghost predicate Evolves(s: Store, s': Store) {
    && (forall id :: id in s.products ==>
          && id in s'.products
          && SameListing(s.products[id], s'.products[id])
          && (s.products[id].status == Sold ==> s'.products[id].status == Sold))
    && |s.orders| <= |s'.orders|
    && (forall i :: 0 <= i < |s.orders| ==>
          && s'.orders[i].id == s.orders[i].id
          && s'.orders[i].stripeSessionId == s.orders[i].stripeSessionId
          && s'.orders[i].productId == s.orders[i].productId)
  }

  lemma EvolvesTransitive(s1: Store, s2: Store, s3: Store)
    requires Evolves(s1, s2) && Evolves(s2, s3)
    ensures Evolves(s1, s3)
  {
  }

  /** Every write statement of the data layer, as data. */
  datatype StoreOp =
    | CreateProductOp(product: Product, now: int)
    | MarkSoldOp(id: string, now: int)
    | LockOp(id: string)
    | CreateOrderOp(order: Order, now: int)
    | UpdateOrderOp(orderId: string, printfulOrderId: string, now: int)

  /** Runs one statement; a failed INSERT leaves the store as it was. */
  function Apply(s: Store, op: StoreOp): Store {
    match op
    case CreateProductOp(p, now) =>
      var r := CreateProduct(s, p, now); if r.Ok? then r.value.0 else s
    case MarkSoldOp(id, now) => MarkProductAsSold(s, id, now)
    case LockOp(id) => LockProductForPurchase(s, id).0
    case CreateOrderOp(o, now) =>
      var r := CreateOrder(s, o, now); if r.Ok? then r.value.0 else s
    case UpdateOrderOp(orderId, pf, now) => UpdateOrderPrintfulId(s, orderId, pf, now)
  }

  function ApplyAll(s: Store, ops: seq<StoreOp>): Store
    decreases |ops|
  {
    if |ops| == 0 then s else ApplyAll(Apply(s, ops[0]), ops[1..])
  }

  /** Every statement keeps both primary keys intact. */
  lemma ApplyPreservesValid(s: Store, op: StoreOp)
    requires Valid(s)
    ensures Valid(Apply(s, op))
  {
    if op.CreateOrderOp? {
      var r := CreateOrder(s, op.order, op.now);
      if r.Ok? {
        var s' := r.value.0;
        forall i, j | 0 <= i < j < |s'.orders| ensures s'.orders[i].id != s'.orders[j].id {
          if j == |s.orders| {
            assert s'.orders[i] == s.orders[i];
          }
        }
      }
    } else if op.UpdateOrderOp? {
      var s' := Apply(s, op);
      forall i, j | 0 <= i < j < |s'.orders| ensures s'.orders[i].id != s'.orders[j].id {
        assert s'.orders[i].id == s.orders[i].id && s'.orders[j].id == s.orders[j].id;
      }
    }
  }

  /** Every statement moves the store forward: nothing is deleted, no listing
      changes, and no statement sets a sold product back to available. */
  lemma ApplyEvolves(s: Store, op: StoreOp)
    ensures Evolves(s, Apply(s, op))
  {
  }

  /** The same for any sequence of statements: once sold, always sold. */
  lemma {:induction false} ApplyAllEvolves(s: Store, ops: seq<StoreOp>)
    ensures Evolves(s, ApplyAll(s, ops))
    decreases |ops|
  {
    if |ops| > 0 {
      ApplyEvolves(s, ops[0]);
      ApplyAllEvolves(Apply(s, ops[0]), ops[1..]);
      EvolvesTransitive(s, Apply(s, ops[0]), ApplyAll(s, ops));
    }
  }

  /** A product available after any sequence of statements was available (or
      did not exist) before it: `status` only moves from available to sold. */
  lemma NeverBackToAvailable(s: Store, ops: seq<StoreOp>, id: string)
    requires id in s.products && s.products[id].status == Sold
    ensures id in ApplyAll(s, ops).products && ApplyAll(s, ops).products[id].status == Sold
  {
    ApplyAllEvolves(s, ops);
  }
}
