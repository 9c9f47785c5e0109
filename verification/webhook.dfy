/** The Stripe webhook: `POST` checks the signature header, the secret and the
    database binding, dispatches on the event type, and for
    `checkout.session.completed` runs the finaliser `handleCheckoutCompleted`:
    idempotency lookup, lock, product read, variant lookup, Printful
    submission, order insert. */
module Webhook {
  import opened Wrappers
  import opened Types
  import opened Store
  import opened Printful

  // ---------------------------------------------------------------------------
  // The event payload
  // ---------------------------------------------------------------------------

  datatype Address = Address(
    line1: string,
    line2: Option<string>,
    city: string,
    state: Option<string>,
    postalCode: string,
    country: string)

  datatype ShippingDetails = ShippingDetails(name: string, address: Address)

  /** The metadata checkout attached to the Stripe session. */
  datatype Metadata = Metadata(productId: string, selectedSize: string)

  /** The fields of a completed Checkout Session the handler reads. */
  datatype CheckoutSession = CheckoutSession(
    id: string,
    metadata: Metadata,
    customerEmail: string,
    shipping: ShippingDetails,
    paymentIntent: Option<string>)

  /** A verified Stripe event. Only the completed-session type reads the payload. */
  datatype Event = Event(eventType: string, session: CheckoutSession)

  const CheckoutSessionCompleted: string := "checkout.session.completed"

  /** What the handler draws from outside the store for one run: Printful's
      reply to the submission, the order id built from `Date.now()` and
      `Math.random()`, and the database clock. */
  datatype Externals = Externals(printful: OrderReply, orderId: string, now: int)

  /** What `handleCheckoutCompleted` throws. */
  datatype HandlerError =
    | ProductUnavailable(productId: string)
    | ProductNotFound(productId: string)
    | VariantNotFound(size: string)
    | FulfilmentFailed
    | OrderInsertFailed(cause: StoreError)

  /** How a run that did not throw ended. */
  datatype Completion = AlreadyRecorded | OrderRecorded(order: Order) | Ignored

  /** One run: the store afterwards, the Printful request if one was sent
      (the call counter of the run is 0 or 1), and the outcome. The store is
      returned on failure too: a lock taken before the throw stays taken. */
  datatype Handled = Handled(store: Store, submitted: Option<OrderRequest>, outcome: Result<Completion, HandlerError>)

  // ---------------------------------------------------------------------------
  // Building the Printful request and the order row
  // ---------------------------------------------------------------------------

  /** The Printful order for a session: one item of the chosen variant,
      quantity 1, shipped to the session's address. An empty or missing second
      line or state is left out (`|| undefined`). */
  function PrintfulOrderFor(s: CheckoutSession, v: PrintfulVariant): (req: OrderRequest)
    ensures |req.items| == 1
    ensures req.items[0].variantId == v.variantId && req.items[0].quantity == 1
    ensures req.recipient.name == s.shipping.name
    ensures req.recipient.address1 == s.shipping.address.line1
    ensures req.recipient.city == s.shipping.address.city
    ensures req.recipient.countryCode == s.shipping.address.country
    ensures req.recipient.zip == s.shipping.address.postalCode
    ensures req.recipient.address2.None? <==> !Present(s.shipping.address.line2)
    ensures req.recipient.stateCode.None? <==> !Present(s.shipping.address.state)
    ensures req.recipient.address2.Some? ==> req.recipient.address2 == s.shipping.address.line2
    ensures req.recipient.stateCode.Some? ==> req.recipient.stateCode == s.shipping.address.state
  {
    var a := s.shipping.address;
    OrderRequest(
      Recipient(s.shipping.name, a.line1, OrAbsent(a.line2), a.city, OrAbsent(a.state), a.country, a.postalCode),
      [OrderItem(v.variantId, 1)])
  }

  /** The order row inserted after Printful accepted: status fulfilled, with
      Printful's order id; an empty or missing second line or state is stored
      as null (`|| null`). The timestamps are set by the insert. */
  function OrderRowFor(s: CheckoutSession, orderId: string, printfulOrderId: string): (o: Order)
    ensures o.id == orderId && o.stripeSessionId == s.id
    ensures o.productId == s.metadata.productId && o.selectedSize == s.metadata.selectedSize
    ensures o.status == Fulfilled && o.printfulOrderId == Some(printfulOrderId)
    ensures o.stripePaymentIntentId == s.paymentIntent && o.customerEmail == s.customerEmail
    ensures o.shippingName == s.shipping.name && o.shippingLine1 == s.shipping.address.line1
    ensures o.shippingCity == s.shipping.address.city
    ensures o.shippingPostalCode == s.shipping.address.postalCode && o.shippingCountry == s.shipping.address.country
    ensures o.shippingLine2.None? <==> !Present(s.shipping.address.line2)
    ensures o.shippingState.None? <==> !Present(s.shipping.address.state)
    ensures o.shippingLine2.Some? ==> o.shippingLine2 == s.shipping.address.line2
    ensures o.shippingState.Some? ==> o.shippingState == s.shipping.address.state
  {
    var a := s.shipping.address;
    Order(orderId, s.id, s.paymentIntent, s.metadata.productId, s.customerEmail,
          s.shipping.name, a.line1, OrAbsent(a.line2), a.city, OrAbsent(a.state),
          a.postalCode, a.country, s.metadata.selectedSize, Fulfilled, Some(printfulOrderId), 0, 0)
  }

  // ---------------------------------------------------------------------------
  // handleCheckoutCompleted
  // ---------------------------------------------------------------------------

  /** The store after a successful lock of `id`: only that product's status
      changed, to sold. */
  ghost predicate LockedOnly(db: Store, db': Store, id: string) {
    && id in db.products
    && db'.products.Keys == db.products.Keys
    && db'.products[id] == db.products[id].(status := Sold)
    && (forall other :: other in db.products && other != id ==> db'.products[other] == db.products[other])
  }

  /** `handleCheckoutCompleted`, step for step. */
  function HandleCheckoutCompleted(db: Store, s: CheckoutSession, x: Externals): (r: Handled)
    // Replaying a session that already has an order does nothing at all.
    ensures HasSession(db.orders, s.id) ==> r == Handled(db, None, Ok(AlreadyRecorded))
    // A failed lock (sold or missing product) throws before any side effect.
    ensures !HasSession(db.orders, s.id) && !IsAvailable(db, s.metadata.productId) ==>
      r == Handled(db, None, Err(ProductUnavailable(s.metadata.productId)))
    // Past the lock the product is sold, whatever happens next.
    ensures !HasSession(db.orders, s.id) && IsAvailable(db, s.metadata.productId) ==>
      LockedOnly(db, r.store, s.metadata.productId)
    // The lock precedes the variant lookup: an unknown size leaves the product sold.
    ensures !HasSession(db.orders, s.id) && IsAvailable(db, s.metadata.productId)
            && FindVariant(db.products[s.metadata.productId].variants, s.metadata.selectedSize).None? ==>
      && r.outcome == Err(VariantNotFound(s.metadata.selectedSize))
      && r.submitted.None? && r.store.orders == db.orders
    // Printful is called exactly when the lock was won and the size was found,
    // with the first variant of that size.
    ensures r.submitted.Some? <==>
      && !HasSession(db.orders, s.id)
      && IsAvailable(db, s.metadata.productId)
      && FindVariant(db.products[s.metadata.productId].variants, s.metadata.selectedSize).Some?
    ensures r.submitted.Some? ==>
      r.submitted.value == PrintfulOrderFor(s, FindVariant(db.products[s.metadata.productId].variants, s.metadata.selectedSize).value)
    // Only a success after Printful accepted writes an order, and exactly one.
    ensures r.outcome.Ok? && r.outcome.value.OrderRecorded? ==>
      && r.submitted.Some? && x.printful.Accepted?
      && r.store.orders == db.orders + [r.outcome.value.order]
      && r.outcome.value.order == OrderRowFor(s, x.orderId, x.printful.orderId).(createdAt := x.now, updatedAt := x.now)
    ensures !(r.outcome.Ok? && r.outcome.value.OrderRecorded?) ==> r.store.orders == db.orders
    // And conversely: Printful's acceptance with a fresh order id records the order;
    // an order id already taken makes the insert fail after Printful was called.
    ensures && !HasSession(db.orders, s.id)
            && IsAvailable(db, s.metadata.productId)
            && FindVariant(db.products[s.metadata.productId].variants, s.metadata.selectedSize).Some?
            && x.printful.Accepted? ==>
      r.outcome == (if HasOrderId(db.orders, x.orderId) then Err(OrderInsertFailed(DuplicateOrderId(x.orderId)))
                    else Ok(OrderRecorded(OrderRowFor(s, x.orderId, x.printful.orderId).(createdAt := x.now, updatedAt := x.now))))
    ensures r.outcome.Ok? ==> r.outcome.value != Ignored
    ensures r.submitted.Some? && x.printful.Rejected? ==> r.outcome == Err(FulfilmentFailed)
    ensures Evolves(db, r.store)
  {
    if GetOrderBySessionId(db, s.id).Some? then Handled(db, None, Ok(AlreadyRecorded))
    else
      var productId := s.metadata.productId;
      var selectedSize := s.metadata.selectedSize;
      var (locked, ok) := LockProductForPurchase(db, productId);
      if !ok then Handled(locked, None, Err(ProductUnavailable(productId)))
      else FulfilLocked(locked, s, x)
  }

  /** The part of `handleCheckoutCompleted` after the lock was won: read the
      product, find the variant, call Printful, insert the order. Every path
      keeps the products as they are. */
  function FulfilLocked(locked: Store, s: CheckoutSession, x: Externals): (r: Handled)
    ensures r.store.products == locked.products
    ensures r.submitted.Some? <==>
      && s.metadata.productId in locked.products
      && FindVariant(locked.products[s.metadata.productId].variants, s.metadata.selectedSize).Some?
    ensures r.submitted.Some? ==>
      r.submitted.value == PrintfulOrderFor(s, FindVariant(locked.products[s.metadata.productId].variants, s.metadata.selectedSize).value)
    ensures s.metadata.productId in locked.products
            && FindVariant(locked.products[s.metadata.productId].variants, s.metadata.selectedSize).None? ==>
      r.outcome == Err(VariantNotFound(s.metadata.selectedSize))
    ensures r.outcome.Ok? ==> r.outcome.value.OrderRecorded?
    ensures r.outcome.Ok? ==>
      && r.submitted.Some? && x.printful.Accepted?
      && r.store.orders == locked.orders + [r.outcome.value.order]
      && r.outcome.value.order == OrderRowFor(s, x.orderId, x.printful.orderId).(createdAt := x.now, updatedAt := x.now)
    ensures r.outcome.Err? ==> r.store == locked
    ensures && s.metadata.productId in locked.products
            && FindVariant(locked.products[s.metadata.productId].variants, s.metadata.selectedSize).Some?
            && x.printful.Accepted? ==>
      r.outcome == (if HasOrderId(locked.orders, x.orderId) then Err(OrderInsertFailed(DuplicateOrderId(x.orderId)))
                    else Ok(OrderRecorded(OrderRowFor(s, x.orderId, x.printful.orderId).(createdAt := x.now, updatedAt := x.now))))
    ensures r.submitted.Some? && x.printful.Rejected? ==> r.outcome == Err(FulfilmentFailed)
  {
    var productId := s.metadata.productId;
    var selectedSize := s.metadata.selectedSize;
    match GetProductById(locked, productId)
    case None => Handled(locked, None, Err(ProductNotFound(productId)))
    case Some(product) =>
      match FindVariant(product.variants, selectedSize)
      case None => Handled(locked, None, Err(VariantNotFound(selectedSize)))
      case Some(variant) =>
        var request := PrintfulOrderFor(s, variant);
        match x.printful
        case Rejected => Handled(locked, Some(request), Err(FulfilmentFailed))
        case Accepted(printfulOrderId) =>
          match CreateOrder(locked, OrderRowFor(s, x.orderId, printfulOrderId), x.now)
          case Err(e) => Handled(locked, Some(request), Err(OrderInsertFailed(e)))
          case Ok((stored, row)) => Handled(stored, Some(request), Ok(OrderRecorded(row)))
  }

  /** The `switch (event.type)`: only a completed checkout session touches
      anything; every other type is acknowledged and ignored. */
  function Dispatch(db: Store, e: Event, x: Externals): (r: Handled)
    ensures e.eventType != CheckoutSessionCompleted ==> r == Handled(db, None, Ok(Ignored))
    ensures e.eventType == CheckoutSessionCompleted ==> r == HandleCheckoutCompleted(db, e.session, x)
    ensures e.eventType == CheckoutSessionCompleted ==> r.outcome != Ok(Ignored)
    ensures Evolves(db, r.store)
  {
    if e.eventType == CheckoutSessionCompleted then HandleCheckoutCompleted(db, e.session, x)
    else Handled(db, None, Ok(Ignored))
  }

  // ---------------------------------------------------------------------------
  // POST
  // ---------------------------------------------------------------------------

  /** The raw request: its body and the `stripe-signature` header, if any. */
  datatype WebhookRequest = WebhookRequest(body: string, signature: Option<string>)

  /** Why `POST` answered 400. */
  datatype WebhookFailure =
    | MissingSignature
    | SecretNotConfigured
    | SignatureRejected
    | DatabaseUnavailable
    | HandlerFailed(error: HandlerError)

  datatype WebhookResponse = Received | BadRequest(failure: WebhookFailure)

  function StatusCode(r: WebhookResponse): int {
    if r.Received? then 200 else 400
  }

  /** The database afterwards (`None` when the request had no binding), the
      response, and the Printful request sent, if any. */
  datatype PostResult = PostResult(db: Option<Store>, response: WebhookResponse, submitted: Option<OrderRequest>)

  /** Whether the envelope passes every check before the dispatch. */
  predicate Admitted(req: WebhookRequest, webhookSecret: string,
                     verify: (string, string, string) -> Option<Event>, db: Option<Store>)
  {
    && Present(req.signature)
    && webhookSecret != ""
    && verify(req.body, req.signature.value, webhookSecret).Some?
    && db.Some?
  }

  /** `POST`. `webhookSecret` is `STRIPE_WEBHOOK_SECRET` (empty when unset);
      `verify` stands for Stripe's signature check, answering the parsed event
      or `None` where the library throws. Everything thrown becomes 400. */
  function Post(req: WebhookRequest, webhookSecret: string,
                verify: (string, string, string) -> Option<Event>,
                db: Option<Store>, x: Externals): (r: PostResult)
    ensures r.response == BadRequest(MissingSignature) <==> !Present(req.signature)
    ensures Present(req.signature) && webhookSecret == "" ==> r.response == BadRequest(SecretNotConfigured)
    ensures Present(req.signature) && webhookSecret != "" && verify(req.body, req.signature.value, webhookSecret).None? ==>
      r.response == BadRequest(SignatureRejected)
    ensures Present(req.signature) && webhookSecret != "" && verify(req.body, req.signature.value, webhookSecret).Some?
            && db.None? ==>
      r.response == BadRequest(DatabaseUnavailable)
    // A completed session answers exactly as the finaliser ended: 200 when it
    // did not throw, 400 with its error when it did.
    ensures Admitted(req, webhookSecret, verify, db)
            && verify(req.body, req.signature.value, webhookSecret).value.eventType == CheckoutSessionCompleted ==>
      var h := HandleCheckoutCompleted(db.value, verify(req.body, req.signature.value, webhookSecret).value.session, x);
      && r.db == Some(h.store)
      && r.submitted == h.submitted
      && (r.response == Received <==> h.outcome.Ok?)
      && (h.outcome.Err? ==> r.response == BadRequest(HandlerFailed(h.outcome.error)))
    ensures StatusCode(r.response) == 200 <==>
      && Admitted(req, webhookSecret, verify, db)
      && var e := verify(req.body, req.signature.value, webhookSecret).value;
         (e.eventType == CheckoutSessionCompleted ==> HandleCheckoutCompleted(db.value, e.session, x).outcome.Ok?)
    ensures !Admitted(req, webhookSecret, verify, db) ==>
      r.db == db && r.submitted.None? && r.response.BadRequest?
    ensures Admitted(req, webhookSecret, verify, db) ==>
      var e := verify(req.body, req.signature.value, webhookSecret).value;
      && (e.eventType != CheckoutSessionCompleted ==> r == PostResult(db, Received, None))
      && r.db.Some? && Evolves(db.value, r.db.value)
    ensures r.db != db || r.submitted.Some? ==>
      && Admitted(req, webhookSecret, verify, db)
      && verify(req.body, req.signature.value, webhookSecret).value.eventType == CheckoutSessionCompleted
  {
    if !Present(req.signature) then PostResult(db, BadRequest(MissingSignature), None)
    else if webhookSecret == "" then PostResult(db, BadRequest(SecretNotConfigured), None)
    else
      match verify(req.body, req.signature.value, webhookSecret)
      case None => PostResult(db, BadRequest(SignatureRejected), None)
      case Some(event) =>
        if db.None? then PostResult(db, BadRequest(DatabaseUnavailable), None)
        else
          var h := Dispatch(db.value, event, x);
          var response := if h.outcome.Ok? then Received else BadRequest(HandlerFailed(h.outcome.error));
          PostResult(Some(h.store), response, h.submitted)
  }

  // ---------------------------------------------------------------------------
  // Replays and races, one handler after another
  // ---------------------------------------------------------------------------

  /** Replaying a session after a run that did not throw finds its order and
      does nothing: same store, no Printful call. */
  lemma ReplayIsNoOp(db: Store, s: CheckoutSession, x1: Externals, x2: Externals)
    requires HandleCheckoutCompleted(db, s, x1).outcome.Ok?
    ensures var db1 := HandleCheckoutCompleted(db, s, x1).store;
            HandleCheckoutCompleted(db1, s, x2) == Handled(db1, None, Ok(AlreadyRecorded))
  {
    var r1 := HandleCheckoutCompleted(db, s, x1);
    if r1.outcome.value.OrderRecorded? {
      assert r1.store.orders[|db.orders|] == r1.outcome.value.order;
    }
  }

  /** A run that took the lock and then threw (no variant, Printful failure,
      failed insert) leaves no order; a redelivery of the same session then
      loses the lock and sends nothing. Fulfilment is never retried
      automatically. */
  lemma ReplayAfterFailureStaysUnfulfilled(db: Store, s: CheckoutSession, x1: Externals, x2: Externals)
    requires !HasSession(db.orders, s.id) && IsAvailable(db, s.metadata.productId)
    requires HandleCheckoutCompleted(db, s, x1).outcome.Err?
    ensures var db1 := HandleCheckoutCompleted(db, s, x1).store;
            HandleCheckoutCompleted(db1, s, x2) == Handled(db1, None, Err(ProductUnavailable(s.metadata.productId)))
  {
  }

  /** Two sessions for the same available product, one after the other: the
      first takes the lock and reaches Printful exactly when its size exists;
      the second fails at the lock without a Printful call. Read with the
      sessions swapped, it covers either order. */
  lemma TwoSessionsOneLock(db: Store, s1: CheckoutSession, s2: CheckoutSession, x1: Externals, x2: Externals)
    requires s1.id != s2.id
    requires s1.metadata.productId == s2.metadata.productId
    requires IsAvailable(db, s1.metadata.productId)
    requires !HasSession(db.orders, s1.id) && !HasSession(db.orders, s2.id)
    ensures var r1 := HandleCheckoutCompleted(db, s1, x1);
            var r2 := HandleCheckoutCompleted(r1.store, s2, x2);
            && r1.outcome != Err(ProductUnavailable(s1.metadata.productId))
            && (r1.submitted.Some? <==>
                  FindVariant(db.products[s1.metadata.productId].variants, s1.metadata.selectedSize).Some?)
            && r2 == Handled(r1.store, None, Err(ProductUnavailable(s2.metadata.productId)))
  {
    var r1 := HandleCheckoutCompleted(db, s1, x1);
    if r1.outcome.Ok? && r1.outcome.value.OrderRecorded? {
      assert r1.store.orders == db.orders + [r1.outcome.value.order];
      assert !HasSession(r1.store.orders, s2.id) by {
        forall i | 0 <= i < |r1.store.orders| ensures r1.store.orders[i].stripeSessionId != s2.id {
          if i < |db.orders| {
            assert r1.store.orders[i] == db.orders[i];
          }
        }
      }
    }
  }

  // ---------------------------------------------------------------------------
  // Any sequence of deliveries: at most one fulfilment per product
  // ---------------------------------------------------------------------------

  /** One delivered, verified event and the outside values its run sees. */
  datatype Delivery = Delivery(event: Event, x: Externals)

  /** A Printful submission, tagged with the product and session it was for. */
  datatype Fulfilment = Fulfilment(productId: string, sessionId: string, request: OrderRequest)

  /** How many submissions in `log` were for `productId`. */
  function FulfilmentsFor(log: seq<Fulfilment>, productId: string): nat {
    if |log| == 0 then 0
    else FulfilmentsFor(log[..|log| - 1], productId) + (if log[|log| - 1].productId == productId then 1 else 0)
  }

  /** Dispatches each delivery in turn, logging every Printful submission. */
  function Run(db: Store, log: seq<Fulfilment>, deliveries: seq<Delivery>): (Store, seq<Fulfilment>)
    decreases |deliveries|
  {
    if |deliveries| == 0 then (db, log)
    else
      var d := deliveries[0];
      var h := Dispatch(db, d.event, d.x);
      var log' := if h.submitted.Some? then log + [Fulfilment(d.event.session.metadata.productId, d.event.session.id, h.submitted.value)] else log;
      Run(h.store, log', deliveries[1..])
  }

  /** At most one submission per product, and a product with one is sold. */
  ghost predicate Exclusive(db: Store, log: seq<Fulfilment>) {
    forall productId ::
      && FulfilmentsFor(log, productId) <= 1
      && (FulfilmentsFor(log, productId) == 1 ==> productId in db.products && db.products[productId].status == Sold)
  }

  lemma DispatchKeepsExclusive(db: Store, log: seq<Fulfilment>, d: Delivery)
    requires Exclusive(db, log)
    ensures var h := Dispatch(db, d.event, d.x);
            var log' := if h.submitted.Some? then log + [Fulfilment(d.event.session.metadata.productId, d.event.session.id, h.submitted.value)] else log;
            Exclusive(h.store, log')
  {
    var h := Dispatch(db, d.event, d.x);
    var target := d.event.session.metadata.productId;
    if h.submitted.Some? {
      var log' := log + [Fulfilment(target, d.event.session.id, h.submitted.value)];
      assert log'[..|log'| - 1] == log;
      assert IsAvailable(db, target);
      assert FulfilmentsFor(log, target) == 0;
    }
  }

  lemma {:induction false} RunKeepsExclusive(db: Store, log: seq<Fulfilment>, deliveries: seq<Delivery>)
    requires Exclusive(db, log)
    ensures Exclusive(Run(db, log, deliveries).0, Run(db, log, deliveries).1)
    decreases |deliveries|
  {
    if |deliveries| > 0 {
      var d := deliveries[0];
      var h := Dispatch(db, d.event, d.x);
      var log' := if h.submitted.Some? then log + [Fulfilment(d.event.session.metadata.productId, d.event.session.id, h.submitted.value)] else log;
      DispatchKeepsExclusive(db, log, d);
      RunKeepsExclusive(h.store, log', deliveries[1..]);
    }
  }

  /** For any sequence of delivered events, of any types, with any Printful
      replies, redeliveries and session ids, each product is submitted to
      Printful at most once. */
  lemma AtMostOneFulfilmentPerProduct(db: Store, deliveries: seq<Delivery>, productId: string)
    ensures FulfilmentsFor(Run(db, [], deliveries).1, productId) <= 1
  {
    RunKeepsExclusive(db, [], deliveries);
  }
}
