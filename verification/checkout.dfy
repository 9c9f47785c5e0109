/** The checkout route: validates `{productId, selectedSize}` against the store
    and only then asks Stripe for a Checkout Session carrying both as
    metadata. It reads the store and never writes it. */
module Checkout {
  import opened Wrappers
  import opened Types
  import opened Store
  import Webhook

  /** The parsed JSON body; a field that is absent or not a string is `None`. */
  datatype CheckoutRequest = CheckoutRequest(productId: Option<string>, selectedSize: Option<string>)

  /** The validation verdict, in the order the checks run. */
  datatype Decision =
    | MissingFields
    | ProductNotFound
    | ProductGone
    | InvalidSize
    | Proceed(product: Product, selectedSize: string)

  function DecisionStatus(d: Decision): int {
    match d
    case MissingFields => 400
    case ProductNotFound => 404
    case ProductGone => 410
    case InvalidSize => 400
    case Proceed(_, _) => 200
  }

  /** The validation chain of the checkout `POST`, as a pure function of the
      request and the store. The first failing check decides. */
  function Validate(req: CheckoutRequest, db: Store): (d: Decision)
    ensures d == MissingFields <==> !Present(req.productId) || !Present(req.selectedSize)
    ensures d == ProductNotFound <==>
      Present(req.productId) && Present(req.selectedSize) && req.productId.value !in db.products
    ensures d == ProductGone <==>
      && Present(req.productId) && Present(req.selectedSize)
      && req.productId.value in db.products
      && db.products[req.productId.value].status != Available
    ensures d == InvalidSize <==>
      && Present(req.productId) && Present(req.selectedSize)
      && IsAvailable(db, req.productId.value)
      && FindVariant(db.products[req.productId.value].variants, req.selectedSize.value).None?
    ensures d.Proceed? <==>
      && Present(req.productId) && Present(req.selectedSize)
      && IsAvailable(db, req.productId.value)
      && FindVariant(db.products[req.productId.value].variants, req.selectedSize.value).Some?
    ensures d.Proceed? ==>
      d.product == db.products[req.productId.value] && d.selectedSize == req.selectedSize.value
  {
    if !Present(req.productId) || !Present(req.selectedSize) then MissingFields
    else
      match GetProductById(db, req.productId.value)
      case None => ProductNotFound
      case Some(product) =>
        if product.status != Available then ProductGone
        else if FindVariant(product.variants, req.selectedSize.value).None? then InvalidSize
        else Proceed(product, req.selectedSize.value)
  }

  /** The arguments of `createCheckoutSession`. */
  datatype SessionParams = SessionParams(
    productId: string,
    productTitle: string,
    selectedSize: string,
    successUrl: string,
    cancelUrl: string)

  const DefaultBaseUrl: string := "http://localhost:3000"

  /** `NEXT_PUBLIC_BASE_URL || 'http://localhost:3000'`. */
  function BaseUrl(baseUrlEnv: string): (u: string)
    ensures baseUrlEnv != "" ==> u == baseUrlEnv
    ensures baseUrlEnv == "" ==> u == DefaultBaseUrl
  {
    if baseUrlEnv != "" then baseUrlEnv else DefaultBaseUrl
  }

  datatype CheckoutResponse =
    | SessionCreated(sessionId: string)
    | Rejected(decision: Decision)
    | ServerError

  function ResponseStatus(r: CheckoutResponse): int {
    match r
    case SessionCreated(_) => 200
    case Rejected(d) => DecisionStatus(d)
    case ServerError => 500
  }

  /** The response, and the Stripe call made if validation passed. */
  datatype CheckoutResult = CheckoutResult(response: CheckoutResponse, stripeCall: Option<SessionParams>)

  /** The checkout `POST`. `body` is `None` when the JSON does not parse;
      `db` is `None` without a database binding; `baseUrlEnv` is
      `NEXT_PUBLIC_BASE_URL` (empty when unset); `stripeReply` is the session
      id Stripe returns, `None` where the SDK throws. Everything thrown is 500. */
  function Post(body: Option<CheckoutRequest>, db: Option<Store>, baseUrlEnv: string,
                stripeReply: Option<string>): (r: CheckoutResult)
    ensures body.None? ==> r == CheckoutResult(ServerError, None)
    ensures body.Some? && (!Present(body.value.productId) || !Present(body.value.selectedSize)) ==>
      r == CheckoutResult(Rejected(MissingFields), None)
    ensures body.Some? && Present(body.value.productId) && Present(body.value.selectedSize) && db.None? ==>
      r == CheckoutResult(ServerError, None)
    ensures body.Some? && db.Some? && !Validate(body.value, db.value).Proceed? ==>
      r == CheckoutResult(Rejected(Validate(body.value, db.value)), None)
    ensures r.stripeCall.Some? <==> body.Some? && db.Some? && Validate(body.value, db.value).Proceed?
    ensures r.stripeCall.Some? ==>
      && r.stripeCall.value.productId == db.value.products[body.value.productId.value].id
      && (Valid(db.value) ==> r.stripeCall.value.productId == body.value.productId.value)
      && r.stripeCall.value.selectedSize == body.value.selectedSize.value
      && r.stripeCall.value.productTitle == db.value.products[body.value.productId.value].title
    ensures r.response.SessionCreated? <==> r.stripeCall.Some? && stripeReply.Some?
    ensures r.stripeCall.Some? && stripeReply.None? ==> r.response == ServerError
    ensures r.response.SessionCreated? ==> r.response.sessionId == stripeReply.value
    ensures r.stripeCall.Some? ==>
      && r.stripeCall.value.successUrl == BaseUrl(baseUrlEnv) + "/success?session_id={CHECKOUT_SESSION_ID}"
      && r.stripeCall.value.cancelUrl == BaseUrl(baseUrlEnv) + "/product/" + body.value.productId.value
    ensures ResponseStatus(r.response) == 404 <==>
      && body.Some? && Present(body.value.productId) && Present(body.value.selectedSize) && db.Some?
      && body.value.productId.value !in db.value.products
    ensures ResponseStatus(r.response) == 410 <==>
      && body.Some? && Present(body.value.productId) && Present(body.value.selectedSize) && db.Some?
      && body.value.productId.value in db.value.products
      && db.value.products[body.value.productId.value].status != Available
    ensures ResponseStatus(r.response) == 400 <==>
      && body.Some?
      && (|| !Present(body.value.productId) || !Present(body.value.selectedSize)
          || (db.Some? && Validate(body.value, db.value) == InvalidSize))
    ensures ResponseStatus(r.response) == 500 <==>
      || body.None?
      || (Present(body.value.productId) && Present(body.value.selectedSize) && db.None?)
      || (r.stripeCall.Some? && stripeReply.None?)
  {
    if body.None? then CheckoutResult(ServerError, None)
    else
      var req := body.value;
      if !Present(req.productId) || !Present(req.selectedSize) then CheckoutResult(Rejected(MissingFields), None)
      else if db.None? then CheckoutResult(ServerError, None)
      else
        var decision := Validate(req, db.value);
        if !decision.Proceed? then CheckoutResult(Rejected(decision), None)
        else
          var baseUrl := BaseUrl(baseUrlEnv);
          var params := SessionParams(decision.product.id, decision.product.title, decision.selectedSize,
                                      baseUrl + "/success?session_id={CHECKOUT_SESSION_ID}",
                                      baseUrl + "/product/" + req.productId.value);
          if stripeReply.None? then CheckoutResult(ServerError, Some(params))
          else CheckoutResult(SessionCreated(stripeReply.value), Some(params))
  }

  /** Checkout and the webhook decide size membership with the same search:
      a size checkout accepted is found by the webhook's lookup in the same
      variant list, and it is the same variant. */
  lemma AcceptedSizeIsFoundByWebhook(req: CheckoutRequest, db: Store)
    requires Validate(req, db).Proceed?
    ensures var d := Validate(req, db);
            FindVariant(d.product.variants, d.selectedSize).Some?
  {
  }

  /** A checkout that passed validation leads to a Printful submission when
      its session completes, provided the product is still available then and
      no order exists for the session: the variant list cannot have changed
      in between, because no statement of the data layer rewrites it. */
  lemma AcceptedCheckoutReachesPrintful(req: CheckoutRequest, db: Store, later: Store,
                                        s: Webhook.CheckoutSession, x: Webhook.Externals)
    requires Validate(req, db).Proceed?
    requires Evolves(db, later)
    requires s.metadata == Webhook.Metadata(req.productId.value, req.selectedSize.value)
    requires IsAvailable(later, req.productId.value)
    requires !HasSession(later.orders, s.id)
    ensures Webhook.HandleCheckoutCompleted(later, s, x).submitted.Some?
  {
    assert SameListing(db.products[req.productId.value], later.products[req.productId.value]);
  }

  /** The metadata Stripe carries to the webhook is the validated pair. */
  lemma StripeMetadataIsValidatedPair(body: Option<CheckoutRequest>, db: Option<Store>, baseUrlEnv: string,
                                      stripeReply: Option<string>)
    requires Post(body, db, baseUrlEnv, stripeReply).stripeCall.Some?
    requires Valid(db.value)
    ensures var p := Post(body, db, baseUrlEnv, stripeReply).stripeCall.value;
            && IsAvailable(db.value, p.productId)
            && FindVariant(db.value.products[p.productId].variants, p.selectedSize).Some?
  {
  }
}
