/** The records of the shop: products, orders and the Printful variant pairs
    stored with each product. Field names follow the source's columns in
    Dafny's camel case. */
module Types {
  import opened Wrappers

  /** `'available' | 'sold'`. */
  datatype ProductStatus = Available | Sold

  /** `'paid' | 'fulfilled' | 'failed'`. */
  datatype OrderStatus = Paid | Fulfilled | Failed

  /** One purchasable size of a product and the Printful variant that prints it.
      The source stores a JSON array of these; the model keeps the sequence. */
  datatype PrintfulVariant = PrintfulVariant(size: string, variantId: string)

  /** A one-of-a-kind product row. `soldAt` is `None` until something sets it. */
  datatype Product = Product(
    id: string,
    title: string,
    description: string,
    mockupImageUrl: string,
    printfulProductId: string,
    variants: seq<PrintfulVariant>,
    status: ProductStatus,
    createdAt: int,
    soldAt: Option<int>)

  /** An order row, keyed by `id` and looked up by `stripeSessionId`. */
  datatype Order = Order(
    id: string,
    stripeSessionId: string,
    stripePaymentIntentId: Option<string>,
    productId: string,
    customerEmail: string,
    shippingName: string,
    shippingLine1: string,
    shippingLine2: Option<string>,
    shippingCity: string,
    shippingState: Option<string>,
    shippingPostalCode: string,
    shippingCountry: string,
    selectedSize: string,
    status: OrderStatus,
    printfulOrderId: Option<string>,
    createdAt: int,
    updatedAt: int)

  /** JavaScript's `x || undefined` and `x || null` on an optional string:
      the empty string is falsy, so it becomes absent as well. */
  function OrAbsent(x: Option<string>): (r: Option<string>)
    ensures r.None? <==> (x.None? || x.value == "")
    ensures r.Some? ==> r == x
  {
    if x.Some? && x.value != "" then x else None
  }

  /** JavaScript truthiness of an optional string (`!x` is its negation). */
  predicate Present(x: Option<string>) {
    x.Some? && x.value != ""
  }

  /** The first variant whose size equals `size` (`variants.find(v => v.size === size)`).
      Checkout and the webhook both decide size membership with this one search. */
  function FindVariant(variants: seq<PrintfulVariant>, size: string): (r: Option<PrintfulVariant>)
    ensures r.Some? <==> exists i :: 0 <= i < |variants| && variants[i].size == size
    ensures r.Some? ==> exists i :: 0 <= i < |variants| && variants[i] == r.value
                                   && r.value.size == size
                                   && forall j :: 0 <= j < i ==> variants[j].size != size
  {
    if |variants| == 0 then None
    else if variants[0].size == size then Some(variants[0])
    else
      var rest := FindVariant(variants[1..], size);
      if rest.Some? then
        ghost var k :| 0 <= k < |variants[1..]| && variants[1..][k] == rest.value
                       && rest.value.size == size
                       && forall j :: 0 <= j < k ==> variants[1..][j].size != size;
        assert variants[k + 1] == rest.value;
        rest
      else
        rest
  }
}
