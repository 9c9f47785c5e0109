/** The Printful size tables, the sync-variant list sent when a product is
    created, and the order request the webhook submits. Requests themselves are
    not sent: the model returns them, and Printful's reply is an input. */
module Printful {
  import opened Wrappers
  import opened Types

  /** Printful's base product `71` (Bella+Canvas 3001): size to catalog variant. */
  const BellaCanvas3001: map<string, string> :=
    map["S" := "4012", "M" := "4013", "L" := "4014", "XL" := "4015", "2XL" := "4016"]

  /** Base product id to its size table. */
  const VariantMaps: map<string, map<string, string>> := map["71" := BellaCanvas3001]

  /** Catalog variant back to size. */
  const IdToSize: map<string, string> :=
    map["4012" := "S", "4013" := "M", "4014" := "L", "4015" := "XL", "4016" := "2XL"]

  const SupportedSizes: set<string> := {"S", "M", "L", "XL", "2XL"}

  /** What `getVariantIdForSize` throws. */
  datatype PrintfulError =
    | UnknownVariant(baseProductId: string, size: string)
    | RequestFailed

  /** `getVariantIdForSize`: the catalog variant for `size` of the base
      product, or an error when the base product or the size is unknown (a
      table entry that is the empty string would count as unknown too). */
  function VariantIdForSize(baseProductId: string, size: string): (r: Result<string, PrintfulError>)
    ensures r.Ok? <==> baseProductId == "71" && size in SupportedSizes
    ensures r.Err? ==> r.error == UnknownVariant(baseProductId, size)
    ensures baseProductId == "71" ==>
      && (size == "S" ==> r == Ok("4012"))
      && (size == "M" ==> r == Ok("4013"))
      && (size == "L" ==> r == Ok("4014"))
      && (size == "XL" ==> r == Ok("4015"))
      && (size == "2XL" ==> r == Ok("4016"))
  {
    if baseProductId !in VariantMaps then Err(UnknownVariant(baseProductId, size))
    else
      var table := VariantMaps[baseProductId];
      if size !in table || table[size] == "" then Err(UnknownVariant(baseProductId, size))
      else Ok(table[size])
  }

  /** `getSizeFromVariantId` with the table read as a map of own entries:
      the size, or `"Unknown"` for any id outside the five-entry table. The
      source's object lookup also sees inherited members; see
      `SizeFromVariantIdAsWritten`. */
  function SizeFromVariantId(variantId: string): (r: string)
    ensures variantId !in IdToSize ==> r == "Unknown"
    ensures variantId in IdToSize ==> r in SupportedSizes
  {
    if variantId in IdToSize && IdToSize[variantId] != "" then IdToSize[variantId] else "Unknown"
  }

  /** The two tables are inverse: every supported size survives the round
      trip, and every known variant id does too. */
  lemma TablesAreInverse()
    ensures forall size :: size in SupportedSizes ==>
      VariantIdForSize("71", size).Ok? && SizeFromVariantId(VariantIdForSize("71", size).value) == size
    ensures forall id :: id in IdToSize ==>
      VariantIdForSize("71", SizeFromVariantId(id)) == Ok(id)
  {
  }

  /** Distinct sizes get distinct catalog variants. */
  lemma VariantIdForSizeInjective(a: string, b: string)
    requires VariantIdForSize("71", a).Ok? && VariantIdForSize("71", b).Ok?
    requires a != b
    ensures VariantIdForSize("71", a).value != VariantIdForSize("71", b).value
  {
  }

  // ---------------------------------------------------------------------------
  // Finding: JavaScript object lookup sees Object.prototype
  // ---------------------------------------------------------------------------

  /** The members every plain object literal inherits from `Object.prototype`;
      `obj[key]` finds them when the object has no own entry `key`. All are
      functions or objects, so all are truthy. */
  const ObjectPrototypeKeys: set<string> := {
    "constructor", "toString", "toLocaleString", "valueOf", "hasOwnProperty",
    "isPrototypeOf", "propertyIsEnumerable", "__proto__", "__defineGetter__",
    "__defineSetter__", "__lookupGetter__", "__lookupSetter__"}

  /** What `obj[key]` can yield on a `Record<string, string>` literal. */
  datatype JsValue = JsString(s: string) | JsInherited(member: string)

  /** `table[key]` on an object literal: the own entry, else an inherited
      member, else `undefined` (`None`). */
  function RecordGet(table: map<string, string>, key: string): Option<JsValue> {
    if key in table then Some(JsString(table[key]))
    else if key in ObjectPrototypeKeys then Some(JsInherited(key))
    else None
  }

  function Truthy(v: Option<JsValue>): bool {
    match v
    case None => false
    case Some(JsString(s)) => s != ""
    case Some(JsInherited(_)) => true
  }

  /** `idToSize[variantId] || 'Unknown'` exactly as JavaScript evaluates it. */
  function SizeFromVariantIdAsWritten(variantId: string): (r: JsValue)
    ensures variantId !in IdToSize && variantId !in ObjectPrototypeKeys ==> r == JsString("Unknown")
    ensures variantId in ObjectPrototypeKeys ==> r == JsInherited(variantId)
  {
    var v := RecordGet(IdToSize, variantId);
    if Truthy(v) then v.value else JsString("Unknown")
  }

  /** The input that shows it: `"toString"` is outside the table, yet the
      lookup answers with the inherited function instead of `"Unknown"`. */
  lemma InheritedKeyEscapesFallback()
    ensures "toString" !in IdToSize
    ensures SizeFromVariantIdAsWritten("toString") != JsString("Unknown")
    ensures SizeFromVariantId("toString") == "Unknown"
  {
  }

  /** Away from the inherited names the code as written and the corrected
      lookup agree. */
  lemma AsWrittenAgreesOffPrototype(variantId: string)
    requires variantId !in ObjectPrototypeKeys
    ensures SizeFromVariantIdAsWritten(variantId) == JsString(SizeFromVariantId(variantId))
  {
  }

  // ---------------------------------------------------------------------------
  // createPrintfulProduct
  // ---------------------------------------------------------------------------

  datatype DesignFile = DesignFile(id: string, fileType: string)

  /** One entry of `sync_variants` in the create-product request. */
  datatype SyncVariantRequest = SyncVariantRequest(retailPrice: string, variantId: string, files: seq<DesignFile>)

  const RetailPrice: string := "35.00"

  /** The sync variant sent for one supported size. */
  function SyncVariantFor(catalogVariantId: string, designFileId: string): SyncVariantRequest {
    SyncVariantRequest(RetailPrice, catalogVariantId, [DesignFile(designFileId, "default")])
  }

  /** Index of the first size the base product does not offer, if any. */
  function FirstUnsupported(baseProductId: string, sizes: seq<string>): (r: Option<nat>)
    ensures r.None? <==> forall i :: 0 <= i < |sizes| ==> VariantIdForSize(baseProductId, sizes[i]).Ok?
    ensures r.Some? ==>
      && r.value < |sizes|
      && VariantIdForSize(baseProductId, sizes[r.value]).Err?
      && forall i :: 0 <= i < r.value ==> VariantIdForSize(baseProductId, sizes[i]).Ok?
  {
    if |sizes| == 0 then None
    else if VariantIdForSize(baseProductId, sizes[0]).Err? then Some(0)
    else
      var rest := FirstUnsupported(baseProductId, sizes[1..]);
      if rest.Some? then Some(rest.value + 1)
      else
        assert forall i :: 1 <= i < |sizes| ==> sizes[i] == sizes[1..][i - 1];
        None
  }

  /** `availableSizes.map(size => ({retail_price: '35.00', variant_id: …, files: […]}))`:
      one sync variant per size, in order. The map throws at the first size the
      base product does not offer, so no request is built at all. */
  function SyncVariants(baseProductId: string, designFileId: string, sizes: seq<string>)
    : (r: Result<seq<SyncVariantRequest>, PrintfulError>)
    ensures r.Ok? <==> FirstUnsupported(baseProductId, sizes).None?
    ensures r.Err? ==> r.error == UnknownVariant(baseProductId, sizes[FirstUnsupported(baseProductId, sizes).value])
    ensures r.Ok? ==> |r.value| == |sizes|
    ensures r.Ok? ==> forall i :: 0 <= i < |sizes| ==>
      && r.value[i].retailPrice == RetailPrice
      && r.value[i].files == [DesignFile(designFileId, "default")]
      && VariantIdForSize(baseProductId, sizes[i]) == Ok(r.value[i].variantId)
  {
    if |sizes| == 0 then Ok([])
    else
      var head := VariantIdForSize(baseProductId, sizes[0]);
      if head.Err? then Err(head.error)
      else
        var rest := SyncVariants(baseProductId, designFileId, sizes[1..]);
        if rest.Err? then Err(rest.error)
        else
          assert forall i :: 1 <= i < |sizes| ==> sizes[i] == sizes[1..][i - 1];
          Ok([SyncVariantFor(head.value, designFileId)] + rest.value)
  }

  /** The create-product request body. */
  datatype CreateProductRequest = CreateProductRequest(name: string, syncVariants: seq<SyncVariantRequest>)

  /** One sync variant of Printful's reply: the catalog variant it prints and
      its own sync-variant id. */
  datatype SyncVariantReply = SyncVariantReply(variantId: string, id: string)

  /** Printful's reply to the create-product request. */
  datatype CreateProductReply = CreateProductReply(syncProductId: string, syncVariants: seq<SyncVariantReply>)

  datatype CreatedProduct = CreatedProduct(productId: string, variants: seq<PrintfulVariant>)

  /** The variant list the reply is turned into: each sync variant's size is
      read back from its catalog variant. */
  function VariantsFromReply(replies: seq<SyncVariantReply>): (r: seq<PrintfulVariant>)
    ensures |r| == |replies|
    ensures forall i :: 0 <= i < |replies| ==>
      r[i] == PrintfulVariant(SizeFromVariantId(replies[i].variantId), replies[i].id)
  {
    if |replies| == 0 then []
    else [PrintfulVariant(SizeFromVariantId(replies[0].variantId), replies[0].id)] + VariantsFromReply(replies[1..])
  }

  /** `createPrintfulProduct`: builds the request (failing before anything is
      sent when a size is unsupported), then turns Printful's reply into the
      product's variant list. `reply` is `None` when the request throws. The
      first component is the request that was sent, if any. */
  function CreatePrintfulProduct(title: string, baseProductId: string, designFileId: string,
                                 sizes: seq<string>, reply: Option<CreateProductReply>)
    : (r: (Option<CreateProductRequest>, Result<CreatedProduct, PrintfulError>))
    ensures r.0.None? <==> FirstUnsupported(baseProductId, sizes).Some?
    ensures r.0.None? ==> r.1 == Err(UnknownVariant(baseProductId, sizes[FirstUnsupported(baseProductId, sizes).value]))
    ensures r.0.Some? ==> r.0.value.name == title && |r.0.value.syncVariants| == |sizes|
    ensures r.1.Ok? <==> r.0.Some? && reply.Some?
    ensures r.0.Some? ==> r.0.value.syncVariants == SyncVariants(baseProductId, designFileId, sizes).value
    ensures r.1.Ok? ==> r.1.value.productId == reply.value.syncProductId
                        && |r.1.value.variants| == |reply.value.syncVariants|
    ensures r.1.Ok? ==> r.1.value.variants == VariantsFromReply(reply.value.syncVariants)
  {
    var variants := SyncVariants(baseProductId, designFileId, sizes);
    if variants.Err? then (None, Err(variants.error))
    else
      var request := CreateProductRequest(title, variants.value);
      match reply
      case None => (Some(request), Err(RequestFailed))
      case Some(rep) => (Some(request), Ok(CreatedProduct(rep.syncProductId, VariantsFromReply(rep.syncVariants))))
  }

  /** When Printful echoes the catalog variants it was sent, in order, the
      product's variant list has exactly the sizes the admin asked for. */
  lemma {:induction false} CreatedSizesMatchRequested(title: string, designFileId: string,
                                                     sizes: seq<string>, rep: CreateProductReply)
    requires FirstUnsupported("71", sizes).None?
    requires |rep.syncVariants| == |sizes|
    requires forall i :: 0 <= i < |sizes| ==>
      rep.syncVariants[i].variantId == SyncVariants("71", designFileId, sizes).value[i].variantId
    ensures var created := CreatePrintfulProduct(title, "71", designFileId, sizes, Some(rep)).1.value;
            forall i :: 0 <= i < |sizes| ==> created.variants[i].size == sizes[i]
  {
    var created := CreatePrintfulProduct(title, "71", designFileId, sizes, Some(rep)).1.value;
    var sent := SyncVariants("71", designFileId, sizes).value;
    forall i | 0 <= i < |sizes| ensures created.variants[i].size == sizes[i] {
      assert VariantIdForSize("71", sizes[i]) == Ok(sent[i].variantId);
      TablesAreInverse();
    }
  }

  // ---------------------------------------------------------------------------
  // createPrintfulOrder
  // ---------------------------------------------------------------------------

  datatype Recipient = Recipient(
    name: string,
    address1: string,
    address2: Option<string>,
    city: string,
    stateCode: Option<string>,
    countryCode: string,
    zip: string)

  datatype OrderItem = OrderItem(variantId: string, quantity: nat)

  /** The body of `createPrintfulOrder`. */
  datatype OrderRequest = OrderRequest(recipient: Recipient, items: seq<OrderItem>)

  /** Printful's answer to an order submission: its order id, or a failure
      (HTTP error, missing API key, network). */
  datatype OrderReply = Accepted(orderId: string) | Rejected
}
