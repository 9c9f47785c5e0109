# One-of-a-kind shop: purchase finalisation in Dafny

This project models the core of a Next.js shop on Cloudflare that sells
one-of-a-kind shirts. Each product can be bought once. After Stripe reports a
completed Checkout Session, the webhook must sell the product to exactly one
buyer and submit exactly one Printful print order.

The store is modelled as an immutable value. `products` is a map keyed by id.
`orders` is a sequence of rows in insertion order. Each SQL statement of
`src/lib/db.ts` is one function from a store to a new store, so each statement
is atomic. The lock `lockProductForPurchase` is the only compare-and-swap. It
runs `UPDATE … SET status = 'sold' WHERE id = ? AND status = 'available'` and
answers whether a row changed.

The modules follow the source files:

- `types.dfy` (`Types`): the product, order and variant records (`src/types/index.ts`), plus the one size search shared by checkout and the webhook.
- `store.dfy` (`Store`): the data layer (`src/lib/db.ts`), its primary-key invariant `Valid`, and `Evolves`. `Evolves` says a later store deletes nothing, changes no listing, and never turns a sold product back to available.
- `printful.dfy` (`Printful`): the size and variant tables, the sync-variant list built by `createPrintfulProduct`, and the order request types (`src/lib/printful.ts`).
- `r2.dfy` (`R2`): `generateImageKey` (`src/lib/r2.ts`), with `String.prototype.split` written out as an independent reference.
- `checkout.dfy` (`Checkout`): the validation chain of the checkout route. It is a pure function of the request and the store.
- `webhook.dfy` (`Webhook`): `handleCheckoutCompleted`, the event dispatch, and `POST`. It also holds the replay, race and at-most-one-fulfilment lemmas for deliveries handled one after another.
- `interleaving.dfy` (`Interleaving`): handlers advancing one statement at a time under any schedule, with any other data-layer statement allowed between any two steps.

Some inputs come from outside the store. They are parameters:

- Printful's reply to an order: `Accepted(id)` or `Rejected`.
- The order id built from `Date.now()` and `Math.random()`.
- The database clock behind `unixepoch()`.
- `Date.now()` in `generateImageKey`.
- Stripe's signature check: a function parameter that answers the event, or `None` where the library throws.
- Stripe's checkout-session reply.
- The environment variables. An empty string stands for unset.

JavaScript truthiness is modelled where the code relies on it:

- `!signature` also rejects an empty header.
- `x || undefined` and `x || null` also drop an empty string.
- `!productId` also rejects an empty id.

The schema is not part of this model, so two things about it are assumed:

- `id` is the primary key of both tables, so an INSERT with an existing id fails.
- The columns the INSERTs leave out take their defaults: `created_at` and `updated_at` get the database clock, and `sold_at` is null. The INSERTs in `src/lib/db.ts` name none of these columns.

The code shows no constraint on `stripe_session_id`, so none is modelled: a
second order for the same session is stored.

The webhook's `catch` answers 400 for every thrown error, including a missing
secret, a missing database binding and every failure of the finaliser. The
model does the same. The code takes the lock before the variant check, so an
unknown size leaves the product sold. The lock does not set `sold_at`.

## Model

| member | source | states |
|---|---|---|
| Types.FindVariant | src/app/api/webhooks/stripe/route.ts:98-102 | The search finds a variant exactly when some variant has the requested size. The one it returns is the first such variant. |
| Types.OrAbsent | src/app/api/webhooks/stripe/route.ts:109-111 | `x \|\| undefined` is absent exactly when `x` is null or empty. Otherwise it is `x` unchanged. |
| Store.GetProductById | src/lib/db.ts:15-22 | A product comes back exactly when one is filed under that id, and it is the row filed under that id. |
| Store.FirstWithSession | src/lib/db.ts:89-96 | `.first()` over the matching rows: a row comes back exactly when some order carries the session id. It is the earliest such row in table order. |
| Store.GetOrderBySessionId | src/lib/db.ts:89-96 | The lookup finds a row exactly when some order carries the session id. The row it returns is one of the stored orders, with that session id. |
| Store.GetAvailableProducts | src/lib/db.ts:6-13 | The result holds every available product exactly once and nothing else. Creation times never increase along it. |
| Store.CreateProduct | src/lib/db.ts:24-42 | The insert succeeds exactly when the id is new. It reads back the caller's fields with `created_at` = now and `sold_at` null. Existing products and all orders are untouched. |
| Store.MarkProductAsSold | src/lib/db.ts:44-49 | The update sets `status` to sold and `sold_at` to now for that id, whatever the status was. A missing id changes nothing, and no other row changes. |
| Store.LockProductForPurchase | src/lib/db.ts:113-121 | The lock answers true exactly when the product exists and is available. Then only that product's status changes, to sold, and `sold_at` and all orders stay as they were. When it answers false the store is unchanged. |
| Store.CreateOrder | src/lib/db.ts:51-87 | The insert succeeds exactly when no row has that id. It appends one row with both timestamps set to now, and leaves the products unchanged. |
| Store.UpdateOrderPrintfulId | src/lib/db.ts:98-103 | The rows with that id get the Printful id, status fulfilled and `updated_at` = now. Every other row and every product is unchanged. |
| Store.LockIsIdempotent | src/lib/db.ts:116-120 | A second lock on the same product answers false and changes nothing. |
| Store.CreateOrderThenFind | src/lib/db.ts:51-96 | After a successful insert, the session lookup is not null. When the session had no row before, the lookup returns the new row, with the caller's id. |
| Store.CreateProductThenGet | src/lib/db.ts:15-42 | After an insert, reading the id back returns the inserted row, with the status the caller gave. |
| Store.ApplyPreservesValid | src/lib/db.ts:24-121 | Every write statement keeps products filed under their own ids and order ids distinct. |
| Store.ApplyEvolves | src/lib/db.ts:24-121 | No write statement deletes a product, changes its listing or variants, or turns a sold product back to available. Existing orders keep their id, session and product. |
| Store.ApplyAllEvolves | src/lib/db.ts:24-121 | The same holds across any sequence of write statements. |
| Store.NeverBackToAvailable | src/lib/db.ts:24-121 | Once a product is sold, it stays sold after any sequence of statements. |
| Printful.VariantIdForSize | src/lib/printful.ts:92-111 | The lookup succeeds exactly for base product `71` and the sizes S, M, L, XL and 2XL. These map to 4012 to 4016 in order. Anything else throws. |
| Printful.SizeFromVariantId | src/lib/printful.ts:113-123 | Ids outside the five-entry table give `Unknown`. Ids in it give a supported size. This is the corrected lookup. |
| Printful.TablesAreInverse | src/lib/printful.ts:92-123 | Size to variant and back gives the same size. Variant to size and back gives the same variant. |
| Printful.VariantIdForSizeInjective | src/lib/printful.ts:93-99 | Distinct supported sizes get distinct variant ids. |
| Printful.SizeFromVariantIdAsWritten | src/lib/printful.ts:113-123 | With the object lookup as JavaScript does it, an inherited `Object.prototype` name comes back as that inherited member, not as `Unknown`. |
| Printful.InheritedKeyEscapesFallback | src/lib/printful.ts:122 | For `toString`, an id outside the table, the code as written does not answer `Unknown`. The corrected lookup does. |
| Printful.AsWrittenAgreesOffPrototype | src/lib/printful.ts:113-123 | For every id that is not an inherited name, the code as written and the corrected lookup agree. |
| Printful.FirstUnsupported | src/lib/printful.ts:61-63 | This finds the first size the base product does not offer, or none when all are offered. |
| Printful.SyncVariants | src/lib/printful.ts:61-70 | The request gets one sync variant per requested size, in order. Each has price `35.00`, the size's catalog variant and the one design file. If any size is unsupported, the request fails with the first such size. |
| Printful.VariantsFromReply | src/lib/printful.ts:76-79 | Each reply entry becomes one variant, in order. Its size is read back from the catalog variant, and its id is the sync-variant id. |
| Printful.CreatePrintfulProduct | src/lib/printful.ts:49-81 | An unsupported size fails before any request is sent. Otherwise exactly one request is sent: it carries the title and exactly the sync-variant list for the requested sizes. Its result carries Printful's product id and the variant list read from the reply. |
| Printful.CreatedSizesMatchRequested | src/lib/printful.ts:55-80 | If Printful echoes the catalog variants it was sent, the stored variant list has exactly the sizes that were requested, in order. |
| R2.AfterLast | src/lib/r2.ts:52 | The piece after the last separator holds no separator and is a suffix of the name. It is either the whole name or preceded by the separator. |
| R2.AfterLastUnique | src/lib/r2.ts:52 | Those three facts determine the piece uniquely. |
| R2.Extension | src/lib/r2.ts:52 | The extension holds no `.` and ends the file name. It is either the whole name or follows the name's last `.`. |
| R2.ExtensionWithoutDot | src/lib/r2.ts:52 | A file name without `.` is its own extension. |
| R2.ExtensionAfterTrailingDot | src/lib/r2.ts:52 | A file name ending in `.` has an empty extension. |
| R2.Split | src/lib/r2.ts:52 | `split` always yields at least one piece. It yields exactly one when the separator is absent, and that piece is the whole string. |
| R2.SplitJoin | src/lib/r2.ts:52 | Joining the split pieces gives back the original string. |
| R2.ExtensionIsLastSplitPiece | src/lib/r2.ts:52 | `fileName.split('.').pop()` is the text after the last `.`, or the whole name when it has none. |
| R2.Decimal | src/lib/r2.ts:53 | `${n}` for a non-negative integer: a non-empty string of digits with no leading zero, and `"0"` exactly for zero. With `R2.DecimalRoundTrip` this fixes the string. |
| R2.DecimalRoundTrip | src/lib/r2.ts:53 | Reading the printed digits back gives the timestamp. |
| R2.GenerateImageKey | src/lib/r2.ts:50-54 | The key is `products/<productId>/`, then the timestamp's decimal digits, then `.`, then the file's extension, with nothing between them. |
| R2.ImageKeyTail | src/lib/r2.ts:50-54 | Reading the key from its end gives back the timestamp's digits and the file's extension. |
| R2.ImageKeyRoundTrip | src/lib/r2.ts:50-54 | The timestamp can be read back out of the key as a number. The key's own extension is the file's extension. |
| R2.ImageKeyAfterTrailingDot | src/lib/r2.ts:52-53 | A file name ending in `.` gives a key ending in `.`. |
| Webhook.PrintfulOrderFor | src/app/api/webhooks/stripe/route.ts:104-121 | The Printful request ships to the session's name, first line, city, country and postal code. It has exactly one item, the chosen variant with quantity 1. A present second line or state is passed on unchanged, and an empty or missing one is left out. |
| Webhook.OrderRowFor | src/app/api/webhooks/stripe/route.ts:124-140 | The order row carries the session id, the payment intent, the email, and the metadata's product and size. It also carries the shipping name, first line, city, postal code and country. Its status is fulfilled and it holds Printful's order id. A present second line or state is stored unchanged, and an empty or missing one is stored as null. |
| Webhook.HandleCheckoutCompleted | src/app/api/webhooks/stripe/route.ts:72-143 | An existing order for the session means no effect at all. A lost lock means a throw before any effect. Past the lock the product is sold even if the handler throws. An unknown size throws after the lock, with no order and no Printful call. Printful is called exactly when the lock was won and the size found, with the first matching variant. An order is written only after Printful accepted, and then exactly one row with the expected fields. Conversely, acceptance with a fresh order id records that row, and an order id already taken fails the insert. |
| Webhook.FulfilLocked | src/app/api/webhooks/stripe/route.ts:91-140 | Once the lock is won, no later statement changes a product. Printful is called exactly when the product is found and has the size, with the first matching variant. An unknown size fails with no call. Printful's acceptance with a fresh order id records exactly one row, and an order id already taken fails the insert. Every failure leaves the store as it was after the lock. |
| Webhook.Dispatch | src/app/api/webhooks/stripe/route.ts:39-60 | A completed-session event runs the finaliser and gives its result. Every other type is acknowledged with no effect. |
| Webhook.Post | src/app/api/webhooks/stripe/route.ts:15-70 | A missing or empty signature is answered as missing signature, and nothing else is. A missing secret, a rejected signature and a missing database each get their own 400 and change nothing. Other event types answer 200 with no effect. A completed session gives the finaliser's store and Printful call. It answers 200 exactly when the finaliser did not throw, and otherwise 400 carrying the finaliser's error. |
| Webhook.ReplayIsNoOp | src/app/api/webhooks/stripe/route.ts:75-80 | Redelivering a session after a run that ended well leaves the store unchanged and makes no Printful call. |
| Webhook.ReplayAfterFailureStaysUnfulfilled | src/app/api/webhooks/stripe/route.ts:85-89 | Take a run that won the lock and then threw. Redelivering its session fails at the lock and sends nothing to Printful. |
| Webhook.TwoSessionsOneLock | src/app/api/webhooks/stripe/route.ts:85-121 | Take two sessions for one available product, in either order. The first wins the lock and reaches Printful exactly when its size exists. The second fails at the lock with no effect. |
| Webhook.AtMostOneFulfilmentPerProduct | src/app/api/webhooks/stripe/route.ts:72-143 | Take any sequence of delivered events, of any types, with any Printful replies. No product is submitted to Printful more than once. |
| Checkout.Validate | src/app/api/checkout/route.ts:13-45 | The checks run in order: missing fields give 400, an unknown product 404, a product that is not available 410, and a size no variant has 400. The first failing check decides. All checks pass exactly when the product is available and has the size. |
| Checkout.Post | src/app/api/checkout/route.ts:8-65 | Missing fields are answered before any store access. Stripe is asked only after validation passes, with the validated product and size, the success URL `<base>/success?session_id={CHECKOUT_SESSION_ID}` and the cancel URL `<base>/product/<productId>`. A created session is answered with Stripe's session id. The status is 404 exactly for an unknown product, 410 exactly for one no longer available, 400 exactly for missing fields or an unknown size, and 500 exactly for unparseable JSON, a missing database or a Stripe failure. The route returns no store, so it cannot write one. |
| Checkout.AcceptedSizeIsFoundByWebhook | src/app/api/checkout/route.ts:40-45 | A size checkout accepted is found by the webhook's variant search. |
| Checkout.AcceptedCheckoutReachesPrintful | src/app/api/checkout/route.ts:40-45 | Suppose checkout accepted, and when the session completes the product is still available with no order for the session. Then the webhook reaches Printful, because no statement rewrites a product's variants. |
| Checkout.StripeMetadataIsValidatedPair | src/app/api/checkout/route.ts:47-53 | The product and size passed to Stripe are an available product and one of its sizes. |
| Interleaving.StepHandler | src/app/api/webhooks/stripe/route.ts:72-143 | The finaliser runs one statement per step. Only the lock and the order insert write. Only the step after the variant is resolved calls Printful, with that variant. The lock step continues exactly when the product is available and otherwise fails as unavailable. A finished handler stays finished. |
| Interleaving.AtMostOneFulfilmentInterleaved | src/app/api/webhooks/stripe/route.ts:85-121 | Take any number of handlers, interleaved statement by statement, with any other statements between their steps. No product is submitted to Printful more than once. |
| Interleaving.SoloRunIsHandler | src/app/api/webhooks/stripe/route.ts:72-143 | A handler stepped alone five or more times ends with the same store, outcome and Printful call as the finaliser, and then stays put. |

## Left out

- Stripe signature verification (`constructWebhookEvent`) is a library call. It is the `verify` parameter of `Webhook.Post`.
- `createCheckoutSession` wraps the Stripe SDK. Its reply is a parameter of `Checkout.Post`.
- `printfulRequest`, `uploadDesignFile` and `createPrintfulOrder` are network calls, and so is the unwrapping of their results. Printful's replies are parameters.
- `r2Client`, `uploadImage` and `getSignedImageUrl` are remote storage.
- `getAllOrders` is used only by the admin order listing, outside the purchase path.
- The admin and product routes and `verifyAdminKey` are left out. They orchestrate the calls above and compare an environment variable.
- The UI pages are rendering only.
- `printful_variant_ids` is kept as a sequence of variants. The JSON encoding and parsing around it are not modelled.
- Database failures other than a primary-key conflict on insert are not modelled.
- A Stripe payload with a null `metadata`, `shipping_details` or `customer_details` is not modelled. Reading a field of it would be a `TypeError` in the source.
- A missing metadata key is not modelled. In the source it gives `undefined`, which reaches the lock's `.bind`. The model takes both metadata fields as strings.
- `Checkout.Post`: a JSON field that is not a string becomes `None`, so `{"productId": 42}` answers 400 here. In the source a truthy number passes the presence check and reaches `getProductById`.
- `Printful.VariantsFromReply`: it reads sizes with the corrected lookup `Printful.SizeFromVariantId`, not the lookup as written. The source passes it only the `variant_id`s of Printful's reply to a request built from the catalog table, and on those ids both lookups agree (`Printful.AsWrittenAgreesOffPrototype`).
- The logging for `payment_intent.succeeded`, `payment_intent.failed` and unknown event types is not modelled. Those types are acknowledged with no effect.
- `Printful.VariantIdForSize`: it reads the tables as own entries only. In the source, a size such as `toString` would find an inherited member and return it instead of throwing. A base product id such as `constructor` would reach further built-in members. This is the same lookup quirk as the finding below.
- `Store.GetAvailableProducts`: it requires `Valid`, the primary-key invariant that every data-layer statement preserves. Products created at the same instant come back in an order it does not fix.
- `Interleaving.AtMostOneFulfilmentInterleaved`: the Printful call is one atomic step, and threads below statement granularity are not modelled.

## Findings

| source | as written | input that shows it | evidently intended | confidence | as-written member | corrected member |
|---|---|---|---|---|---|---|
| src/lib/printful.ts:113-123 | `idToSize[variantId] \|\| 'Unknown'` also finds members inherited from `Object.prototype` | `getSizeFromVariantId('toString')` yields the inherited function, not `'Unknown'` | `'Unknown'` for every id outside the five-entry table | high; not executed | Printful.SizeFromVariantIdAsWritten | Printful.SizeFromVariantId |
