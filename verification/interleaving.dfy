/** Several webhook handlers running at once. Each handler advances one
    statement at a time (one SQL statement, or the Printful call), and any
    other data-layer statement may run between any two steps. The lock is the
    only compare-and-swap; the bound of one Printful submission per product
    holds for every schedule. */
module Interleaving {
  import opened Wrappers
  import opened Types
  import opened Store
  import opened Printful
  import opened Webhook

  /** Where a handler is in `handleCheckoutCompleted`: before the idempotency
      lookup, before the lock, holding the lock before the product read,
      holding it with the variant resolved, after Printful accepted, or done. */
  datatype Pc =
    | Start
    | Checked
    | Locked
    | Resolved(variant: PrintfulVariant)
    | Submitted(printfulOrderId: string)
    | Finished(outcome: Result<Completion, HandlerError>)

  datatype Handler = Handler(session: CheckoutSession, x: Externals, pc: Pc)

  datatype Machine = Machine(store: Store, log: seq<Fulfilment>, handlers: seq<Handler>)

  /** The effect of one handler step. */
  datatype StepEffect = StepEffect(store: Store, pc: Pc, submitted: Option<OrderRequest>)

  /** One step of one handler, against the store as it is at that moment. */
  function StepHandler(db: Store, h: Handler): (e: StepEffect)
    // Only the step at `Resolved` calls Printful, with the resolved variant.
    ensures e.submitted.Some? <==> h.pc.Resolved?
    ensures h.pc.Resolved? ==> e.submitted == Some(PrintfulOrderFor(h.session, h.pc.variant))
    // Only the lock and the order insert write.
    ensures !(h.pc.Checked? || h.pc.Submitted?) ==> e.store == db
    ensures h.pc.Checked? ==>
      && e.store == LockProductForPurchase(db, h.session.metadata.productId).0
      && (e.pc == Locked <==> IsAvailable(db, h.session.metadata.productId))
      && (e.pc != Locked ==> e.pc == Finished(Err(ProductUnavailable(h.session.metadata.productId))))
    ensures h.pc.Submitted? ==> e.pc.Finished? && e.store.products == db.products
    // A finished handler stays finished; every other step moves forward.
    ensures h.pc.Finished? ==> e.pc == h.pc
    ensures h.pc.Start? ==> (e.pc == Checked <==> !HasSession(db.orders, h.session.id))
  {
    var s := h.session;
    var productId := s.metadata.productId;
    match h.pc
    case Start =>
      if GetOrderBySessionId(db, s.id).Some? then StepEffect(db, Finished(Ok(AlreadyRecorded)), None)
      else StepEffect(db, Checked, None)
    case Checked =>
      var (locked, ok) := LockProductForPurchase(db, productId);
      if ok then StepEffect(locked, Locked, None)
      else StepEffect(locked, Finished(Err(ProductUnavailable(productId))), None)
    case Locked =>
      (match GetProductById(db, productId)
       case None => StepEffect(db, Finished(Err(ProductNotFound(productId))), None)
       case Some(product) =>
         match FindVariant(product.variants, s.metadata.selectedSize)
         case None => StepEffect(db, Finished(Err(VariantNotFound(s.metadata.selectedSize))), None)
         case Some(variant) => StepEffect(db, Resolved(variant), None))
    case Resolved(variant) =>
      var request := PrintfulOrderFor(s, variant);
      (match h.x.printful
       case Rejected => StepEffect(db, Finished(Err(FulfilmentFailed)), Some(request))
       case Accepted(printfulOrderId) => StepEffect(db, Submitted(printfulOrderId), Some(request)))
    case Submitted(printfulOrderId) =>
      (match CreateOrder(db, OrderRowFor(s, h.x.orderId, printfulOrderId), h.x.now)
       case Err(e) => StepEffect(db, Finished(Err(OrderInsertFailed(e))), None)
       case Ok((stored, row)) => StepEffect(stored, Finished(Ok(OrderRecorded(row))), None))
    case Finished(_) => StepEffect(db, h.pc, None)
  }

  /** What the scheduler runs next: a step of handler `i`, or any other
      data-layer statement (an admin creating or marking products, another
      client's lock, an order update). */
  datatype Action = Advance(i: nat) | External(op: StoreOp)

  function Logged(log: seq<Fulfilment>, h: Handler, submitted: Option<OrderRequest>): seq<Fulfilment> {
    if submitted.Some? then log + [Fulfilment(h.session.metadata.productId, h.session.id, submitted.value)]
    else log
  }

  function Step(m: Machine, a: Action): Machine {
    match a
    case Advance(i) =>
      if i < |m.handlers| then
        var h := m.handlers[i];
        var e := StepHandler(m.store, h);
        Machine(e.store, Logged(m.log, h, e.submitted), m.handlers[i := h.(pc := e.pc)])
      else m
    case External(op) => m.(store := Apply(m.store, op))
  }

  function Exec(m: Machine, schedule: seq<Action>): Machine
    decreases |schedule|
  {
    if |schedule| == 0 then m else Exec(Step(m, schedule[0]), schedule[1..])
  }

  // ---------------------------------------------------------------------------
  // The invariant: lock holders plus submissions never exceed one per product
  // ---------------------------------------------------------------------------

  /** `h` holds the lock on `productId` and has not yet called Printful. */
  predicate Holds(h: Handler, productId: string) {
    (h.pc.Locked? || h.pc.Resolved?) && h.session.metadata.productId == productId
  }

  function Holders(hs: seq<Handler>, productId: string): nat {
    if |hs| == 0 then 0
    else (if Holds(hs[0], productId) then 1 else 0) + Holders(hs[1..], productId)
  }

  lemma {:induction false} HoldersUpdate(hs: seq<Handler>, i: nat, h: Handler, productId: string)
    requires i < |hs|
    ensures Holders(hs[i := h], productId)
            == Holders(hs, productId) - (if Holds(hs[i], productId) then 1 else 0) + (if Holds(h, productId) then 1 else 0)
  {
    if i > 0 {
      assert hs[i := h][1..] == hs[1..][i - 1 := h];
      HoldersUpdate(hs[1..], i - 1, h, productId);
    }
  }

  lemma FulfilmentsForAppend(log: seq<Fulfilment>, f: Fulfilment, productId: string)
    ensures FulfilmentsFor(log + [f], productId)
            == FulfilmentsFor(log, productId) + (if f.productId == productId then 1 else 0)
  {
    assert (log + [f])[..|log|] == log;
  }

  /** Submissions made plus locks held, for one product. */
  function Claims(m: Machine, productId: string): nat {
    FulfilmentsFor(m.log, productId) + Holders(m.handlers, productId)
  }

  /** Every product has at most one claim, and a claimed product is sold. */
  ghost predicate ClaimsExclusive(m: Machine) {
    forall productId ::
      && Claims(m, productId) <= 1
      && (Claims(m, productId) >= 1 ==> productId in m.store.products && m.store.products[productId].status == Sold)
  }

  /** How one handler step changes the claims on a product. */
  lemma StepHandlerClaims(m: Machine, i: nat, productId: string)
    requires i < |m.handlers|
    ensures var h := m.handlers[i];
            var e := StepHandler(m.store, h);
            var m' := Step(m, Advance(i));
            && Claims(m', productId)
               == Claims(m, productId)
                  - (if Holds(h, productId) then 1 else 0)
                  + (if Holds(h.(pc := e.pc), productId) then 1 else 0)
                  + (if e.submitted.Some? && h.session.metadata.productId == productId then 1 else 0)
  {
    var h := m.handlers[i];
    var e := StepHandler(m.store, h);
    HoldersUpdate(m.handlers, i, h.(pc := e.pc), productId);
    if e.submitted.Some? {
      FulfilmentsForAppend(m.log, Fulfilment(h.session.metadata.productId, h.session.id, e.submitted.value), productId);
    }
  }

  /** A handler step only evolves the store. */
  lemma StepHandlerEvolves(db: Store, h: Handler)
    ensures Evolves(db, StepHandler(db, h).store)
  {
    match h.pc {
      case Checked =>
        var op := LockOp(h.session.metadata.productId);
        assert StepHandler(db, h).store == Apply(db, op);
        ApplyEvolves(db, op);
      case Submitted(printfulOrderId) =>
        var op := CreateOrderOp(OrderRowFor(h.session, h.x.orderId, printfulOrderId), h.x.now);
        assert StepHandler(db, h).store == Apply(db, op);
        ApplyEvolves(db, op);
      case _ =>
        assert StepHandler(db, h).store == db;
    }
  }

  /** What one handler step does to its own claim: a step that calls
      Printful gives up the lock it held; a step that takes a new hold on a
      product found it available and left it sold. */
  lemma StepHandlerEffect(db: Store, h: Handler, productId: string)
    ensures var e := StepHandler(db, h);
            && (e.submitted.Some? ==>
                  Holds(h, h.session.metadata.productId) && !Holds(h.(pc := e.pc), h.session.metadata.productId))
            && (Holds(h.(pc := e.pc), productId) && !Holds(h, productId) ==>
                  IsAvailable(db, productId) && productId in e.store.products
                  && e.store.products[productId].status == Sold)
  {
  }

  /** One handler step keeps the claims on one product within bounds. */
  lemma AdvanceKeepsClaim(m: Machine, i: nat, productId: string)
    requires ClaimsExclusive(m)
    requires i < |m.handlers|
    ensures var m' := Step(m, Advance(i));
            && Claims(m', productId) <= 1
            && (Claims(m', productId) >= 1 ==> productId in m'.store.products && m'.store.products[productId].status == Sold)
  {
    var h := m.handlers[i];
    var e := StepHandler(m.store, h);
    assert Step(m, Advance(i)).store == e.store;
    assert Claims(m, productId) <= 1;
    StepHandlerClaims(m, i, productId);
    StepHandlerEvolves(m.store, h);
    StepHandlerEffect(m.store, h, productId);
  }

  lemma AdvanceKeepsExclusive(m: Machine, i: nat)
    requires ClaimsExclusive(m)
    requires i < |m.handlers|
    ensures ClaimsExclusive(Step(m, Advance(i)))
  {
    forall productId
      ensures Claims(Step(m, Advance(i)), productId) <= 1
      ensures Claims(Step(m, Advance(i)), productId) >= 1 ==>
                productId in Step(m, Advance(i)).store.products && Step(m, Advance(i)).store.products[productId].status == Sold
    {
      AdvanceKeepsClaim(m, i, productId);
    }
  }

  lemma StepKeepsExclusive(m: Machine, a: Action)
    requires ClaimsExclusive(m)
    ensures ClaimsExclusive(Step(m, a))
  {
    match a
    case Advance(i) =>
      if i < |m.handlers| {
        AdvanceKeepsExclusive(m, i);
      }
    case External(op) =>
      ApplyEvolves(m.store, op);
      forall productId ensures Claims(Step(m, a), productId) == Claims(m, productId) { }
  }

  lemma {:induction false} ExecKeepsExclusive(m: Machine, schedule: seq<Action>)
    requires ClaimsExclusive(m)
    ensures ClaimsExclusive(Exec(m, schedule))
    decreases |schedule|
  {
    if |schedule| > 0 {
      StepKeepsExclusive(m, schedule[0]);
      ExecKeepsExclusive(Step(m, schedule[0]), schedule[1..]);
    }
  }

  lemma {:induction false} NoHoldersAtStart(hs: seq<Handler>, productId: string)
    requires forall i :: 0 <= i < |hs| ==> hs[i].pc == Start
    ensures Holders(hs, productId) == 0
  {
    if |hs| > 0 {
      NoHoldersAtStart(hs[1..], productId);
    }
  }

  /** Any number of handlers, for any sessions and products, with any
      Printful replies, started together on any store and interleaved by any
      schedule with any other statements: each product is submitted to
      Printful at most once. */
  lemma AtMostOneFulfilmentInterleaved(db: Store, hs: seq<Handler>, schedule: seq<Action>, productId: string)
    requires forall i :: 0 <= i < |hs| ==> hs[i].pc == Start
    ensures FulfilmentsFor(Exec(Machine(db, [], hs), schedule).log, productId) <= 1
  {
    var m := Machine(db, [], hs);
    forall p ensures Claims(m, p) == 0 {
      NoHoldersAtStart(hs, p);
    }
    ExecKeepsExclusive(m, schedule);
    assert Claims(Exec(m, schedule), productId) <= 1;
  }

  // ---------------------------------------------------------------------------
  // A handler run alone is handleCheckoutCompleted
  // ---------------------------------------------------------------------------

  /** `f` applied `n` times. */
  function Iterate<T>(f: T -> T, x: T, n: nat): T
    decreases n
  {
    if n == 0 then x else Iterate(f, f(x), n - 1)
  }

  /** A fixed point of `f` stays put. */
  lemma {:induction false} IterateStays<T>(f: T -> T, x: T, n: nat)
    requires f(x) == x
    ensures Iterate(f, x, n) == x
    decreases n
  {
    if n > 0 {
      IterateStays(f, x, n - 1);
    }
  }

  /** Once an iteration reaches a fixed point, further iterations keep it. */
  lemma {:induction false} IterateFixed<T>(f: T -> T, x: T, k: nat, n: nat)
    requires k <= n
    requires f(Iterate(f, x, k)) == Iterate(f, x, k)
    ensures Iterate(f, x, n) == Iterate(f, x, k)
    decreases k
  {
    if k == 0 {
      IterateStays(f, x, n);
    } else {
      IterateFixed(f, f(x), k - 1, n - 1);
    }
  }

  /** One step of the handler at index 0, with nothing between. */
  function Tick(m: Machine): Machine {
    Step(m, Advance(0))
  }

  /** Runs the handler at index 0 of `m` for `n` steps with nothing between. */
  function RunFirst(m: Machine, n: nat): Machine {
    Iterate(Tick, m, n)
  }

  /** Once finished, further steps change nothing. */
  lemma FinishedStays(m: Machine, n: nat)
    requires |m.handlers| == 1 && m.handlers[0].pc.Finished?
    ensures RunFirst(m, n) == m
  {
    assert Tick(m) == m;
    IterateStays(Tick, m, n);
  }

  /** One step of the only handler of a machine. */
  lemma StepSolo(db: Store, log: seq<Fulfilment>, h: Handler)
    ensures var e := StepHandler(db, h);
            Step(Machine(db, log, [h]), Advance(0)) == Machine(e.store, Logged(log, h, e.submitted), [h.(pc := e.pc)])
  {
  }

  /** `m` ends as `HandleCheckoutCompleted(db, s, x)` does: same store, the
      outcome as its finished pc, and the Printful call in the log. */
  ghost predicate EndsAsHandler(m: Machine, db: Store, s: CheckoutSession, x: Externals) {
    var r := HandleCheckoutCompleted(db, s, x);
    && m.store == r.store
    && |m.handlers| == 1
    && m.handlers[0].pc == Finished(r.outcome)
    && m.log == (if r.submitted.Some? then [Fulfilment(s.metadata.productId, s.id, r.submitted.value)] else [])
  }

  /** Past the variant search, the finaliser's result is decided by
      Printful's reply and the order insert alone. */
  lemma HandlerPastVariant(db: Store, s: CheckoutSession, x: Externals, variant: PrintfulVariant)
    requires !HasSession(db.orders, s.id) && IsAvailable(db, s.metadata.productId)
    requires FindVariant(LockProductForPurchase(db, s.metadata.productId).0.products[s.metadata.productId].variants,
                         s.metadata.selectedSize) == Some(variant)
    ensures var locked := LockProductForPurchase(db, s.metadata.productId).0;
            var request := PrintfulOrderFor(s, variant);
            HandleCheckoutCompleted(db, s, x)
              == match x.printful
                 case Rejected => Handled(locked, Some(request), Err(FulfilmentFailed))
                 case Accepted(printfulOrderId) =>
                   match CreateOrder(locked, OrderRowFor(s, x.orderId, printfulOrderId), x.now)
                   case Err(e) => Handled(locked, Some(request), Err(OrderInsertFailed(e)))
                   case Ok((stored, row)) => Handled(stored, Some(request), Ok(OrderRecorded(row)))
  {
    assert GetOrderBySessionId(db, s.id).None?;
    var locked := LockProductForPurchase(db, s.metadata.productId).0;
    assert GetProductById(locked, s.metadata.productId) == Some(locked.products[s.metadata.productId]);
  }

  /** The last two statements: the Printful call and the order insert. */
  lemma SoloFromResolved(db: Store, s: CheckoutSession, x: Externals, variant: PrintfulVariant)
    requires !HasSession(db.orders, s.id) && IsAvailable(db, s.metadata.productId)
    requires FindVariant(LockProductForPurchase(db, s.metadata.productId).0.products[s.metadata.productId].variants,
                         s.metadata.selectedSize) == Some(variant)
    ensures EndsAsHandler(RunFirst(Machine(LockProductForPurchase(db, s.metadata.productId).0, [],
                                           [Handler(s, x, Resolved(variant))]), 2), db, s, x)
  {
    HandlerPastVariant(db, s, x, variant);
    var productId := s.metadata.productId;
    var locked := LockProductForPurchase(db, productId).0;
    var m3 := Machine(locked, [], [Handler(s, x, Resolved(variant))]);
    StepSolo(locked, [], Handler(s, x, Resolved(variant)));
    var m4 := Step(m3, Advance(0));
    assert RunFirst(m3, 2) == RunFirst(m4, 1);
    var request := PrintfulOrderFor(s, variant);
    assert m4.log == [Fulfilment(productId, s.id, request)];
    if x.printful.Rejected? {
      FinishedStays(m4, 1);
      return;
    }
    assert m4 == Machine(locked, [Fulfilment(productId, s.id, request)], [Handler(s, x, Submitted(x.printful.orderId))]);
    StepSolo(locked, m4.log, Handler(s, x, Submitted(x.printful.orderId)));
    var m5 := Step(m4, Advance(0));
    assert RunFirst(m4, 1) == RunFirst(m5, 0) == m5;
  }

  /** The last three statements, from the lock on: the product read and
      variant search, then the two above. */
  lemma SoloFromLocked(db: Store, s: CheckoutSession, x: Externals)
    requires !HasSession(db.orders, s.id) && IsAvailable(db, s.metadata.productId)
    ensures EndsAsHandler(RunFirst(Machine(LockProductForPurchase(db, s.metadata.productId).0, [],
                                           [Handler(s, x, Locked)]), 3), db, s, x)
  {
    var productId := s.metadata.productId;
    var locked := LockProductForPurchase(db, productId).0;
    var m2 := Machine(locked, [], [Handler(s, x, Locked)]);
    StepSolo(locked, [], Handler(s, x, Locked));
    var m3 := Step(m2, Advance(0));
    assert RunFirst(m2, 3) == RunFirst(m3, 2);
    var found := FindVariant(locked.products[productId].variants, s.metadata.selectedSize);
    if found.None? {
      FinishedStays(m3, 2);
      return;
    }
    assert m3 == Machine(locked, [], [Handler(s, x, Resolved(found.value))]);
    SoloFromResolved(db, s, x, found.value);
  }

  /** The five statements of a handler run back to back. */
  lemma SoloRunFiveSteps(db: Store, s: CheckoutSession, x: Externals)
    ensures EndsAsHandler(RunFirst(Machine(db, [], [Handler(s, x, Start)]), 5), db, s, x)
  {
    var productId := s.metadata.productId;
    var m0 := Machine(db, [], [Handler(s, x, Start)]);
    StepSolo(db, [], Handler(s, x, Start));
    var m1 := Step(m0, Advance(0));
    assert RunFirst(m0, 5) == RunFirst(m1, 4);
    if HasSession(db.orders, s.id) {
      FinishedStays(m1, 4);
      return;
    }
    assert m1 == Machine(db, [], [Handler(s, x, Checked)]);
    StepSolo(db, [], Handler(s, x, Checked));
    var m2 := Step(m1, Advance(0));
    assert RunFirst(m1, 4) == RunFirst(m2, 3);
    if !IsAvailable(db, productId) {
      FinishedStays(m2, 3);
      return;
    }
    assert m2 == Machine(LockProductForPurchase(db, productId).0, [], [Handler(s, x, Locked)]);
    SoloFromLocked(db, s, x);
  }

  /** Five or more steps of a handler with nothing in between finish it, with
      the same store, outcome and Printful call as `HandleCheckoutCompleted`:
      the step machine is the finaliser cut at its statements, and once
      finished it stays put. */
  lemma SoloRunIsHandler(db: Store, s: CheckoutSession, x: Externals, n: nat)
    requires n >= 5
    ensures var m := RunFirst(Machine(db, [], [Handler(s, x, Start)]), n);
            var r := HandleCheckoutCompleted(db, s, x);
            && m.store == r.store
            && |m.handlers| == 1
            && m.handlers[0].pc == Finished(r.outcome)
            && m.log == (if r.submitted.Some? then [Fulfilment(s.metadata.productId, s.id, r.submitted.value)] else [])
  {
    var m0 := Machine(db, [], [Handler(s, x, Start)]);
    SoloRunFiveSteps(db, s, x);
    var m5 := RunFirst(m0, 5);
    assert Tick(m5) == m5;
    IterateFixed(Tick, m0, 5, n);
    assert EndsAsHandler(RunFirst(m0, n), db, s, x);
  }
}
