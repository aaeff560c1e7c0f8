/** Payment notifications: each event counts once, each payment is credited at most once. */
module Webhook {
  import opened Collections
  import opened Tiebreak
  import opened Domain
  import opened Wallets
  import opened Settlement

  type EventId = int
  type Reference = int

  datatype Purpose = WALLET_CREDIT | SUBSCRIPTION
  datatype PaymentStatus = PAYMENT_PENDING | PAYMENT_APPROVED | PAYMENT_REJECTED | PAYMENT_CANCELLED | REFUNDED
  datatype Plan = MONTHLY | ANNUAL

  /** A local payment; it is found by its unique external reference. */
  datatype Payment = Payment(
    userId: UserId,
    purpose: Purpose,
    amountCents: int,
    coinsAmount: int,
    bonusCoins: int,
    plan: Option<Plan>,
    validityMonths: Option<int>,
    status: PaymentStatus,
    isCredited: bool,
    processedAt: Option<Time>,
    externalPaymentId: Option<int>)

  /** What the provider says about a payment when it is asked. */
  datatype ProviderStatus = Approved | Rejected | Cancelled | Refunded | OtherStatus

  /** A delivery of an event with the provider's answer; `amountCents` is `None` when the amount
      is not a finite number, `packageMonths` the validity of the local package, if any. */
  datatype Delivery = Delivery(
    event: EventId,
    externalPaymentId: int,
    reference: Option<Reference>,
    status: ProviderStatus,
    inReais: bool,
    amountCents: Option<int>,
    packageMonths: Option<int>,
    at: Time)

  datatype WebhookError =
    | NoSubscriptionPlan | InvalidValidity | PackageMismatch
    | LedgerRefused | ExternalIdTaken

  /** The tables; `renewals` are the subscription renewals that have been ordered. */
  datatype Ledgers = Ledgers(
    events: set<EventId>,
    payments: map<Reference, Payment>,
    wallets: map<UserId, Wallet>,
    renewals: seq<Reference>)

  function MapStatus(s: ProviderStatus): PaymentStatus {
    match s
    case Approved => PAYMENT_APPROVED
    case Rejected => PAYMENT_REJECTED
    case Cancelled => PAYMENT_CANCELLED
    case Refunded => REFUNDED
    case OtherStatus => PAYMENT_PENDING
  }

  /** `validateMercadoPagoPayment`; the reference is the one the payment was found by. */
  predicate ValidFor(d: Delivery, p: Payment) {
    d.inReais && d.amountCents == Some(p.amountCents)
  }

  function SubscriptionProblem(p: Payment, d: Delivery): Option<WebhookError> {
    if p.plan.None? then Some(NoSubscriptionPlan)
    else
      var months := p.validityMonths.GetOr(if p.plan == Some(MONTHLY) then 1 else 12);
      if months != 1 && months != 12 then Some(InvalidValidity)
      else if d.packageMonths.Some? && d.packageMonths.value != months then Some(PackageMismatch)
      else None
  }

  function Credit(p: Payment): int {
    p.coinsAmount + p.bonusCoins
  }

  /** What a delivery that is not approved notes. */
  function Updated(p: Payment, d: Delivery): Payment {
    p.(status := MapStatus(d.status), externalPaymentId := Some(d.externalPaymentId))
  }

  function Processed(p: Payment, d: Delivery): Payment {
    p.(status := PAYMENT_APPROVED, isCredited := p.purpose == WALLET_CREDIT, processedAt := Some(d.at),
       externalPaymentId := Some(d.externalPaymentId))
  }

  /** The provider's id is unique among the payments: does another one hold it? */
  predicate IdTaken(payments: map<Reference, Payment>, r: Reference, externalPaymentId: int) {
    exists s :: s in payments && s != r && payments[s].externalPaymentId == Some(externalPaymentId)
  }

  /** One delivery, in its transaction. */
  function Deliver(l: Ledgers, d: Delivery): Result<Ledgers, WebhookError> {
    if d.event in l.events then Ok(l)
    else
      var seen := l.(events := l.events + {d.event});
      if d.reference.None? || d.reference.value !in l.payments then Ok(seen)
      else
        var r, p := d.reference.value, l.payments[d.reference.value];
        if p.processedAt.Some? then Ok(seen)
        else if d.status != Approved then
          if IdTaken(l.payments, r, d.externalPaymentId) then Err(ExternalIdTaken)
          else Ok(seen.(payments := l.payments[r := Updated(p, d)]))
        else if !ValidFor(d, p) then Ok(seen)
        else if p.purpose == WALLET_CREDIT then
          var credited := Credited(WalletOf(l.wallets, p.userId), Credit(p), None);
          if credited.None? then Err(LedgerRefused)
          else if IdTaken(l.payments, r, d.externalPaymentId) then Err(ExternalIdTaken)
          else Ok(seen.(wallets := l.wallets[p.userId := credited.value], payments := l.payments[r := Processed(p, d)]))
        else
          var problem := SubscriptionProblem(p, d);
          if problem.Some? then Err(problem.value)
          else if IdTaken(l.payments, r, d.externalPaymentId) then Err(ExternalIdTaken)
          else Ok(seen.(renewals := l.renewals + [r], payments := l.payments[r := Processed(p, d)]))
  }

  /** A failed transaction changes nothing, not even the events. */
  function AfterDelivery(l: Ledgers, d: Delivery): Ledgers {
    var delivered := Deliver(l, d);
    if delivered.Ok? then delivered.value else l
  }

  function AfterAll(l: Ledgers, ds: seq<Delivery>): Ledgers {
    if ds == [] then l else AfterDelivery(AfterAll(l, ds[..|ds| - 1]), ds[|ds| - 1])
  }

  // ---- the service ----

  class PaymentDesk {
    var events: set<EventId>
    var payments: map<Reference, Payment>
    var wallets: map<UserId, Wallet>
    var renewals: seq<Reference>

    function View(): Ledgers
      reads this
    {
      Ledgers(events, payments, wallets, renewals)
    }

    constructor (opening: Ledgers)
      ensures View() == opening
    {
      events, payments, wallets, renewals := opening.events, opening.payments, opening.wallets, opening.renewals;
    }

    /** What a failed transaction leaves behind. */
    method Rollback(saved: Ledgers)
      modifies this
      ensures View() == saved
    {
      events, payments, wallets, renewals := saved.events, saved.payments, saved.wallets, saved.renewals;
    }

    /** The wallet if need be, the ledger row, which the table may refuse, and the balance. */
    method CreditWallet(u: UserId, amount: int) returns (ok: bool)
      modifies this`wallets
      ensures var credited := Credited(WalletOf(old(wallets), u), amount, None);
        if credited.None? then !ok else ok && wallets == old(wallets)[u := credited.value]
    {
      if u !in wallets {
        wallets := wallets[u := NEW_WALLET];
      }
      if amount <= 0 {
        return false;
      }
      wallets := wallets[u := wallets[u].(ledger := wallets[u].ledger + [LedgerEntry(CREDIT, amount, None)])];
      wallets := wallets[u := wallets[u].(balance := wallets[u].balance + amount)];
      return true;
    }

    /** The update of a payment, which the unique index may refuse. */
    method UpdatePayment(reference: Reference, payment: Payment, externalPaymentId: int) returns (ok: bool)
      modifies this`payments
      ensures ok <==> !IdTaken(old(payments), reference, externalPaymentId)
      ensures payments == if ok then old(payments)[reference := payment.(externalPaymentId := Some(externalPaymentId))]
                          else old(payments)
    {
      if exists s :: s in payments && s != reference && payments[s].externalPaymentId == Some(externalPaymentId) {
        return false;
      }
      payments := payments[reference := payment.(externalPaymentId := Some(externalPaymentId))];
      return true;
    }

    /** What an approved and valid payment is for. */
    method Fulfil(reference: Reference, payment: Payment, d: Delivery) returns (error: Option<WebhookError>)
      modifies this`wallets, this`renewals
      ensures payment.purpose == WALLET_CREDIT ==>
        var credited := Credited(WalletOf(old(wallets), payment.userId), Credit(payment), None);
        && renewals == old(renewals)
        && (if credited.None? then error == Some(LedgerRefused)
            else error == None && wallets == old(wallets)[payment.userId := credited.value])
      ensures payment.purpose == SUBSCRIPTION ==>
        && wallets == old(wallets) && error == SubscriptionProblem(payment, d)
        && renewals == old(renewals) + if error.None? then [reference] else []
    {
      if payment.purpose == WALLET_CREDIT {
        var ok := CreditWallet(payment.userId, payment.coinsAmount + payment.bonusCoins);
        return if ok then None else Some(LedgerRefused);
      }
      error := SubscriptionProblem(payment, d);
      if error.None? {
        renewals := renewals + [reference];
      }
    }

    method Statements(d: Delivery) returns (error: Option<WebhookError>)
      modifies this
      ensures match Deliver(old(View()), d)
              case Ok(l) => error == None && View() == l
              case Err(e) => error == Some(e)
    {
      if d.event in events {
        return None;
      }
      events := events + {d.event};
      if d.reference.None? || d.reference.value !in payments {
        return None;
      }
      var reference := d.reference.value;
      var payment := payments[reference];
      if payment.processedAt.Some? {
        return None;
      }
      var ok;
      if d.status != Approved {
        ok := UpdatePayment(reference, payment.(status := MapStatus(d.status)), d.externalPaymentId);
        return if ok then None else Some(ExternalIdTaken);
      }
      if !ValidFor(d, payment) {
        return None;
      }
      error := Fulfil(reference, payment, d);
      if error.None? {
        var processed := payment.(status := PAYMENT_APPROVED, isCredited := payment.purpose == WALLET_CREDIT,
                                  processedAt := Some(d.at));
        ok := UpdatePayment(reference, processed, d.externalPaymentId);
        error := if ok then None else Some(ExternalIdTaken);
      }
    }

    method Execute(d: Delivery) returns (error: Option<WebhookError>)
      modifies this
      ensures View() == AfterDelivery(old(View()), d)
      ensures error == (match Deliver(old(View()), d) case Ok(_) => None case Err(e) => Some(e))
    {
      var saved := View();
      error := Statements(d);
      if error.Some? {
        Rollback(saved);
      }
    }
  }

  // ---- what deliveries promise ----

  /** What never changes in a payment. */
  ghost predicate SameOrder(p: Payment, q: Payment) {
    && q.userId == p.userId && q.purpose == p.purpose && q.amountCents == p.amountCents
    && q.coinsAmount == p.coinsAmount && q.bonusCoins == p.bonusCoins && q.plan == p.plan
    && q.validityMonths == p.validityMonths
  }

  /** A processed payment never changes again, and no payment appears, disappears or is edited. */
  lemma {:induction false} PaymentsMoveOn(l: Ledgers, ds: seq<Delivery>, r: Reference)
    ensures r in AfterAll(l, ds).payments <==> r in l.payments
    ensures r in l.payments ==> SameOrder(l.payments[r], AfterAll(l, ds).payments[r])
    ensures r in l.payments && l.payments[r].processedAt.Some? ==> AfterAll(l, ds).payments[r] == l.payments[r]
  {
    if ds != [] {
      PaymentsMoveOn(l, ds[..|ds| - 1], r);
    }
  }

  /** The months that are paid for: those of the order, or as many as its plan says. */
  function Months(p: Payment): int
    requires p.plan.Some?
  {
    if p.validityMonths.Some? then p.validityMonths.value else if p.plan.value == MONTHLY then 1 else 12
  }

  /** A plan of one month or of twelve, and the package that is paid for lasts as long; an order
      without a length is as long as its plan says. */
  predicate Renewable(d: Delivery, p: Payment) {
    && p.plan.Some? && (Months(p) == 1 || Months(p) == 12)
    && (d.packageMonths.Some? ==> d.packageMonths.value == Months(p))
  }

  /** The delivery is good for payment `r`: it is approved, in reais, of the amount ordered, and
      there are coins to credit or a subscription to renew. */
  predicate Settles(d: Delivery, r: Reference, p: Payment) {
    && d.reference == Some(r) && d.status == Approved && d.inReais && d.amountCents == Some(p.amountCents)
    && (p.purpose == WALLET_CREDIT ==> p.coinsAmount + p.bonusCoins > 0)
    && (p.purpose == SUBSCRIPTION ==> Renewable(d, p))
  }

  /** ... and is taken up: it is the first of its event, and no other payment holds its id. */
  predicate TakenUp(l: Ledgers, d: Delivery, r: Reference) {
    d.event !in l.events && !IdTaken(l.payments, r, d.externalPaymentId)
  }

  /** Some delivery settles the payment and is taken up. */
  ghost predicate SettledBy(l: Ledgers, ds: seq<Delivery>, r: Reference, p: Payment) {
    exists i :: 0 <= i < |ds| && Settles(ds[i], r, p) && TakenUp(AfterAll(l, ds[..i]), ds[i], r)
  }

  lemma {:induction false} SettledByLast(l: Ledgers, ds: seq<Delivery>, r: Reference, p: Payment)
    requires ds != []
    ensures var (init, last) := (ds[..|ds| - 1], ds[|ds| - 1]);
      SettledBy(l, ds, r, p)
      <==> SettledBy(l, init, r, p) || (Settles(last, r, p) && TakenUp(AfterAll(l, init), last, r))
  {
    var init, last := ds[..|ds| - 1], ds[|ds| - 1];
    if SettledBy(l, ds, r, p) {
      var i :| 0 <= i < |ds| && Settles(ds[i], r, p) && TakenUp(AfterAll(l, ds[..i]), ds[i], r);
      if i < |init| {
        assert init[i] == ds[i] && init[..i] == ds[..i];
      }
    }
    if SettledBy(l, init, r, p) {
      var i :| 0 <= i < |init| && Settles(init[i], r, p) && TakenUp(AfterAll(l, init[..i]), init[i], r);
      assert init[i] == ds[i] && init[..i] == ds[..i];
    }
  }

  lemma {:induction false} ProcessedByDelivery(l: Ledgers, d: Delivery, r: Reference)
    requires r in l.payments
    ensures r in AfterDelivery(l, d).payments
    ensures AfterDelivery(l, d).payments[r].processedAt.Some? <==>
      l.payments[r].processedAt.Some? || (Settles(d, r, l.payments[r]) && TakenUp(l, d, r))
  {}

  /** An unprocessed payment with what a delivery that is not an approval says of it. */
  predicate TakesOver(p: Payment, d: Delivery, after: Payment) {
    && after == p.(status := after.status, externalPaymentId := Some(d.externalPaymentId))
    && (d.status == Rejected ==> after.status == PAYMENT_REJECTED)
    && (d.status == Cancelled ==> after.status == PAYMENT_CANCELLED)
    && (d.status == Refunded ==> after.status == REFUNDED)
    && (d.status == OtherStatus ==> after.status == PAYMENT_PENDING)
  }

  /** The wallet with the coins and the bonus of the payment, in balance and ledger. */
  function WithCoins(wallets: map<UserId, Wallet>, p: Payment): map<UserId, Wallet> {
    var w, coins := if p.userId in wallets then wallets[p.userId] else Wallet(0, []), p.coinsAmount + p.bonusCoins;
    wallets[p.userId := Wallet(w.balance + coins, w.ledger + [LedgerEntry(CREDIT, coins, None)])]
  }

  /** What a delivery writes. One that was seen before, or that fails, writes nothing; one for a
      payment that is unknown or processed, or an approval that does not match the order, is only
      recorded; any other changes its payment, and an approval credits the coins or renews. */
  lemma {:induction false} DeliveredExactly(l: Ledgers, d: Delivery)
    ensures d.event in l.events ==> AfterDelivery(l, d) == l
    ensures d.event !in l.events && (d.reference.None? || d.reference.value !in l.payments) ==>
      AfterDelivery(l, d) == l.(events := l.events + {d.event})
    ensures d.event !in l.events && d.reference.Some? && d.reference.value in l.payments ==>
      var (r, p, after) := (d.reference.value, l.payments[d.reference.value], AfterDelivery(l, d));
      var (taken, recorded) := (IdTaken(l.payments, r, d.externalPaymentId), l.(events := l.events + {d.event}));
      var matches := d.inReais && d.amountCents == Some(p.amountCents);
      && r in after.payments
      && (p.processedAt.Some? ==> after == recorded)
      && (p.processedAt.None? && d.status != Approved && taken ==> after == l)
      && (p.processedAt.None? && d.status != Approved && !taken ==>
        after == recorded.(payments := l.payments[r := after.payments[r]]) && TakesOver(p, d, after.payments[r]))
      && (p.processedAt.None? && d.status == Approved && !matches ==> after == recorded)
      && (p.processedAt.None? && d.status == Approved && matches && !(Settles(d, r, p) && !taken) ==> after == l)
      && (p.processedAt.None? && Settles(d, r, p) && !taken ==>
        && after.payments == l.payments[r := p.(status := PAYMENT_APPROVED, isCredited := p.purpose == WALLET_CREDIT,
          processedAt := Some(d.at), externalPaymentId := Some(d.externalPaymentId))]
        && after.events == l.events + {d.event}
        && after.wallets == (if p.purpose == WALLET_CREDIT then WithCoins(l.wallets, p) else l.wallets)
        && after.renewals == (if p.purpose == SUBSCRIPTION then l.renewals + [r] else l.renewals))
  {}

  /** A delivery fails for the reason that it answers. */
  lemma {:induction false} FailureIsTrue(l: Ledgers, d: Delivery)
    requires Deliver(l, d).Err?
    ensures d.reference.Some? && d.reference.value in l.payments
    ensures var (r, p) := (d.reference.value, l.payments[d.reference.value]);
      match Deliver(l, d).error
      case LedgerRefused => p.purpose == WALLET_CREDIT && p.coinsAmount + p.bonusCoins <= 0
      case ExternalIdTaken =>
        exists s :: s in l.payments && s != r && l.payments[s].externalPaymentId == Some(d.externalPaymentId)
      case NoSubscriptionPlan => p.purpose == SUBSCRIPTION && p.plan.None?
      case InvalidValidity => p.purpose == SUBSCRIPTION && p.plan.Some? && Months(p) != 1 && Months(p) != 12
      case PackageMismatch =>
        p.purpose == SUBSCRIPTION && p.plan.Some? && d.packageMonths.Some? && d.packageMonths.value != Months(p)
  {}

  /** Whatever is delivered, in whatever order and however often: a payment is processed exactly
      when some first-seen delivery for it is approved and valid, is worth something, and brings
      an id that no other payment holds. */
  lemma {:induction false} ProcessedExactly(l: Ledgers, ds: seq<Delivery>, r: Reference)
    requires r in l.payments && l.payments[r].processedAt.None?
    ensures r in AfterAll(l, ds).payments
    ensures AfterAll(l, ds).payments[r].processedAt.Some? <==> SettledBy(l, ds, r, l.payments[r])
  {
    if ds != [] {
      var init := ds[..|ds| - 1];
      ProcessedExactly(l, init, r);
      PaymentsMoveOn(l, init, r);
      ProcessedByDelivery(AfterAll(l, init), ds[|ds| - 1], r);
      SettledByLast(l, ds, r, l.payments[r]);
      SameOrderSettles(ds[|ds| - 1], r, l.payments[r], AfterAll(l, init).payments[r]);
    }
  }

  lemma {:induction false} SameOrderSettles(d: Delivery, r: Reference, p: Payment, q: Payment)
    requires SameOrder(p, q)
    ensures Settles(d, r, p) == Settles(d, r, q)
  {}

  /** A payment of coins that are worth nothing is never processed, whatever is delivered. */
  lemma {:induction false} WorthlessIsNeverProcessed(l: Ledgers, ds: seq<Delivery>, r: Reference)
    requires r in l.payments && l.payments[r].processedAt.None?
    requires l.payments[r].purpose == WALLET_CREDIT && l.payments[r].coinsAmount + l.payments[r].bonusCoins <= 0
    ensures r in AfterAll(l, ds).payments && AfterAll(l, ds).payments[r].processedAt.None?
  {
    ProcessedExactly(l, ds, r);
  }

  // ---- the provider's ids ----

  ghost predicate IdsUnique(payments: map<Reference, Payment>) {
    forall r, s :: r in payments && s in payments && r != s && payments[r].externalPaymentId.Some?
      ==> payments[s].externalPaymentId != payments[r].externalPaymentId
  }

  /** Deliveries never let two payments hold the same id. */
  lemma {:induction false} IdsStayUnique(l: Ledgers, ds: seq<Delivery>)
    requires IdsUnique(l.payments)
    ensures IdsUnique(AfterAll(l, ds).payments)
  {
    if ds != [] {
      IdsStayUnique(l, ds[..|ds| - 1]);
    }
  }

  /** The provider gives a payment's id to no other payment. */
  ghost predicate Consistent(payments: map<Reference, Payment>, ds: seq<Delivery>) {
    && (forall c, d :: c in ds && d in ds && c.externalPaymentId == d.externalPaymentId ==> c.reference == d.reference)
    && (forall r, d :: r in payments && d in ds && payments[r].externalPaymentId == Some(d.externalPaymentId) ==>
      d.reference == Some(r))
  }

  /** A payment's id is the one it had, or that of a delivery for it. */
  lemma {:induction false} IdsAreDelivered(l: Ledgers, ds: seq<Delivery>, r: Reference)
    requires r in AfterAll(l, ds).payments
    ensures r in l.payments
    ensures var id := AfterAll(l, ds).payments[r].externalPaymentId;
      || id == l.payments[r].externalPaymentId
      || exists d :: d in ds && d.reference == Some(r) && id == Some(d.externalPaymentId)
  {
    if ds != [] {
      var init, last := ds[..|ds| - 1], ds[|ds| - 1];
      PaymentsMoveOn(l, init, r);
      IdsAreDelivered(l, init, r);
      assert ds == init + [last];
      var before, after :=
        AfterAll(l, init).payments[r].externalPaymentId, AfterAll(l, ds).payments[r].externalPaymentId;
      assert last in ds;
      if after == before && before != l.payments[r].externalPaymentId {
        var d :| d in init && d.reference == Some(r) && before == Some(d.externalPaymentId);
        assert d in ds;
      }
    }
  }

  /** So with a consistent provider no delivery finds its id taken ... */
  lemma {:induction false} NeverTaken(l: Ledgers, ds: seq<Delivery>, i: nat, r: Reference)
    requires Consistent(l.payments, ds) && i < |ds| && ds[i].reference == Some(r)
    ensures !IdTaken(AfterAll(l, ds[..i]).payments, r, ds[i].externalPaymentId)
  {
    var payments := AfterAll(l, ds[..i]).payments;
    forall s | s in payments && s != r ensures payments[s].externalPaymentId != Some(ds[i].externalPaymentId) {
      IdsAreDelivered(l, ds[..i], s);
      assert forall d :: d in ds[..i] ==> d in ds;
    }
  }

  /** Some delivery settles the payment and is the first of its event. */
  ghost predicate SettledFirst(l: Ledgers, ds: seq<Delivery>, r: Reference, p: Payment) {
    exists i :: 0 <= i < |ds| && Settles(ds[i], r, p) && ds[i].event !in AfterAll(l, ds[..i]).events
  }

  /** ... and a payment is processed exactly when a first-seen delivery settles it. */
  lemma {:induction false} ProcessedConsistently(l: Ledgers, ds: seq<Delivery>, r: Reference)
    requires r in l.payments && l.payments[r].processedAt.None? && Consistent(l.payments, ds)
    ensures r in AfterAll(l, ds).payments
    ensures AfterAll(l, ds).payments[r].processedAt.Some? <==> SettledFirst(l, ds, r, l.payments[r])
  {
    ProcessedExactly(l, ds, r);
    if SettledFirst(l, ds, r, l.payments[r]) {
      var i :| 0 <= i < |ds| && Settles(ds[i], r, l.payments[r]) && ds[i].event !in AfterAll(l, ds[..i]).events;
      NeverTaken(l, ds, i, r);
      assert TakenUp(AfterAll(l, ds[..i]), ds[i], r);
    }
  }

  // ---- the money ----

  /** What a payment has brought its user. */
  function Brought(p: Payment, u: UserId): int {
    if p.userId == u && p.purpose == WALLET_CREDIT && p.processedAt.Some? then p.coinsAmount + p.bonusCoins else 0
  }

  ghost function BroughtBy(payments: map<Reference, Payment>, u: UserId): map<Reference, int> {
    map r | r in payments :: Brought(payments[r], u)
  }

  lemma {:induction false} BroughtChanges(payments: map<Reference, Payment>, r: Reference, p: Payment, u: UserId)
    requires r in payments
    ensures Total(BroughtBy(payments[r := p], u))
      == Total(BroughtBy(payments, u)) + Brought(p, u) - Brought(payments[r], u)
  {
    TotalUpdate(BroughtBy(payments, u), r, Brought(p, u));
    assert BroughtBy(payments[r := p], u) == BroughtBy(payments, u)[r := Brought(p, u)];
  }

  lemma {:induction false} DeliveryPays(l: Ledgers, d: Delivery, u: UserId)
    ensures WalletOf(AfterDelivery(l, d).wallets, u).balance - Total(BroughtBy(AfterDelivery(l, d).payments, u))
      == WalletOf(l.wallets, u).balance - Total(BroughtBy(l.payments, u))
  {
    if d.reference.Some? && d.reference.value in l.payments {
      var r := d.reference.value;
      var p := l.payments[r];
      BroughtChanges(l.payments, r, Processed(p, d), u);
      BroughtChanges(l.payments, r, Updated(p, d), u);
    }
  }

  /** A user's balance has grown by exactly the coins and bonus of the user's payments that have
      been processed: each once, however often its events were delivered. */
  lemma {:induction false} DeliveriesPay(l: Ledgers, ds: seq<Delivery>, u: UserId)
    ensures WalletOf(AfterAll(l, ds).wallets, u).balance - WalletOf(l.wallets, u).balance
      == Total(BroughtBy(AfterAll(l, ds).payments, u)) - Total(BroughtBy(l.payments, u))
  {
    if ds != [] {
      DeliveriesPay(l, ds[..|ds| - 1], u);
      DeliveryPays(AfterAll(l, ds[..|ds| - 1]), ds[|ds| - 1], u);
    }
  }

  // ---- the subscriptions ----

  lemma {:induction false} DeliveryRenews(l: Ledgers, d: Delivery, r: Reference)
    requires r in l.payments
    ensures r in AfterDelivery(l, d).payments
    ensures multiset(AfterDelivery(l, d).renewals)[r] == multiset(l.renewals)[r]
      + if (&& l.payments[r].purpose == SUBSCRIPTION && l.payments[r].processedAt.None?
            && AfterDelivery(l, d).payments[r].processedAt.Some?) then 1 else 0
  {}

  /** A subscription is renewed once when its payment is processed, however often its events are
      delivered, and never otherwise. */
  lemma {:induction false} DeliveriesRenew(l: Ledgers, ds: seq<Delivery>, r: Reference)
    requires r in l.payments
    ensures r in AfterAll(l, ds).payments
    ensures multiset(AfterAll(l, ds).renewals)[r] == multiset(l.renewals)[r]
      + if (&& l.payments[r].purpose == SUBSCRIPTION && l.payments[r].processedAt.None?
            && AfterAll(l, ds).payments[r].processedAt.Some?) then 1 else 0
  {
    if ds != [] {
      var init, last := ds[..|ds| - 1], ds[|ds| - 1];
      DeliveriesRenew(l, init, r);
      PaymentsMoveOn(l, init, r);
      PaymentsMoveOn(AfterAll(l, init), [last], r);
      DeliveryRenews(AfterAll(l, init), last, r);
    }
  }

  /** A reference that is not one of a payment is never renewed. */
  lemma {:induction false} UnknownIsNotRenewed(l: Ledgers, ds: seq<Delivery>, r: Reference)
    requires r !in l.payments
    ensures multiset(AfterAll(l, ds).renewals)[r] == multiset(l.renewals)[r]
  {
    if ds != [] {
      UnknownIsNotRenewed(l, ds[..|ds| - 1], r);
      PaymentsMoveOn(l, ds[..|ds| - 1], r);
    }
  }
}
