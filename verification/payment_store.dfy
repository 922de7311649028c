/** The rows behind organization payments and the `$transaction` that a trusted provider event runs on
    them. Each function is one atomic step. */
module PaymentStore {
  import opened BillingPeriod
  import opened PlanCatalog
  import opened Text
  import opened Wrappers

  type Id = nat
  type Instant = int

  datatype Status =
    | Initialized | Pending | Processing | Paid | Verified | Failed | Abandoned | Expired | Refunded | ReviewRequired

  datatype Review = AmountMismatch | CurrencyMismatch | ReferenceMismatch | InitializationFailed

  datatype Transaction = Transaction(
    organizationId: Id, internalReference: string, providerReference: Option<string>, planCode: PlanCode,
    amountMinor: int, currency: string, createdAt: Instant, status: Status, paidAt: Option<Instant>,
    verifiedAt: Option<Instant>, failedAt: Option<Instant>, refundedAt: Option<Instant>,
    eventReference: Option<string>, lastReconciledAt: Option<Instant>, reviewReason: Option<Review>)

  datatype Organization = Organization(name: string, entitlement: Option<Entitlement>)

  /** What a payment grants: the plan, its period and quotas, with billing status ACTIVE. */
  datatype Entitlement = Entitlement(plan: PlanCode, start: Instant, end: Instant, quotas: Quotas, modules: seq<string>)

  /** A subscription is keyed by its source transaction. */
  datatype Subscription = Subscription(organizationId: Id, plan: PlanCode, start: Instant, end: Instant,
                                       entitlementAppliedAt: Instant)

  /** A receipt is keyed by its transaction. */
  datatype Receipt = Receipt(organizationId: Id, number: string, paidAt: Instant, organizationName: string,
                             plan: PlanCode, planNameKey: string, amountMinor: int, currency: string,
                             providerReference: Option<string>)

  datatype UpgradeStatus = UpgradePending | UpgradeApproved | UpgradeRejected | UpgradeCancelled | UpgradeCompleted
  datatype UpgradeRequest = UpgradeRequest(organizationId: Id, plan: PlanCode, status: UpgradeStatus,
                                           completedAt: Option<Instant>)

  datatype Db = Db(organizations: map<Id, Organization>, transactions: map<Id, Transaction>,
                   subscriptions: map<Id, Subscription>, receipts: map<Id, Receipt>,
                   upgrades: map<Id, UpgradeRequest>)

  /** A normalized provider transaction, with the event identifier that is recorded for it. */
  datatype Event = Event(internalReference: string, providerReference: string, status: Status, amountMinor: int,
                         currency: string, paidAt: Option<Instant>, eventId: Option<string>)

  datatype Problem = NotFound | InvalidPlan | InvalidDate | ReceiptNumberTaken

  predicate Settled(row: Transaction) {
    row.status == Paid || row.status == Verified
  }

  predicate NamedBy(row: Transaction, e: Event) {
    row.internalReference == e.internalReference || row.providerReference == Some(e.providerReference)
  }

  /** `found` is a row that the unordered findFirst may return. */
  ghost predicate FoundBy(db: Db, e: Event, found: Option<Id>) {
    match found
    case Some(t) => t in db.transactions && NamedBy(db.transactions[t], e)
    case None => forall t :: t in db.transactions ==> !NamedBy(db.transactions[t], e)
  }

  /** paymentMismatch */
  function MismatchOf(row: Transaction, e: Event): Option<Review> {
    if e.amountMinor != row.amountMinor then Some(AmountMismatch)
    else if e.currency != row.currency then Some(CurrencyMismatch)
    else if e.internalReference != row.internalReference && row.providerReference != Some(e.providerReference)
    then Some(ReferenceMismatch)
    else None
  }

  function ReceiptNumber(reference: string): string {
    "RCPT-" + Upper(if |reference| < 12 then reference else reference[|reference| - 12..])
  }

  /** Another transaction's receipt has the number that `t` would get, so inserting it would fail. */
  predicate NumberTaken(db: Db, t: Id)
    requires t in db.transactions
  {
    exists u :: u in db.receipts && u != t && db.receipts[u].number == ReceiptNumber(db.transactions[t].internalReference)
  }

  function SettleStatus(s: Status): Status {
    if s == Refunded then Refunded else if s == Failed then Failed else Processing
  }

  function CompleteUpgrades(upgrades: map<Id, UpgradeRequest>, organizationId: Id, plan: PlanCode, now: Instant)
    : map<Id, UpgradeRequest>
  {
    map u | u in upgrades :: Completed(upgrades[u], organizationId, plan, now)
  }

  function Completed(r: UpgradeRequest, organizationId: Id, plan: PlanCode, now: Instant): UpgradeRequest {
    if r.organizationId == organizationId && r.plan == plan && r.status == UpgradePending
    then r.(status := UpgradeCompleted, completedAt := Some(now))
    else r
  }

  /** The writes of fulfillPayment. */
  function Grant(db: Db, t: Id, e: Event, plan: Plan, end: Instant, now: Instant): Db
    requires t in db.transactions && db.transactions[t].organizationId in db.organizations
  {
    var row := db.transactions[t];
    var org := db.organizations[row.organizationId];
    var paidAt := e.paidAt.GetOr(now);
    Db(db.organizations[row.organizationId :=
         org.(entitlement := Some(Entitlement(plan.code, now, end, plan.quotas, plan.modules)))],
       db.transactions[t := row.(status := Paid, paidAt := Some(paidAt), verifiedAt := Some(now),
                                 eventReference := e.eventId, lastReconciledAt := Some(now))],
       db.subscriptions[t :=
         if t in db.subscriptions then db.subscriptions[t].(entitlementAppliedAt := now)
         else Subscription(row.organizationId, plan.code, now, end, now)],
       if t in db.receipts then db.receipts
       else db.receipts[t := Receipt(row.organizationId, ReceiptNumber(row.internalReference), paidAt, org.name,
                                     plan.code, plan.nameKey, plan.amountMinor, plan.currency, row.providerReference)],
       CompleteUpgrades(db.upgrades, row.organizationId, plan.code, now))
  }

  /** fulfillPayment: the writes, or the reason why the transaction rolls back. */
  function Fulfill(plans: seq<Plan>, db: Db, t: Id, e: Event, now: Instant): Result<Db, Problem>
    requires t in db.transactions
  {
    var row := db.transactions[t];
    var plan := ActivePlan(plans, row.planCode);
    if plan.None? then Err(InvalidPlan)
    else
      var end := PeriodEnd(now, plan.value.interval);
      if end.None? then Err(InvalidDate)
      else if row.organizationId !in db.organizations then Err(NotFound)
      else if t !in db.receipts && NumberTaken(db, t) then Err(ReceiptNumberTaken)
      else Ok(Grant(db, t, e, plan.value, end.value, now))
  }

  /** processTrustedProviderTransaction on the row that was found */
  function Process(plans: seq<Plan>, db: Db, t: Id, e: Event, now: Instant): (r: Result<Db, Problem>)
    requires t in db.transactions
    ensures r.Ok? ==> r.value.transactions.Keys == db.transactions.Keys
  {
    var row := db.transactions[t];
    if Settled(row) then Ok(db)
    else
      var mismatch := MismatchOf(row, e);
      if mismatch.Some? then
        Ok(db.(transactions := db.transactions[t := row.(status := ReviewRequired, eventReference := e.eventId,
                                                         reviewReason := mismatch, lastReconciledAt := Some(now))]))
      else if e.status == Paid then Fulfill(plans, db, t, e, now)
      else
        var status := SettleStatus(e.status);
        Ok(db.(transactions := db.transactions[t := row.(
          status := status,
          failedAt := if status == Failed then Some(now) else row.failedAt,
          refundedAt := if status == Refunded then Some(now) else row.refundedAt,
          eventReference := e.eventId,
          lastReconciledAt := Some(now))]))
  }

  /** The row that initializing a payment leaves: PENDING with the provider's reference, or FAILED. */
  function NewTransaction(organizationId: Id, plan: Plan, reference: string, provider: Option<string>, now: Instant)
    : Transaction
  {
    Transaction(organizationId, reference, provider, plan.code, plan.amountMinor, plan.currency, now,
                if provider.Some? then Pending else Failed, None, None,
                if provider.Some? then None else Some(now), None, None, None,
                if provider.Some? then None else Some(InitializationFailed))
  }
}
