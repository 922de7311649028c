/** What holds after any run of payment initializations and provider events, in any order and with
    any repeats. */
module PaymentSafety {
  import opened BillingPeriod
  import opened PaymentStore
  import opened PlanCatalog
  import opened Wrappers

  datatype Step =
    | Initialize(t: Id, organizationId: Id, plan: PlanCode, reference: string, provider: Option<string>, now: Instant)
    | Receive(found: Option<Id>, event: Event, now: Instant)

  ghost predicate CanHappen(plans: seq<Plan>, db: Db, s: Step) {
    match s
    case Initialize(t, org, plan, reference, provider, _) =>
      && t !in db.transactions && org in db.organizations && ActivePlan(plans, plan).Some?
      && (forall u :: u in db.transactions ==> db.transactions[u].internalReference != reference)
      && (forall u :: u in db.transactions && provider.Some? ==> db.transactions[u].providerReference != provider)
    case Receive(found, e, _) => FoundBy(db, e, found)
  }

  /** A step that throws leaves the rows as they were. */
  function Apply(plans: seq<Plan>, db: Db, s: Step): Db {
    match s
    case Initialize(t, org, plan, reference, provider, now) =>
      var p := ActivePlan(plans, plan);
      if p.None? then db
      else db.(transactions := db.transactions[t := NewTransaction(org, p.value, reference, provider, now)])
    case Receive(None, _, _) => db
    case Receive(Some(t), e, now) =>
      if t !in db.transactions then db
      else
        var r := Process(plans, db, t, e, now);
        if r.Ok? then r.value else db
  }

  function After(plans: seq<Plan>, db: Db, steps: seq<Step>): Db
    decreases |steps|
  {
    if steps == [] then db else Apply(plans, After(plans, db, steps[..|steps| - 1]), steps[|steps| - 1])
  }

  ghost predicate Possible(plans: seq<Plan>, db: Db, steps: seq<Step>) {
    forall i :: 0 <= i < |steps| ==> CanHappen(plans, After(plans, db, steps[..i]), steps[i])
  }

  /** No payments yet; organizations and upgrade requests are arbitrary. */
  ghost predicate Initial(db: Db) {
    db.transactions == map[] && db.subscriptions == map[] && db.receipts == map[]
  }

  // ---------- the log of fulfilments ----------

  datatype Fulfillment = Fulfillment(t: Id, organizationId: Id, plan: Plan, start: Instant, end: Instant, event: Event)

  /** The event is for `t`, agrees with its terms and reports it paid. */
  predicate Confirms(s: Step, t: Id, row: Transaction) {
    s.Receive? && s.found == Some(t) && MismatchOf(row, s.event).None? && s.event.status == Paid
  }

  predicate Fulfills(plans: seq<Plan>, db: Db, s: Step) {
    && s.Receive? && s.found.Some? && s.found.value in db.transactions
    && var row := db.transactions[s.found.value];
    && !Settled(row) && Confirms(s, s.found.value, row)
    && Fulfill(plans, db, s.found.value, s.event, s.now).Ok?
  }

  function FulfillmentOf(plans: seq<Plan>, db: Db, s: Step): Fulfillment
    requires Fulfills(plans, db, s)
  {
    var row := db.transactions[s.found.value];
    var plan := ActivePlan(plans, row.planCode).value;
    Fulfillment(s.found.value, row.organizationId, plan, s.now, PeriodEnd(s.now, plan.interval).value, s.event)
  }

  /** Every time fulfillPayment committed, in order. */
  function Log(plans: seq<Plan>, db: Db, steps: seq<Step>): seq<Fulfillment>
    decreases |steps|
  {
    if steps == [] then []
    else
      var before := steps[..|steps| - 1];
      var s := steps[|steps| - 1];
      Log(plans, db, before) + if Fulfills(plans, After(plans, db, before), s) then [FulfillmentOf(plans, After(plans, db, before), s)] else []
  }

  // ---------- what one step can do ----------

  predicate SameTerms(a: Transaction, b: Transaction) {
    && a.organizationId == b.organizationId && a.internalReference == b.internalReference
    && a.providerReference == b.providerReference && a.planCode == b.planCode
    && a.amountMinor == b.amountMinor && a.currency == b.currency && a.createdAt == b.createdAt
  }

  /** A row as initialization made it: the terms are those of an active plan. */
  predicate Priced(plans: seq<Plan>, row: Transaction) {
    var p := ActivePlan(plans, row.planCode);
    p.Some? && row.amountMinor == p.value.amountMinor && row.currency == p.value.currency
  }

  /** A row that is there before and after: its terms stay, and a settled row stays altogether. */
  predicate Kept(a: Transaction, b: Transaction) {
    SameTerms(a, b) && (Settled(a) ==> b == a) && (b.reviewReason == a.reviewReason || b.reviewReason != Some(ReferenceMismatch))
  }

  ghost predicate Quiet(plans: seq<Plan>, db: Db, next: Db) {
    && next == db.(transactions := next.transactions)
    && (forall t :: t in db.transactions ==>
      t in next.transactions && Kept(db.transactions[t], next.transactions[t])
      && (Settled(next.transactions[t]) ==> Settled(db.transactions[t])))
    && (forall t :: t in next.transactions && t !in db.transactions ==>
      var row := next.transactions[t];
      Priced(plans, row) && !Settled(row) && row.reviewReason != Some(ReferenceMismatch)
      && row.organizationId in db.organizations)
  }

  /** A looked-up row is named by one of the event's references, so they never both differ. */
  lemma NeverReferenceMismatch(row: Transaction, e: Event)
    requires NamedBy(row, e)
    ensures MismatchOf(row, e) != Some(ReferenceMismatch)
    ensures MismatchOf(row, e).None? <==> e.amountMinor == row.amountMinor && e.currency == row.currency
  {
  }

  /** The plan is on sale and the period is its billing period. */
  ghost predicate Lawful(plans: seq<Plan>, f: Fulfillment) {
    ActivePlan(plans, f.plan.code) == Some(f.plan) && Some(f.end) == PeriodEnd(f.start, f.plan.interval)
  }

  /** The writes of a fulfilment, and what held before them. */
  ghost predicate Grants(db: Db, next: Db, f: Fulfillment) {
    && f.t in db.transactions
    && var row := db.transactions[f.t];
    && f.organizationId == row.organizationId && f.organizationId in db.organizations
    && f.plan.code == row.planCode && !Settled(row)
    && f.event.status == Paid && MismatchOf(row, f.event).None?
    && (f.t in db.receipts || !NumberTaken(db, f.t))
    && next == Grant(db, f.t, f.event, f.plan, f.end, f.start)
  }

  lemma ProcessIsQuiet(plans: seq<Plan>, db: Db, s: Step)
    requires CanHappen(plans, db, s) && s.Receive? && s.found.Some? && !Fulfills(plans, db, s)
    ensures Quiet(plans, db, Apply(plans, db, s))
  {
    var row := db.transactions[s.found.value];
    NeverReferenceMismatch(row, s.event);
    if !Settled(row) && MismatchOf(row, s.event).None? && s.event.status == Paid {
      assert Apply(plans, db, s) == db;
    }
  }

  lemma StepEffect(plans: seq<Plan>, db: Db, s: Step)
    requires CanHappen(plans, db, s)
    ensures !Fulfills(plans, db, s) ==> Quiet(plans, db, Apply(plans, db, s))
    ensures Fulfills(plans, db, s) ==>
      Grants(db, Apply(plans, db, s), FulfillmentOf(plans, db, s)) && Lawful(plans, FulfillmentOf(plans, db, s))
  {
    if s.Receive? && s.found.Some? && !Fulfills(plans, db, s) {
      ProcessIsQuiet(plans, db, s);
    }
  }

  // ---------- what the rows and the log agree on ----------

  /** The subscription, the receipt and the paid row of `t` are what fulfilment `f` made of them: plan,
      transaction and event agree on the amount and the currency. */
  ghost predicate Backed(db: Db, f: Fulfillment) {
    && f.t in db.transactions && f.t in db.subscriptions && f.t in db.receipts
    && var row := db.transactions[f.t]; var receipt := db.receipts[f.t]; var plan := f.plan;
    && row.status == Paid && f.event.status == Paid
    && row.organizationId == f.organizationId && row.planCode == plan.code
    && row.paidAt == Some(receipt.paidAt) && row.verifiedAt == Some(f.start)
    && row.amountMinor == f.event.amountMinor && row.currency == f.event.currency
    && row.eventReference == f.event.eventId && row.lastReconciledAt == Some(f.start)
    && f.organizationId in db.organizations
    && receipt == Receipt(f.organizationId, ReceiptNumber(row.internalReference), PaidAt(f),
                          db.organizations[f.organizationId].name,
                          plan.code, plan.nameKey, plan.amountMinor, plan.currency, row.providerReference)
    && db.subscriptions[f.t] == Subscription(f.organizationId, plan.code, f.start, f.end, f.start)
  }

  function PaidAt(f: Fulfillment): Instant {
    f.event.paidAt.GetOr(f.start)
  }

  /** Nobody else has written the organization's entitlement since fulfilment `f`. */
  predicate LastOf(log: seq<Fulfillment>, organizationId: Id, i: nat) {
    && i < |log| && log[i].organizationId == organizationId
    && forall j :: i < j < |log| ==> log[j].organizationId != organizationId
  }

  function Granted(f: Fulfillment): Entitlement {
    Entitlement(f.plan.code, f.start, f.end, f.plan.quotas, f.plan.modules)
  }

  function Fulfilled(log: seq<Fulfillment>): set<Id> {
    set f | f in log :: f.t
  }

  ghost predicate RowsPriced(plans: seq<Plan>, db: Db) {
    forall t :: t in db.transactions ==>
      var row := db.transactions[t];
      Priced(plans, row) && row.reviewReason != Some(ReferenceMismatch) && row.organizationId in db.organizations
  }

  ghost predicate RowsAgree(db: Db, log: seq<Fulfillment>) {
    && (forall t :: t in db.transactions && Settled(db.transactions[t]) ==> t in Fulfilled(log))
    && db.receipts.Keys == db.subscriptions.Keys == Fulfilled(log)
    && (forall f :: f in log ==> Backed(db, f))
  }

  ghost predicate Distinct(log: seq<Fulfillment>) {
    forall i, j :: 0 <= i < j < |log| ==> log[i].t != log[j].t
  }

  ghost predicate NumbersDistinct(db: Db) {
    forall t, u :: t in db.receipts && u in db.receipts && t != u ==> db.receipts[t].number != db.receipts[u].number
  }

  ghost predicate OrganizationsAgree(start: Db, db: Db, log: seq<Fulfillment>) {
    && db.organizations.Keys == start.organizations.Keys
    && forall o :: o in db.organizations ==>
      && db.organizations[o].name == start.organizations[o].name
      && (forall i: nat :: LastOf(log, o, i) ==> db.organizations[o].entitlement == Some(Granted(log[i])))
      && ((forall f :: f in log ==> f.organizationId != o) ==> db.organizations[o] == start.organizations[o])
  }

  predicate Serves(f: Fulfillment, r: UpgradeRequest) {
    f.organizationId == r.organizationId && f.plan.code == r.plan
  }

  /** Fulfilment `f` completes the request. */
  predicate Completes(f: Fulfillment, r0: UpgradeRequest, r: UpgradeRequest) {
    Serves(f, r0) && r == r0.(status := UpgradeCompleted, completedAt := Some(f.start))
  }

  /** Exactly the pending requests that a fulfilment serves are completed. */
  ghost predicate UpgradeAgrees(r0: UpgradeRequest, r: UpgradeRequest, log: seq<Fulfillment>) {
    && (r == r0 || exists f :: f in log && Completes(f, r0, r))
    && r.status == if r0.status == UpgradePending && (exists f :: f in log && Serves(f, r0)) then UpgradeCompleted
                   else r0.status
  }

  ghost predicate UpgradesAgree(start: Db, db: Db, log: seq<Fulfillment>) {
    && db.upgrades.Keys == start.upgrades.Keys
    && forall u :: u in db.upgrades ==> UpgradeAgrees(start.upgrades[u], db.upgrades[u], log)
  }

  ghost predicate LogLawful(plans: seq<Plan>, log: seq<Fulfillment>) {
    forall f :: f in log ==> Lawful(plans, f)
  }

  ghost predicate Agree(plans: seq<Plan>, start: Db, db: Db, log: seq<Fulfillment>) {
    && RowsPriced(plans, db) && LogLawful(plans, log)
    && RowsAgree(db, log) && Distinct(log) && NumbersDistinct(db)
    && OrganizationsAgree(start, db, log) && UpgradesAgree(start, db, log)
  }

  lemma QuietKeepsRows(plans: seq<Plan>, db: Db, next: Db, log: seq<Fulfillment>)
    requires RowsAgree(db, log) && Quiet(plans, db, next)
    ensures RowsAgree(next, log)
  {
    forall f | f in log ensures Backed(next, f) {
      assert Backed(db, f);
    }
  }

  lemma QuietKeeps(plans: seq<Plan>, start: Db, db: Db, next: Db, log: seq<Fulfillment>)
    requires Agree(plans, start, db, log) && Quiet(plans, db, next)
    ensures Agree(plans, start, next, log)
  {
    QuietKeepsRows(plans, db, next, log);
    assert RowsPriced(plans, next);
  }

  lemma UnsettledIsNew(db: Db, t: Id, log: seq<Fulfillment>)
    requires RowsAgree(db, log) && t in db.transactions && !Settled(db.transactions[t])
    ensures t !in Fulfilled(log) && t !in db.receipts && t !in db.subscriptions
  {
    forall f | f in log ensures f.t != t {
      assert Backed(db, f);
    }
  }

  lemma GrantKeepsBacked(db: Db, next: Db, f: Fulfillment, g: Fulfillment)
    requires Grants(db, next, f) && Backed(db, g) && g.t != f.t
    ensures Backed(next, g)
  {
  }

  lemma GrantIsBacked(db: Db, next: Db, f: Fulfillment)
    requires Grants(db, next, f) && f.t !in db.receipts && f.t !in db.subscriptions
    ensures Backed(next, f)
  {
  }

  lemma FulfilledGrows(log: seq<Fulfillment>, f: Fulfillment)
    ensures Fulfilled(log + [f]) == Fulfilled(log) + {f.t}
  {
    assert forall g :: g in log + [f] <==> g in log || g == f;
  }

  lemma GrantKeys(db: Db, next: Db, f: Fulfillment)
    requires Grants(db, next, f)
    ensures next.receipts.Keys == db.receipts.Keys + {f.t} && next.subscriptions.Keys == db.subscriptions.Keys + {f.t}
    ensures forall t :: t in next.transactions && t != f.t ==> t in db.transactions && next.transactions[t] == db.transactions[t]
  {
  }

  lemma GrantKeepsRows(db: Db, next: Db, f: Fulfillment, log: seq<Fulfillment>)
    requires RowsAgree(db, log) && Grants(db, next, f)
    ensures RowsAgree(next, log + [f]) && f.t !in Fulfilled(log)
  {
    UnsettledIsNew(db, f.t, log);
    GrantIsBacked(db, next, f);
    FulfilledGrows(log, f);
    GrantKeys(db, next, f);
    forall g | g in log + [f] ensures Backed(next, g) {
      if g in log {
        assert g.t in Fulfilled(log);
        GrantKeepsBacked(db, next, f, g);
      }
    }
  }

  lemma GrantKeepsNumbers(db: Db, next: Db, f: Fulfillment)
    requires NumbersDistinct(db) && Grants(db, next, f)
    ensures NumbersDistinct(next)
  {
  }

  lemma GrantKeepsOrganizations(start: Db, db: Db, next: Db, f: Fulfillment, log: seq<Fulfillment>)
    requires OrganizationsAgree(start, db, log) && Grants(db, next, f)
    ensures OrganizationsAgree(start, next, log + [f])
  {
    var log' := log + [f];
    assert log'[|log|] == f;
    forall o, i: nat | o in next.organizations && LastOf(log', o, i)
      ensures next.organizations[o].entitlement == Some(Granted(log'[i]))
    {
      if o == f.organizationId {
        assert i == |log|;
      } else {
        assert LastOf(log, o, i) by {
          forall j | i < j < |log| ensures log[j].organizationId != o { assert log'[j] == log[j]; }
        }
      }
    }
  }

  lemma GrantKeepsUpgrades(start: Db, db: Db, next: Db, f: Fulfillment, log: seq<Fulfillment>)
    requires UpgradesAgree(start, db, log) && Grants(db, next, f)
    ensures UpgradesAgree(start, next, log + [f])
  {
    assert forall g :: g in log + [f] <==> g in log || g == f;
    forall u | u in next.upgrades ensures UpgradeAgrees(start.upgrades[u], next.upgrades[u], log + [f]) {
      assert UpgradeAgrees(start.upgrades[u], db.upgrades[u], log);
      assert next.upgrades[u] == Completed(db.upgrades[u], f.organizationId, f.plan.code, f.start);
      assert f in log + [f];
    }
  }

  lemma GrantKeepsPrices(plans: seq<Plan>, db: Db, next: Db, f: Fulfillment)
    requires RowsPriced(plans, db) && Grants(db, next, f)
    ensures RowsPriced(plans, next)
  {
  }

  lemma StepKeeps(plans: seq<Plan>, start: Db, db: Db, s: Step, log: seq<Fulfillment>)
    requires Agree(plans, start, db, log) && CanHappen(plans, db, s)
    ensures Agree(plans, start, Apply(plans, db, s), log + if Fulfills(plans, db, s) then [FulfillmentOf(plans, db, s)] else [])
    ensures Fulfills(plans, db, s) ==> s.found.value !in Fulfilled(log)
  {
    var next := Apply(plans, db, s);
    StepEffect(plans, db, s);
    if Fulfills(plans, db, s) {
      var f := FulfillmentOf(plans, db, s);
      GrantKeepsPrices(plans, db, next, f);
      GrantKeepsRows(db, next, f, log);
      GrantKeepsDistinct(log, f);
      GrantKeepsNumbers(db, next, f);
      GrantKeepsOrganizations(start, db, next, f, log);
      GrantKeepsUpgrades(start, db, next, f, log);
      assert LogLawful(plans, log + [f]);
    } else {
      QuietKeeps(plans, start, db, next, log);
      assert log + [] == log;
    }
  }

  lemma GrantKeepsDistinct(log: seq<Fulfillment>, f: Fulfillment)
    requires Distinct(log) && f.t !in Fulfilled(log)
    ensures Distinct(log + [f])
  {
    assert forall g :: g in log ==> g.t in Fulfilled(log);
  }

  lemma PossiblePrefix(plans: seq<Plan>, db: Db, steps: seq<Step>)
    requires steps != [] && Possible(plans, db, steps)
    ensures Possible(plans, db, steps[..|steps| - 1])
    ensures CanHappen(plans, After(plans, db, steps[..|steps| - 1]), steps[|steps| - 1])
  {
    var before := steps[..|steps| - 1];
    forall i | 0 <= i < |before| ensures CanHappen(plans, After(plans, db, before[..i]), before[i]) {
      assert before[..i] == steps[..i];
    }
  }

  /** After every run the rows and the log of fulfilments agree. */
  lemma {:induction false} EveryRunAgrees(plans: seq<Plan>, start: Db, steps: seq<Step>)
    requires Initial(start) && Possible(plans, start, steps)
    ensures Agree(plans, start, After(plans, start, steps), Log(plans, start, steps))
    decreases |steps|
  {
    if steps != [] {
      var before, s := steps[..|steps| - 1], steps[|steps| - 1];
      PossiblePrefix(plans, start, steps);
      EveryRunAgrees(plans, start, before);
      StepKeeps(plans, start, After(plans, start, before), s, Log(plans, start, before));
    }
  }
}
