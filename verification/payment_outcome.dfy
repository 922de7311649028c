/** What a run of provider events decides: a payment is final, happens at most once, and depends on
    which events arrived rather than on their order. */
module PaymentOutcome {
  import opened BillingPeriod
  import opened PaymentSafety
  import opened PaymentStore
  import opened PlanCatalog
  import opened ReceiptNumbers
  import opened Wrappers

  /** Rows are kept and settled rows never change. */
  ghost predicate Extends(db: Db, next: Db) {
    && (forall t :: t in db.transactions ==> t in next.transactions && Kept(db.transactions[t], next.transactions[t]))
    && (forall t :: t in db.receipts ==> t in next.receipts && next.receipts[t] == db.receipts[t])
  }

  lemma StepExtends(plans: seq<Plan>, db: Db, s: Step)
    requires CanHappen(plans, db, s)
    ensures Extends(db, Apply(plans, db, s))
  {
    StepEffect(plans, db, s);
    if Fulfills(plans, db, s) {
      GrantExtends(db, Apply(plans, db, s), FulfillmentOf(plans, db, s));
    }
  }

  lemma GrantExtends(db: Db, next: Db, f: Fulfillment)
    requires Grants(db, next, f)
    ensures Extends(db, next)
  {
  }

  lemma ExtendsTransitive(a: Db, b: Db, c: Db)
    requires Extends(a, b) && Extends(b, c)
    ensures Extends(a, c)
  {
  }

  /** A paid transaction and its receipt are final: no later event changes them, not even a refund. */
  lemma {:induction false} PaidIsFinal(plans: seq<Plan>, start: Db, steps: seq<Step>, i: nat)
    requires Possible(plans, start, steps) && i <= |steps|
    ensures Extends(After(plans, start, steps[..i]), After(plans, start, steps))
    decreases |steps|
  {
    if i < |steps| {
      var before := steps[..|steps| - 1];
      PossiblePrefix(plans, start, steps);
      PaidIsFinal(plans, start, before, i);
      assert before[..i] == steps[..i];
      StepExtends(plans, After(plans, start, before), steps[|steps| - 1]);
      ExtendsTransitive(After(plans, start, steps[..i]), After(plans, start, before), After(plans, start, steps));
    } else {
      assert steps[..i] == steps;
    }
  }

  /** No other receipt holds the number that `t` would get, and its period has an end. */
  ghost predicate Unblocked(plans: seq<Plan>, db: Db, t: Id, now: Instant) {
    && t in db.transactions && !NumberTaken(db, t)
    && var p := ActivePlan(plans, db.transactions[t].planCode);
    && p.Some? && PeriodEnd(now, p.value.interval).Some?
  }

  predicate IsPaid(db: Db, t: Id) {
    t in db.transactions && db.transactions[t].status == Paid
  }

  ghost predicate Pays(plans: seq<Plan>, db: Db, s: Step, t: Id, row: Transaction) {
    Confirms(s, t, row) && Unblocked(plans, db, t, s.now)
  }

  /** Step `i` confirms the payment of `t` while nothing blocks it. */
  ghost predicate PaidBy(plans: seq<Plan>, start: Db, steps: seq<Step>, t: Id, row: Transaction, i: nat) {
    i < |steps| && Pays(plans, After(plans, start, steps[..i]), steps[i], t, row)
  }

  lemma SettledStep(plans: seq<Plan>, db: Db, s: Step, log: seq<Fulfillment>, t: Id)
    requires RowsAgree(db, log) && CanHappen(plans, db, s) && t in db.transactions && Settled(db.transactions[t])
    ensures IsPaid(Apply(plans, db, s), t) && IsPaid(db, t)
  {
    SettledIsPaid(db, log, t);
    StepExtends(plans, db, s);
  }

  lemma StepPays(plans: seq<Plan>, db: Db, s: Step, log: seq<Fulfillment>, t: Id)
    requires RowsPriced(plans, db) && RowsAgree(db, log) && CanHappen(plans, db, s)
    ensures t in db.transactions ==>
      (IsPaid(Apply(plans, db, s), t) <==> IsPaid(db, t) || Pays(plans, db, s, t, db.transactions[t]))
    ensures t !in db.transactions ==> !IsPaid(Apply(plans, db, s), t)
  {
    if t !in db.transactions {
      StepEffect(plans, db, s);
    } else if Settled(db.transactions[t]) {
      SettledStep(plans, db, s, log, t);
    } else {
      UnsettledIsNew(db, t, log);
      UnsettledStep(plans, db, s, t);
    }
  }

  lemma SameTermsPay(plans: seq<Plan>, db: Db, s: Step, t: Id, a: Transaction, b: Transaction)
    requires SameTerms(a, b)
    ensures Pays(plans, db, s, t, a) <==> Pays(plans, db, s, t, b)
  {
  }

  lemma TermsStay(plans: seq<Plan>, db: Db, s: Step, t: Id)
    requires CanHappen(plans, db, s) && t in db.transactions
    ensures var next := Apply(plans, db, s);
      t in next.transactions && SameTerms(db.transactions[t], next.transactions[t])
  {
    StepExtends(plans, db, s);
  }

  lemma SettledIsPaid(db: Db, log: seq<Fulfillment>, t: Id)
    requires RowsAgree(db, log) && t in db.transactions && Settled(db.transactions[t])
    ensures IsPaid(db, t)
  {
    var f :| f in log && f.t == t;
    assert Backed(db, f);
  }

  lemma UnsettledStep(plans: seq<Plan>, db: Db, s: Step, t: Id)
    requires CanHappen(plans, db, s) && t in db.transactions && !Settled(db.transactions[t]) && t !in db.receipts
    requires Priced(plans, db.transactions[t]) && db.transactions[t].organizationId in db.organizations
    ensures IsPaid(Apply(plans, db, s), t) <==> Pays(plans, db, s, t, db.transactions[t])
  {
    var row := db.transactions[t];
    if Confirms(s, t, row) {
      assert Apply(plans, db, s) == var r := Fulfill(plans, db, t, s.event, s.now); if r.Ok? then r.value else db;
      assert Unblocked(plans, db, t, s.now) <==> Fulfill(plans, db, t, s.event, s.now).Ok?;
    } else {
      StepEffect(plans, db, s);
    }
  }

  ghost predicate Confirmed(plans: seq<Plan>, start: Db, steps: seq<Step>, t: Id, row: Transaction) {
    exists i: nat :: PaidBy(plans, start, steps, t, row, i)
  }

  lemma ConfirmedStep(plans: seq<Plan>, start: Db, steps: seq<Step>, t: Id, row: Transaction)
    requires steps != []
    ensures var n := |steps| - 1; Confirmed(plans, start, steps, t, row) <==>
      Confirmed(plans, start, steps[..n], t, row) || PaidBy(plans, start, steps, t, row, n)
  {
    var before := steps[..|steps| - 1];
    forall i: nat | i < |before|
      ensures PaidBy(plans, start, before, t, row, i) <==> PaidBy(plans, start, steps, t, row, i)
    {
      assert before[..i] == steps[..i];
    }
  }

  lemma SameConfirmations(plans: seq<Plan>, start: Db, steps: seq<Step>, t: Id, a: Transaction, b: Transaction)
    requires SameTerms(a, b)
    ensures Confirmed(plans, start, steps, t, a) <==> Confirmed(plans, start, steps, t, b)
  {
    assert forall i: nat :: PaidBy(plans, start, steps, t, a, i) <==> PaidBy(plans, start, steps, t, b, i);
  }

  lemma AbsentIsUnconfirmed(plans: seq<Plan>, start: Db, steps: seq<Step>, t: Id, row: Transaction)
    requires Possible(plans, start, steps) && t !in After(plans, start, steps).transactions
    ensures !Confirmed(plans, start, steps, t, row)
  {
    forall i: nat | i < |steps| ensures t !in After(plans, start, steps[..i]).transactions {
      PaidIsFinal(plans, start, steps, i);
    }
  }

  lemma LastStepPays(plans: seq<Plan>, start: Db, steps: seq<Step>, t: Id)
    requires Initial(start) && Possible(plans, start, steps) && steps != []
    requires t in After(plans, start, steps).transactions
    ensures var n := |steps| - 1; var before := steps[..n];
      var db, db0 := After(plans, start, steps), After(plans, start, before);
      && Possible(plans, start, before)
      && (t in db0.transactions ==> SameTerms(db0.transactions[t], db.transactions[t]))
      && (IsPaid(db, t) <==> IsPaid(db0, t) || PaidBy(plans, start, steps, t, db.transactions[t], n))
  {
    var n := |steps| - 1;
    var before, s := steps[..n], steps[n];
    PossiblePrefix(plans, start, steps);
    EveryRunAgrees(plans, start, before);
    var db0 := After(plans, start, before);
    StepPays(plans, db0, s, Log(plans, start, before), t);
    if t in db0.transactions {
      TermsStay(plans, db0, s, t);
      SameTermsPay(plans, db0, s, t, db0.transactions[t], After(plans, start, steps).transactions[t]);
    }
  }

  /** The exact condition: a transaction ends PAID if and only if some event names it, agrees with its
      amount and currency, reports it paid and arrives while its receipt number is free. */
  lemma {:induction false} PaidExactly(plans: seq<Plan>, start: Db, steps: seq<Step>, t: Id)
    requires Initial(start) && Possible(plans, start, steps) && t in After(plans, start, steps).transactions
    ensures var db := After(plans, start, steps);
      IsPaid(db, t) <==> Confirmed(plans, start, steps, t, db.transactions[t])
    decreases |steps|
  {
    if steps != [] {
      var before := steps[..|steps| - 1];
      var db0 := After(plans, start, before);
      var row := After(plans, start, steps).transactions[t];
      LastStepPays(plans, start, steps, t);
      ConfirmedStep(plans, start, steps, t, row);
      if t in db0.transactions {
        PaidExactly(plans, start, before, t);
        SameConfirmations(plans, start, before, t, db0.transactions[t], row);
      } else {
        AbsentIsUnconfirmed(plans, start, before, t, row);
      }
    }
  }

  // ---------- distinct receipt numbers ----------

  /** No two transactions end in the same twelve characters, letter case aside. */
  ghost predicate DistinctNumbers(db: Db) {
    forall t, u :: t in db.transactions && u in db.transactions && t != u ==>
      !SameEnding(db.transactions[t].internalReference, db.transactions[u].internalReference)
  }

  /** The clock stays far enough from the end of time for a period to end. */
  ghost predicate InTime(steps: seq<Step>) {
    forall s, interval :: s in steps && s.Receive? ==> PeriodEnd(s.now, interval).Some?
  }

  lemma NumberIsFree(plans: seq<Plan>, start: Db, steps: seq<Step>, i: nat, t: Id)
    requires Initial(start) && Possible(plans, start, steps) && i < |steps|
    requires t in After(plans, start, steps[..i]).transactions && DistinctNumbers(After(plans, start, steps))
    ensures !NumberTaken(After(plans, start, steps[..i]), t)
  {
    var db, last := After(plans, start, steps[..i]), After(plans, start, steps);
    PossibleUpTo(plans, start, steps, i);
    EveryRunAgrees(plans, start, steps[..i]);
    PaidIsFinal(plans, start, steps, i);
    var log := Log(plans, start, steps[..i]);
    forall u | u in db.receipts && u != t
      ensures db.receipts[u].number != ReceiptNumber(db.transactions[t].internalReference)
    {
      var f :| f in log && f.t == u;
      assert Backed(db, f);
      assert u in last.transactions && t in last.transactions;
      SameNumberIff(db.transactions[u].internalReference, db.transactions[t].internalReference);
    }
  }

  lemma PossibleUpTo(plans: seq<Plan>, start: Db, steps: seq<Step>, i: nat)
    requires Possible(plans, start, steps) && i <= |steps|
    ensures Possible(plans, start, steps[..i])
  {
    forall j | 0 <= j < i ensures steps[..i][..j] == steps[..j] {}
  }

  ghost predicate Delivers(steps: seq<Step>, t: Id, row: Transaction) {
    exists s :: s in steps && Confirms(s, t, row)
  }

  /** With distinct receipt numbers, a transaction ends PAID if and only if the run contains a matching
      PAID event for it: the order and the number of the events do not matter. */
  lemma PaidIffConfirmed(plans: seq<Plan>, start: Db, steps: seq<Step>, t: Id)
    requires Initial(start) && Possible(plans, start, steps) && t in After(plans, start, steps).transactions
    requires DistinctNumbers(After(plans, start, steps)) && InTime(steps)
    ensures var db := After(plans, start, steps);
      IsPaid(db, t) <==> Delivers(steps, t, db.transactions[t])
  {
    var db := After(plans, start, steps);
    PaidExactly(plans, start, steps, t);
    forall s | s in steps && Confirms(s, t, db.transactions[t])
      ensures Confirmed(plans, start, steps, t, db.transactions[t])
    {
      var i: nat :| i < |steps| && steps[i] == s;
      var db0 := After(plans, start, steps[..i]);
      assert CanHappen(plans, db0, s);
      NumberIsFree(plans, start, steps, i, t);
      PossibleUpTo(plans, start, steps, i);
      EveryRunAgrees(plans, start, steps[..i]);
      assert Priced(plans, db0.transactions[t]);
      assert PaidBy(plans, start, steps, t, db.transactions[t], i);
    }
  }

  lemma EventsDecide(plans: seq<Plan>, start: Db, setup: seq<Step>, events: seq<Step>, t: Id)
    requires Initial(start) && Possible(plans, start, setup + events) && t in After(plans, start, setup).transactions
    requires DistinctNumbers(After(plans, start, setup + events)) && InTime(setup + events)
    ensures IsPaid(After(plans, start, setup + events), t) <==>
      Delivers(setup + events, t, After(plans, start, setup).transactions[t])
  {
    var steps := setup + events;
    assert steps[..|setup|] == setup;
    PaidIsFinal(plans, start, steps, |setup|);
    PaidIffConfirmed(plans, start, steps, t);
    SameTermsDeliver(steps, t, After(plans, start, setup).transactions[t], After(plans, start, steps).transactions[t]);
  }

  lemma SameTermsDeliver(steps: seq<Step>, t: Id, a: Transaction, b: Transaction)
    requires SameTerms(a, b)
    ensures Delivers(steps, t, a) <==> Delivers(steps, t, b)
  {
    assert forall s :: Confirms(s, t, a) <==> Confirms(s, t, b);
  }

  /** Two runs that deliver the same events to the same transactions, in any order, pay the same ones. */
  lemma OrderDoesNotMatter(plans: seq<Plan>, start: Db, setup: seq<Step>, a: seq<Step>, b: seq<Step>, t: Id)
    requires Initial(start) && Possible(plans, start, setup + a) && Possible(plans, start, setup + b)
    requires multiset(a) == multiset(b) && t in After(plans, start, setup).transactions
    requires DistinctNumbers(After(plans, start, setup + a)) && DistinctNumbers(After(plans, start, setup + b))
    requires InTime(setup + a)
    ensures IsPaid(After(plans, start, setup + a), t) <==> IsPaid(After(plans, start, setup + b), t)
  {
    forall s ensures s in setup + a <==> s in setup + b {
      assert s in a <==> s in multiset(a);
      assert s in b <==> s in multiset(b);
    }
    EventsDecide(plans, start, setup, a, t);
    EventsDecide(plans, start, setup, b, t);
  }

  // ---------- shared receipt numbers ----------

  function Sale(plan: Plan, reference: string): Event {
    Event(reference, reference, Paid, plan.amountMinor, plan.currency, None, None)
  }

  lemma OneMoreStep(plans: seq<Plan>, start: Db, steps: seq<Step>, s: Step)
    ensures After(plans, start, steps + [s]) == Apply(plans, After(plans, start, steps), s)
    ensures Possible(plans, start, steps) && CanHappen(plans, After(plans, start, steps), s) ==>
      Possible(plans, start, steps + [s])
  {
    assert (steps + [s])[..|steps|] == steps;
    forall i | 0 <= i < |steps| ensures (steps + [s])[..i] == steps[..i] {}
  }

  function TwoPayments(plan: Plan, a: string, b: string, now: Instant): seq<Step> {
    [Initialize(0, 0, plan.code, a, Some(a), now)] + [Initialize(1, 0, plan.code, b, Some(b), now)]
  }

  lemma TwoInitialized(plans: seq<Plan>, start: Db, plan: Plan, a: string, b: string, now: Instant)
    requires Initial(start) && 0 in start.organizations && ActivePlan(plans, plan.code) == Some(plan) && a != b
    ensures var rows := map[0 := NewTransaction(0, plan, a, Some(a), now), 1 := NewTransaction(0, plan, b, Some(b), now)];
      var steps := TwoPayments(plan, a, b, now);
      Possible(plans, start, steps) && After(plans, start, steps) == start.(transactions := rows)
  {
    var s0, s1 := Initialize(0, 0, plan.code, a, Some(a), now), Initialize(1, 0, plan.code, b, Some(b), now);
    assert [s0] == [] + [s0];
    OneMoreStep(plans, start, [], s0);
    OneMoreStep(plans, start, [s0], s1);
  }

  lemma FirstSale(plans: seq<Plan>, db: Db, plan: Plan, a: string, b: string, now: Instant)
    requires ActivePlan(plans, plan.code) == Some(plan) && a != b && PeriodEnd(now, plan.interval).Some?
    requires db.receipts == map[] && 0 in db.organizations
    requires db.transactions == map[0 := NewTransaction(0, plan, a, Some(a), now), 1 := NewTransaction(0, plan, b, Some(b), now)]
    ensures var e := Receive(Some(0), Sale(plan, a), now); var next := Apply(plans, db, e);
      && CanHappen(plans, db, e) && 0 in next.receipts && next.receipts[0].number == ReceiptNumber(a)
      && IsPaid(next, 0) && next.transactions.Keys == {0, 1} && next.transactions[1] == db.transactions[1]
  {
    var e := Receive(Some(0), Sale(plan, a), now);
    assert !NumberTaken(db, 0);
    assert Confirms(e, 0, db.transactions[0]);
    assert Fulfills(plans, db, e);
  }

  lemma SecondSale(plans: seq<Plan>, db: Db, plan: Plan, b: string, now: Instant)
    requires 1 in db.transactions && db.transactions[1] == NewTransaction(0, plan, b, Some(b), now)
    requires 0 in db.receipts && db.receipts[0].number == ReceiptNumber(b) && 1 !in db.receipts
    ensures var e := Receive(Some(1), Sale(plan, b), now);
      CanHappen(plans, db, e) && Confirms(e, 1, db.transactions[1]) && Apply(plans, db, e) == db
  {
    var e := Sale(plan, b);
    assert NumberTaken(db, 1);
    assert Fulfill(plans, db, 1, e, now).Err?;
    assert MismatchOf(db.transactions[1], e).None?;
    assert Process(plans, db, 1, e, now) == Fulfill(plans, db, 1, e, now);
  }

  /** Without distinct receipt numbers the matching event is not enough. Two payments with references
      that end alike are both confirmed; the second fulfilment rolls back and its payment stays unpaid. */
  lemma SharedNumberBlocks(plans: seq<Plan>, start: Db, plan: Plan, a: string, b: string, now: Instant)
    requires Initial(start) && 0 in start.organizations && ActivePlan(plans, plan.code) == Some(plan)
    requires a != b && ReceiptNumber(a) == ReceiptNumber(b) && PeriodEnd(now, plan.interval).Some?
    ensures var e0, e1 := Receive(Some(0), Sale(plan, a), now), Receive(Some(1), Sale(plan, b), now);
      var steps := TwoPayments(plan, a, b, now) + [e0] + [e1]; var db := After(plans, start, steps);
      && Possible(plans, start, steps) && 1 in db.transactions && Confirms(e1, 1, db.transactions[1])
      && IsPaid(db, 0) && !IsPaid(db, 1)
  {
    var two := TwoPayments(plan, a, b, now);
    var e0, e1 := Receive(Some(0), Sale(plan, a), now), Receive(Some(1), Sale(plan, b), now);
    TwoInitialized(plans, start, plan, a, b, now);
    FirstSale(plans, After(plans, start, two), plan, a, b, now);
    OneMoreStep(plans, start, two, e0);
    var db := After(plans, start, two + [e0]);
    assert 1 !in db.receipts by {
      FulfilledExactlyOnce(plans, start, two + [e0], 1);
    }
    SecondSale(plans, db, plan, b, now);
    OneMoreStep(plans, start, two + [e0], e1);
  }

  /** The second of two confirmed payments stays unpaid. */
  ghost predicate Blocks(plans: seq<Plan>, start: Db, plan: Plan, a: string, b: string, now: Instant) {
    var steps := TwoPayments(plan, a, b, now) + [Receive(Some(0), Sale(plan, a), now)] + [Receive(Some(1), Sale(plan, b), now)];
    var db := After(plans, start, steps);
    && Possible(plans, start, steps) && 1 in db.transactions
    && Confirms(Receive(Some(1), Sale(plan, b), now), 1, db.transactions[1]) && IsPaid(db, 0) && !IsPaid(db, 1)
  }

  /** So there is a run of payments with references that the code can create in which that happens. */
  lemma CreatedReferencesBlock(plans: seq<Plan>, start: Db, plan: Plan, now: Instant, organization: string)
    requires Initial(start) && 0 in start.organizations && ActivePlan(plans, plan.code) == Some(plan)
    requires PeriodEnd(now, plan.interval).Some? && |organization| == 8
    ensures exists a, b :: Created(a) && Created(b) && Blocks(plans, start, plan, a, b, now)
  {
    var a, b := CreatedReferencesCollide(organization);
    SharedNumberBlocks(plans, start, plan, a, b, now);
    assert Blocks(plans, start, plan, a, b, now);
  }

  /** Every reference is one that the code creates. */
  ghost predicate AllCreated(db: Db) {
    forall t :: t in db.transactions ==> Created(db.transactions[t].internalReference)
  }

  /** No two references have the same last twelve random digits. */
  ghost predicate DigitsDiffer(db: Db) {
    forall t, u :: t in db.transactions && u in db.transactions && t != u ==>
      Ending(db.transactions[t].internalReference) != Ending(db.transactions[u].internalReference)
  }

  /** With created references whose last twelve digits differ, a transaction ends PAID if and only if the run
      contains a matching PAID event for it. */
  lemma CreatedPaidIffConfirmed(plans: seq<Plan>, start: Db, steps: seq<Step>, t: Id)
    requires Initial(start) && Possible(plans, start, steps) && t in After(plans, start, steps).transactions
    requires AllCreated(After(plans, start, steps)) && DigitsDiffer(After(plans, start, steps)) && InTime(steps)
    ensures var db := After(plans, start, steps);
      IsPaid(db, t) <==> Delivers(steps, t, db.transactions[t])
  {
    var db := After(plans, start, steps);
    forall u, v | u in db.transactions && v in db.transactions && u != v
      ensures !SameEnding(db.transactions[u].internalReference, db.transactions[v].internalReference)
    {
      CreatedEndings(db.transactions[u].internalReference, db.transactions[v].internalReference);
    }
    PaidIffConfirmed(plans, start, steps, t);
  }

  // ---------- fulfilment ----------

  /** Fulfilment ran exactly once for each paid transaction and never for another. */
  lemma FulfilledExactlyOnce(plans: seq<Plan>, start: Db, steps: seq<Step>, t: Id)
    requires Initial(start) && Possible(plans, start, steps)
    ensures var db, log := After(plans, start, steps), Log(plans, start, steps);
      && (IsPaid(db, t) <==> t in db.receipts) && (IsPaid(db, t) <==> t in db.subscriptions)
      && (IsPaid(db, t) <==> exists i :: 0 <= i < |log| && log[i].t == t)
      && (forall i, j :: 0 <= i < |log| && 0 <= j < |log| && log[i].t == log[j].t ==> i == j)
  {
    EveryRunAgrees(plans, start, steps);
    var db, log := After(plans, start, steps), Log(plans, start, steps);
    assert forall f :: f in log ==> Backed(db, f);
    assert t in Fulfilled(log) <==> exists i :: 0 <= i < |log| && log[i].t == t;
  }

  /** Plan, transaction, event and receipt of every fulfilment agree on amount and currency. */
  lemma AmountsAgree(plans: seq<Plan>, start: Db, steps: seq<Step>, f: Fulfillment)
    requires Initial(start) && Possible(plans, start, steps) && f in Log(plans, start, steps)
    ensures var db := After(plans, start, steps);
      && f.t in db.transactions && f.t in db.receipts && ActivePlan(plans, db.transactions[f.t].planCode) == Some(f.plan)
      && db.receipts[f.t].amountMinor == db.transactions[f.t].amountMinor == f.event.amountMinor == f.plan.amountMinor
      && db.receipts[f.t].currency == db.transactions[f.t].currency == f.event.currency == f.plan.currency
  {
    EveryRunAgrees(plans, start, steps);
    var db := After(plans, start, steps);
    assert Backed(db, f) && Lawful(plans, f) && Priced(plans, db.transactions[f.t]);
  }

  /** An organization has the plan, quotas and period of its last fulfilled transaction. */
  lemma LastPaymentRules(plans: seq<Plan>, start: Db, steps: seq<Step>, i: nat)
    requires Initial(start) && Possible(plans, start, steps)
    requires i < |Log(plans, start, steps)| && LastOf(Log(plans, start, steps), Log(plans, start, steps)[i].organizationId, i)
    ensures var f := Log(plans, start, steps)[i]; var db := After(plans, start, steps);
      && f.organizationId in db.organizations
      && db.organizations[f.organizationId].entitlement == Some(Granted(f))
      && PeriodEnd(f.start, f.plan.interval) == Some(f.end)
  {
    EveryRunAgrees(plans, start, steps);
    var f := Log(plans, start, steps)[i];
    var db := After(plans, start, steps);
    assert Backed(db, f) && Lawful(plans, f);
  }
}
