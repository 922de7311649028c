/** What an unpaid transaction's row says: it is as it was initialized, or as the last event about it left it. */
module PaymentStatus {
  import opened BillingPeriod
  import opened PaymentOutcome
  import opened PaymentReconciliation
  import opened PaymentSafety
  import opened PaymentStore
  import opened PlanCatalog
  import opened Wrappers

  /** The plans that the catalog sells. */
  lemma PlansOnSale(code: PlanCode)
    ensures ActivePlan(Catalog(), code).Some? <==> code == Starter || code == Professional || code == Government
  {
    OnSale(Catalog(), code);
  }

  /** With one plan for each code, a code is on sale exactly when its plan is active. */
  lemma OnSale(plans: seq<Plan>, code: PlanCode)
    requires forall i, j :: 0 <= i < j < |plans| ==> plans[i].code != plans[j].code
    ensures ActivePlan(plans, code).Some? <==> exists i :: 0 <= i < |plans| && plans[i].code == code && plans[i].active
  {
    if i :| 0 <= i < |plans| && plans[i].code == code && plans[i].active {
      assert plans[i] in plans;
      var p := Find(plans, code);
      assert p.Some?;
      var j :| 0 <= j < |plans| && plans[j] == p.value;
    }
  }

  /** A row that is PAID or VERIFIED at some time never changes again. */
  lemma SettledStays(plans: seq<Plan>, start: Db, steps: seq<Step>, i: nat, t: Id)
    requires Possible(plans, start, steps) && i <= |steps| && t in After(plans, start, steps[..i]).transactions
    requires var row := After(plans, start, steps[..i]).transactions[t]; row.status == Paid || row.status == Verified
    ensures var db := After(plans, start, steps);
      t in db.transactions && db.transactions[t] == After(plans, start, steps[..i]).transactions[t]
  {
    PaidIsFinal(plans, start, steps, i);
  }

  predicate Agrees(row: Transaction, e: Event) {
    e.amountMinor == row.amountMinor && e.currency == row.currency
  }

  /** The step is an event about `t`, other than a matching PAID one. */
  predicate Reports(s: Step, t: Id, row: Transaction) {
    s.Receive? && s.found == Some(t) && !(Agrees(row, s.event) && s.event.status == Paid)
  }

  /** What such an event leaves: a review with the first disagreement, else the provider's verdict. */
  predicate Reported(row: Transaction, e: Event, now: Instant) {
    && row.eventReference == e.eventId && row.lastReconciledAt == Some(now)
    && (row.status == ReviewRequired <==> !Agrees(row, e))
    && (e.amountMinor != row.amountMinor ==> row.reviewReason == Some(AmountMismatch))
    && (e.amountMinor == row.amountMinor && e.currency != row.currency ==> row.reviewReason == Some(CurrencyMismatch))
    && (Agrees(row, e) ==>
          (row.status == Refunded <==> e.status == Refunded) && (row.status == Failed <==> e.status == Failed)
          && (row.status == Processing <==> e.status != Refunded && e.status != Failed)
          && (e.status == Refunded ==> row.refundedAt == Some(now)) && (e.status == Failed ==> row.failedAt == Some(now)))
  }

  /** The row that initialization made. */
  predicate Untouched(row: Transaction) {
    if row.providerReference.Some? then row.status == Pending && row.reviewReason.None? && row.failedAt.None?
    else row.status == Failed && row.reviewReason == Some(InitializationFailed) && row.failedAt == Some(row.createdAt)
  }

  /** A step that is not an event about `t` leaves its row. */
  lemma OtherRow(plans: seq<Plan>, db: Db, s: Step, t: Id)
    requires CanHappen(plans, db, s) && t in db.transactions && !(s.Receive? && s.found == Some(t))
    ensures t in Apply(plans, db, s).transactions && Apply(plans, db, s).transactions[t] == db.transactions[t]
  {
  }

  lemma DisagreementReports(plans: seq<Plan>, db: Db, t: Id, e: Event, now: Instant)
    requires t in db.transactions && !Settled(db.transactions[t]) && NamedBy(db.transactions[t], e)
    requires !Agrees(db.transactions[t], e)
    ensures var r := Process(plans, db, t, e, now); r.Ok? && Reported(r.value.transactions[t], e, now)
  {
    NeverReferenceMismatch(db.transactions[t], e);
  }

  lemma VerdictReports(plans: seq<Plan>, db: Db, t: Id, e: Event, now: Instant)
    requires t in db.transactions && !Settled(db.transactions[t]) && NamedBy(db.transactions[t], e)
    requires Agrees(db.transactions[t], e) && e.status != Paid
    ensures var r := Process(plans, db, t, e, now); r.Ok? && Reported(r.value.transactions[t], e, now)
  {
    NeverReferenceMismatch(db.transactions[t], e);
  }

  /** A matching PAID event that does not pay leaves everything. */
  lemma BlockedPayment(plans: seq<Plan>, db: Db, t: Id, e: Event, now: Instant)
    requires t in db.transactions && !Settled(db.transactions[t]) && NamedBy(db.transactions[t], e)
    requires Agrees(db.transactions[t], e) && e.status == Paid
    requires var r := Process(plans, db, t, e, now); r.Ok? ==> !Settled(r.value.transactions[t])
    ensures Process(plans, db, t, e, now).Err?
  {
    NeverReferenceMismatch(db.transactions[t], e);
  }

  lemma StepReports(plans: seq<Plan>, db: Db, s: Step, t: Id)
    requires CanHappen(plans, db, s) && t in db.transactions && !Settled(db.transactions[t])
    requires var next := Apply(plans, db, s); t in next.transactions && !Settled(next.transactions[t])
    ensures var next := Apply(plans, db, s);
      if Reports(s, t, db.transactions[t]) then Reported(next.transactions[t], s.event, s.now)
      else next.transactions[t] == db.transactions[t]
  {
    if !(s.Receive? && s.found == Some(t)) {
      OtherRow(plans, db, s, t);
    } else if !Agrees(db.transactions[t], s.event) {
      DisagreementReports(plans, db, t, s.event, s.now);
    } else if s.event.status != Paid {
      VerdictReports(plans, db, t, s.event, s.now);
    } else {
      BlockedPayment(plans, db, t, s.event, s.now);
    }
  }

  /** Step `i` is the last one that reports on `t`. */
  ghost predicate LastReportAt(steps: seq<Step>, t: Id, row: Transaction, i: nat) {
    i < |steps| && Reports(steps[i], t, row) && forall j :: i < j < |steps| ==> !Reports(steps[j], t, row)
  }

  ghost predicate LastReported(steps: seq<Step>, t: Id, row: Transaction) {
    exists i: nat :: LastReportAt(steps, t, row, i) && Reported(row, steps[i].event, steps[i].now)
  }

  ghost predicate NeverReported(steps: seq<Step>, t: Id, row: Transaction) {
    Untouched(row) && forall s :: s in steps ==> !Reports(s, t, row)
  }

  lemma NewIsUntouched(plans: seq<Plan>, db: Db, s: Step, t: Id)
    requires CanHappen(plans, db, s) && t !in db.transactions && t in Apply(plans, db, s).transactions
    ensures Untouched(Apply(plans, db, s).transactions[t]) && !s.Receive?
  {
  }

  lemma NoReportBefore(plans: seq<Plan>, start: Db, steps: seq<Step>, t: Id, row: Transaction)
    requires Possible(plans, start, steps) && t !in After(plans, start, steps).transactions
    ensures forall s :: s in steps ==> !Reports(s, t, row)
  {
    forall s | s in steps ensures !Reports(s, t, row) {
      var i: nat :| i < |steps| && steps[i] == s;
      assert CanHappen(plans, After(plans, start, steps[..i]), s);
      PaidIsFinal(plans, start, steps, i);
    }
  }

  lemma SameReports(s: Step, t: Id, a: Transaction, b: Transaction)
    requires SameTerms(a, b)
    ensures Reports(s, t, a) <==> Reports(s, t, b)
  {
  }

  lemma ReportStays(front: seq<Step>, s: Step, t: Id, row: Transaction)
    requires !Reports(s, t, row) && (LastReported(front, t, row) || NeverReported(front, t, row))
    ensures LastReported(front + [s], t, row) || NeverReported(front + [s], t, row)
  {
    var steps := front + [s];
    if i: nat :| LastReportAt(front, t, row, i) && Reported(row, front[i].event, front[i].now) {
      assert steps[i] == front[i];
      assert LastReportAt(steps, t, row, i);
    }
  }

  /** After every run, an unpaid transaction's row is as initialization left it, or as the last event about it
      did that was no matching PAID one: in review with the reason, refunded, failed or processing. */
  lemma {:induction false} LastEventDecides(plans: seq<Plan>, start: Db, steps: seq<Step>, t: Id)
    requires Initial(start) && Possible(plans, start, steps) && t in After(plans, start, steps).transactions
    requires !Settled(After(plans, start, steps).transactions[t])
    ensures var row := After(plans, start, steps).transactions[t];
      LastReported(steps, t, row) || NeverReported(steps, t, row)
    decreases |steps|
  {
    var n := |steps| - 1;
    var front, s := steps[..n], steps[n];
    var db, next := After(plans, start, front), After(plans, start, steps);
    var row := next.transactions[t];
    assert steps == front + [s];
    PossiblePrefix(plans, start, steps);
    StepExtends(plans, db, s);
    if t !in db.transactions {
      NewIsUntouched(plans, db, s, t);
      NoReportBefore(plans, start, front, t, row);
    } else {
      SameReports(s, t, db.transactions[t], row);
      StepReports(plans, db, s, t);
      if Reports(s, t, row) {
        assert LastReportAt(steps, t, row, n);
      } else {
        LastEventDecides(plans, start, front, t);
        ReportStays(front, s, t, row);
      }
    }
  }

  // ---------- reconciliation ----------

  /** The turn's answer is about an unpaid row and disagrees with its amount or currency. */
  ghost predicate Disagrees(db: Db, w: Turn) {
    && w.answer.Some? && w.found.Some? && w.found.value in db.transactions
    && var row := db.transactions[w.found.value]; !Settled(row) && !Agrees(row, w.answer.value)
  }

  /** The turn's answer is about an unpaid row, agrees with it and does not report it paid. */
  ghost predicate StillOpen(db: Db, w: Turn) {
    && w.answer.Some? && w.found.Some? && w.found.value in db.transactions
    && var row := db.transactions[w.found.value];
    !Settled(row) && Agrees(row, w.answer.value) && w.answer.value.status != Paid
  }

  lemma OutcomesExactly(plans: seq<Plan>, db: Db, w: Turn)
    requires w.answer.Some? ==> FoundBy(db, w.answer.value, w.found)
    ensures OutcomeOf(plans, db, w) == NeedsReview <==> Disagrees(db, w)
    ensures OutcomeOf(plans, db, w) == Unfinished <==> StillOpen(db, w)
  {
    if w.answer.Some? && w.found.Some? {
      NeverReferenceMismatch(db.transactions[w.found.value], w.answer.value);
    }
  }

  /** How many turns of a pass disagree. */
  ghost function Disagreements(plans: seq<Plan>, db: Db, ws: seq<Turn>): nat
    decreases |ws|
  {
    if ws == [] then 0
    else Disagreements(plans, db, ws[..|ws| - 1]) + if Disagrees(AtLastTurn(plans, db, ws), ws[|ws| - 1]) then 1 else 0
  }

  /** The review counter is the number of answers that disagree with an unpaid row. */
  lemma {:induction false} ReviewsExactly(plans: seq<Plan>, db: Db, ids: seq<Id>, ws: seq<Turn>)
    requires PassOver(plans, db, ids, ws)
    ensures Count(plans, db, ws, NeedsReview) == Disagreements(plans, db, ws)
    decreases |ws|
  {
    if ws != [] {
      var n := |ws| - 1;
      PassPrefix(plans, db, ids, ws);
      ReviewsExactly(plans, db, ids[..n], ws[..n]);
      assert CanTake(plans, AfterTurns(plans, db, ws[..n]), ids[n], ws[n]);
      OutcomesExactly(plans, AtLastTurn(plans, db, ws), ws[n]);
    }
  }
}
