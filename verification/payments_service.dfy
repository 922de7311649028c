/** PaymentsService as methods over its tables. Each method's new rows are those of the function of
    PaymentStore or PaymentReconciliation with the same role. */
module PaymentsService {
  import opened BillingPeriod
  import opened PaymentReconciliation
  import opened PaymentSafety
  import opened PaymentStore
  import opened PlanCatalog
  import opened Wrappers

  class PaymentsService {
    const plans: seq<Plan>
    var organizations: map<Id, Organization>
    var transactions: map<Id, Transaction>
    var subscriptions: map<Id, Subscription>
    var receipts: map<Id, Receipt>
    var upgrades: map<Id, UpgradeRequest>

    constructor ()
      ensures plans == Catalog() && Initial(Rows())
    {
      plans := Catalog();
      organizations, transactions, subscriptions, receipts, upgrades := map[], map[], map[], map[], map[];
    }

    ghost function Rows(): Db
      reads this
    {
      Db(organizations, transactions, subscriptions, receipts, upgrades)
    }

    /** findFirst without an order: some row that either reference names. */
    method FindRow(e: Event) returns (found: Option<Id>)
      ensures FoundBy(Rows(), e, found)
    {
      var rest := transactions.Keys;
      while rest != {}
        invariant rest <= transactions.Keys
        invariant forall t :: t in transactions && t !in rest ==> !NamedBy(transactions[t], e)
        decreases rest
      {
        var t :| t in rest;
        if NamedBy(transactions[t], e) {
          return Some(t);
        }
        rest := rest - {t};
      }
      return None;
    }

    /** The unique index on receipt numbers. */
    method NumberIsTaken(t: Id) returns (taken: bool)
      requires t in transactions
      ensures taken == NumberTaken(Rows(), t)
    {
      var number := ReceiptNumber(transactions[t].internalReference);
      var rest := receipts.Keys;
      while rest != {}
        invariant rest <= receipts.Keys
        invariant forall u :: u in receipts && u !in rest ==> u == t || receipts[u].number != number
        decreases rest
      {
        var u :| u in rest;
        if u != t && receipts[u].number == number {
          return true;
        }
        rest := rest - {u};
      }
      return false;
    }

    method CompleteRequests(organizationId: Id, plan: PlanCode, now: Instant)
      modifies this`upgrades
      ensures upgrades == CompleteUpgrades(old(upgrades), organizationId, plan, now)
    {
      ghost var before := upgrades;
      var rest := upgrades.Keys;
      while rest != {}
        invariant rest <= upgrades.Keys == before.Keys
        invariant forall u :: u in rest ==> upgrades[u] == before[u]
        invariant forall u :: u in upgrades && u !in rest ==> upgrades[u] == Completed(before[u], organizationId, plan, now)
        decreases rest
      {
        var u :| u in rest;
        var r := upgrades[u];
        if r.organizationId == organizationId && r.plan == plan && r.status == UpgradePending {
          upgrades := upgrades[u := r.(status := UpgradeCompleted, completedAt := Some(now))];
        }
        rest := rest - {u};
      }
    }

    /** fulfillPayment; nothing is written when it fails. */
    method FulfillPayment(t: Id, e: Event, now: Instant) returns (problem: Option<Problem>)
      requires t in transactions
      modifies this`organizations, this`transactions, this`subscriptions, this`receipts, this`upgrades
      ensures var r := Fulfill(plans, old(Rows()), t, e, now);
        && (problem.Some? <==> r.Err?) && (r.Err? ==> problem.value == r.error)
        && Rows() == if r.Ok? then r.value else old(Rows())
    {
      var row := transactions[t];
      var plan := ActivePlan(plans, row.planCode);
      if plan.None? {
        return Some(InvalidPlan);
      }
      var end := AddBillingPeriod(now, plan.value.interval);
      if end.None? {
        return Some(InvalidDate);
      }
      if row.organizationId !in organizations {
        return Some(NotFound);
      }
      var taken := NumberIsTaken(t);
      if t !in receipts && taken {
        return Some(ReceiptNumberTaken);
      }
      var org := organizations[row.organizationId];
      organizations := organizations[row.organizationId := org.(entitlement :=
        Some(Entitlement(plan.value.code, now, end.value, plan.value.quotas, plan.value.modules)))];
      var paid := row.(status := Paid, paidAt := Some(e.paidAt.GetOr(now)), verifiedAt := Some(now),
        eventReference := e.eventId, lastReconciledAt := Some(now));
      transactions := transactions[t := paid];
      if t in subscriptions {
        subscriptions := subscriptions[t := subscriptions[t].(entitlementAppliedAt := now)];
      } else {
        subscriptions := subscriptions[t :=
          Subscription(row.organizationId, plan.value.code, now, end.value, now)];
      }
      if t !in receipts {
        receipts := receipts[t := Receipt(row.organizationId, ReceiptNumber(paid.internalReference), paid.paidAt.GetOr(now),
          org.name, plan.value.code, plan.value.nameKey, plan.value.amountMinor, plan.value.currency, paid.providerReference)];
      }
      CompleteRequests(row.organizationId, plan.value.code, now);
      return None;
    }

    /** processTrustedProviderTransaction: the row that was found, or the reason why it throws. */
    method ProcessTrusted(e: Event, now: Instant) returns (found: Option<Id>, problem: Option<Problem>)
      modifies this`organizations, this`transactions, this`subscriptions, this`receipts, this`upgrades
      ensures FoundBy(old(Rows()), e, found)
      ensures Rows() == Apply(plans, old(Rows()), Receive(found, e, now))
      ensures problem.Some? <==> found.None? || Process(plans, old(Rows()), found.value, e, now).Err?
      ensures found.Some? ==> found.value in transactions
    {
      problem := None;
      found := FindRow(e);
      if found.None? {
        return found, Some(NotFound);
      }
      var t := found.value;
      var row := transactions[t];
      if row.status == Paid || row.status == Verified {
        return;
      }
      var mismatch := MismatchOf(row, e);
      if mismatch.Some? {
        transactions := transactions[t := row.(status := ReviewRequired, eventReference := e.eventId,
          reviewReason := mismatch, lastReconciledAt := Some(now))];
        return;
      }
      if e.status == Paid {
        problem := FulfillPayment(t, e, now);
        return;
      }
      var status := if e.status == Refunded then Refunded else if e.status == Failed then Failed else Processing;
      row := row.(status := status, eventReference := e.eventId, lastReconciledAt := Some(now));
      if status == Failed {
        row := row.(failedAt := Some(now));
      }
      if status == Refunded {
        row := row.(refundedAt := Some(now));
      }
      transactions := transactions[t := row];
    }

    /** One turn: ask the provider about a candidate and process the answer. */
    method ReconcileCandidate(candidate: Id, reference: string, provider: string -> Option<Event>, now: Instant)
      returns (outcome: Outcome, ghost turn: Turn)
      modifies this`organizations, this`transactions, this`subscriptions, this`receipts, this`upgrades
      ensures turn.arrived == [] && turn.answer == provider(reference) && turn.now == now
      ensures CanTake(plans, old(Rows()), candidate, turn) && Rows() == TakeTurn(plans, old(Rows()), turn)
      ensures outcome == OutcomeOf(plans, old(Rows()), turn)
    {
      var answer := provider(reference);
      if answer.None? {
        turn := Turn([], candidate, answer, None, now);
        return Thrown, turn;
      }
      var found, problem := ProcessTrusted(answer.value, now);
      turn := Turn([], candidate, answer, found, now);
      if problem.Some? {
        return Thrown, turn;
      }
      var row := transactions[found.value];
      if row.status == Paid || row.status == Verified {
        return Recovered, turn;
      }
      if row.status == ReviewRequired {
        return NeedsReview, turn;
      }
      return Unfinished, turn;
    }

    /** The loop of reconcilePending over the candidates it has read. `provider` answers a reference,
        with None where it throws; `clock` gives the time of each turn. */
    method ReconcilePending(candidates: seq<Id>, olderThan: Instant, take: nat, provider: string -> Option<Event>,
                            clock: int -> Instant)
      returns (recovered: nat, reviewRequired: nat, providerFailed: nat, ghost turns: seq<Turn>)
      requires Candidates(Rows(), olderThan, take, candidates)
      modifies this`organizations, this`transactions, this`subscriptions, this`receipts, this`upgrades
      ensures PassOver(plans, old(Rows()), candidates, turns) && Rows() == AfterTurns(plans, old(Rows()), turns)
      ensures Asked(old(transactions), candidates, turns, provider, clock)
      ensures recovered == Count(plans, old(Rows()), turns, Recovered)
      ensures reviewRequired == Count(plans, old(Rows()), turns, NeedsReview)
      ensures providerFailed == Count(plans, old(Rows()), turns, Thrown)
    {
      var read := transactions;
      ghost var start := Rows();
      recovered, reviewRequired, providerFailed, turns := 0, 0, 0, [];
      for i := 0 to |candidates|
        invariant PassOver(plans, start, candidates[..i], turns) && Rows() == AfterTurns(plans, start, turns)
        invariant Asked(read, candidates[..i], turns, provider, clock)
        invariant recovered == Count(plans, start, turns, Recovered)
        invariant reviewRequired == Count(plans, start, turns, NeedsReview)
        invariant providerFailed == Count(plans, start, turns, Thrown)
      {
        var id := candidates[i];
        var outcome, turn := ReconcileCandidate(id, QueryReference(read[id]), provider, clock(i));
        OneMoreTurn(plans, start, candidates[..i], turns, id, turn);
        OneMoreAsked(read, candidates[..i], turns, id, turn, provider, clock);
        if outcome == Recovered {
          recovered := recovered + 1;
        } else if outcome == NeedsReview {
          reviewRequired := reviewRequired + 1;
        } else if outcome == Thrown {
          providerFailed := providerFailed + 1;
        }
        assert candidates[..i + 1] == candidates[..i] + [id];
        turns := turns + [turn];
      }
      assert candidates[..|candidates|] == candidates;
    }
  }

  /** The turns asked `provider` about the candidates at the times of `clock`, with nothing in between. */
  ghost predicate Asked(read: map<Id, Transaction>, ids: seq<Id>, ws: seq<Turn>, provider: string -> Option<Event>,
                        clock: int -> Instant)
  {
    |ws| == |ids| && forall i :: 0 <= i < |ws| ==>
      ids[i] in read && ws[i].arrived == [] && ws[i].answer == provider(QueryReference(read[ids[i]])) && ws[i].now == clock(i)
  }

  lemma OneMoreAsked(read: map<Id, Transaction>, ids: seq<Id>, ws: seq<Turn>, id: Id, w: Turn,
                     provider: string -> Option<Event>, clock: int -> Instant)
    requires Asked(read, ids, ws, provider, clock) && id in read && w.arrived == []
    requires w.answer == provider(QueryReference(read[id])) && w.now == clock(|ws|)
    ensures Asked(read, ids + [id], ws + [w], provider, clock)
  {
  }

  lemma OneMoreTurn(plans: seq<Plan>, db: Db, ids: seq<Id>, ws: seq<Turn>, id: Id, w: Turn)
    requires PassOver(plans, db, ids, ws) && CanTake(plans, AfterTurns(plans, db, ws), id, w)
    requires w.arrived == []
    ensures PassOver(plans, db, ids + [id], ws + [w])
    ensures AfterTurns(plans, db, ws + [w]) == TakeTurn(plans, AfterTurns(plans, db, ws), w)
    ensures var outcome := OutcomeOf(plans, AfterTurns(plans, db, ws), w);
      && Count(plans, db, ws + [w], Recovered) == Count(plans, db, ws, Recovered) + (if outcome == Recovered then 1 else 0)
      && Count(plans, db, ws + [w], NeedsReview) == Count(plans, db, ws, NeedsReview) + (if outcome == NeedsReview then 1 else 0)
      && Count(plans, db, ws + [w], Thrown) == Count(plans, db, ws, Thrown) + (if outcome == Thrown then 1 else 0)
  {
    var all := ws + [w];
    assert all[..|ws|] == ws;
    forall i | 0 <= i < |ws| ensures all[..i] == ws[..i] {}
  }
}
