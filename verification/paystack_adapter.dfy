/** How a Paystack payload becomes a trusted provider event. */
module PaystackAdapter {
  import opened PaymentSafety
  import opened PaymentStore
  import PlanCatalog
  import opened Text
  import opened Wrappers

  /** The `data` object of a payload; `amount` counts minor units. */
  datatype Data = Data(reference: string, status: Option<string>, amount: int, currency: string, paidAt: Option<Instant>)

  const REFUND := "refund.processed"
  const CHARGE_FAILED := "charge.failed"

  predicate Recognized(event: string) {
    event == "charge.success" || event == CHARGE_FAILED || event == "transfer.failed" || event == REFUND
  }

  /** normalizeTransaction; `event` is the webhook's name, None for a status query. */
  function Normalized(data: Data, eventId: Option<string>, event: Option<string>): Event {
    var text := if data.status.Some? then Some(Lower(data.status.value)) else None;
    var status :=
      if event == Some(REFUND) then Refunded
      else if text == Some("success") then Paid
      else if text == Some("failed") || event == Some(CHARGE_FAILED) then Failed
      else Pending;
    Event(data.reference, data.reference, status, data.amount, Upper(data.currency), data.paidAt, eventId)
  }

  /** parseWebhookEvent: other events carry no transaction. */
  function Webhook(data: Data, eventId: string, event: string): Option<Event> {
    if Recognized(event) then Some(Normalized(data, Some(eventId), Some(event))) else None
  }

  /** What a webhook must say to pay for a row that it names: it is recognized and no refund, reports
      success in any letter case, and has the row's amount and currency. */
  lemma WebhookConfirms(data: Data, eventId: string, event: string, t: Id, row: Transaction, now: Instant)
    requires row.internalReference == data.reference || row.providerReference == Some(data.reference)
    ensures var e := Webhook(data, eventId, event);
      (e.Some? && Confirms(Receive(Some(t), e.value, now), t, row)) <==>
        Recognized(event) && event != REFUND && data.status.Some? && Lower(data.status.value) == "success"
        && data.amount == row.amountMinor && Upper(data.currency) == row.currency
  {
    if Recognized(event) {
      var e := Webhook(data, eventId, event).value;
      NeverReferenceMismatch(row, e);
    }
  }

  /** An event that fails or refunds an open payment sets exactly that status, any other unpaid one leaves
      it in process. */
  lemma WebhookSettles(plans: seq<PlanCatalog.Plan>, db: Db, data: Data, eventId: string, event: string, t: Id, now: Instant)
    requires t in db.transactions && !Settled(db.transactions[t])
    requires NamedBy(db.transactions[t], Normalized(data, Some(eventId), Some(event))) && Recognized(event)
    requires data.amount == db.transactions[t].amountMinor && Upper(data.currency) == db.transactions[t].currency
    requires event == REFUND || data.status.None? || Lower(data.status.value) != "success"
    ensures var r := Process(plans, db, t, Webhook(data, eventId, event).value, now);
      r.Ok? && r.value.transactions[t].status ==
        if event == REFUND then Refunded
        else if event == CHARGE_FAILED || (data.status.Some? && Lower(data.status.value) == "failed") then Failed
        else Processing
  {
    NeverReferenceMismatch(db.transactions[t], Webhook(data, eventId, event).value);
  }
}
