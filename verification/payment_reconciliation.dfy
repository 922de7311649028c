/** Reconciliation: one pass over open payments that asks the provider about each and counts what
    came of it. */
module PaymentReconciliation {
  import opened PaymentSafety
  import opened PaymentStore
  import opened PlanCatalog
  import opened Wrappers

  /** One turn of the loop: the events of other requests that arrived since the last turn, the provider's
      answer about a candidate (None when it throws) and the row that the answer names. */
  datatype Turn = Turn(arrived: seq<Step>, candidate: Id, answer: Option<Event>, found: Option<Id>, now: Instant)

  datatype Outcome = Recovered | NeedsReview | Unfinished | Thrown

  predicate Open(row: Transaction) {
    row.status == Initialized || row.status == Pending || row.status == Processing
  }

  /** findMany: open rows no younger than the limit, the oldest `take` of them, oldest first. */
  ghost predicate Candidates(db: Db, olderThan: Instant, take: nat, ids: seq<Id>) {
    && (forall i :: 0 <= i < |ids| ==> Eligible(db, olderThan, ids[i]))
    && (forall i, j :: 0 <= i < j < |ids| ==> Older(db, ids[i], ids[j]))
    && |ids| <= take
    && (forall t :: Eligible(db, olderThan, t) && t !in ids ==>
      |ids| == take && forall i :: 0 <= i < |ids| ==> Older(db, ids[i], t))
  }

  predicate Eligible(db: Db, olderThan: Instant, t: Id) {
    t in db.transactions && Open(db.transactions[t]) && db.transactions[t].createdAt <= olderThan
  }

  /** Order by creation time, then by id. */
  predicate Older(db: Db, t: Id, u: Id) {
    t in db.transactions && u in db.transactions
    && var a, b := db.transactions[t].createdAt, db.transactions[u].createdAt;
    a < b || (a == b && t < u)
  }

  function QueryReference(row: Transaction): string {
    if row.providerReference.Some? then row.providerReference.value else row.internalReference
  }

  /** The rows that the turn works on. */
  function Arrived(plans: seq<Plan>, db: Db, w: Turn): Db {
    After(plans, db, w.arrived)
  }

  function StepOf(w: Turn): Step
    requires w.answer.Some?
  {
    Receive(w.found, w.answer.value, w.now)
  }

  function TakeTurn(plans: seq<Plan>, db: Db, w: Turn): Db {
    if w.answer.None? then Arrived(plans, db, w) else Apply(plans, Arrived(plans, db, w), StepOf(w))
  }

  /** What the turn counts; `db` are the rows it works on. */
  function OutcomeOf(plans: seq<Plan>, db: Db, w: Turn): Outcome {
    if w.answer.None? || w.found.None? || w.found.value !in db.transactions then Thrown
    else
      var r := Process(plans, db, w.found.value, w.answer.value, w.now);
      if r.Err? then Thrown else OutcomeOfRow(r.value.transactions[w.found.value])
  }

  function OutcomeOfRow(row: Transaction): Outcome {
    if Settled(row) then Recovered else if row.status == ReviewRequired then NeedsReview else Unfinished
  }

  function AfterTurns(plans: seq<Plan>, db: Db, ws: seq<Turn>): Db
    decreases |ws|
  {
    if ws == [] then db else TakeTurn(plans, AfterTurns(plans, db, ws[..|ws| - 1]), ws[|ws| - 1])
  }

  /** The rows that the last turn works on. */
  function AtLastTurn(plans: seq<Plan>, db: Db, ws: seq<Turn>): Db
    requires ws != []
  {
    Arrived(plans, AfterTurns(plans, db, ws[..|ws| - 1]), ws[|ws| - 1])
  }

  function Count(plans: seq<Plan>, db: Db, ws: seq<Turn>, o: Outcome): nat
    decreases |ws|
  {
    if ws == [] then 0
    else Count(plans, db, ws[..|ws| - 1], o) + if OutcomeOf(plans, AtLastTurn(plans, db, ws), ws[|ws| - 1]) == o then 1 else 0
  }

  /** The turns are those of a pass over `ids`. */
  ghost predicate PassOver(plans: seq<Plan>, db: Db, ids: seq<Id>, ws: seq<Turn>) {
    |ws| == |ids| && forall i :: 0 <= i < |ws| ==> CanTake(plans, AfterTurns(plans, db, ws[..i]), ids[i], ws[i])
  }

  ghost predicate CanTake(plans: seq<Plan>, db: Db, id: Id, w: Turn) {
    && w.candidate == id && Possible(plans, db, w.arrived)
    && (w.answer.Some? ==> FoundBy(Arrived(plans, db, w), w.answer.value, w.found))
  }

  /** Each candidate is counted once: as recovered, for review, failed, or still unfinished. */
  lemma {:induction false} CountsAddUp(plans: seq<Plan>, db: Db, ws: seq<Turn>)
    ensures Count(plans, db, ws, Recovered) + Count(plans, db, ws, NeedsReview)
         + Count(plans, db, ws, Unfinished) + Count(plans, db, ws, Thrown) == |ws|
    decreases |ws|
  {
    if ws != [] { CountsAddUp(plans, db, ws[..|ws| - 1]); }
  }

  /** The steps of the turns whose provider answered, after what arrived before them. */
  function StepsOf(ws: seq<Turn>): seq<Step>
    decreases |ws|
  {
    if ws == [] then []
    else
      var w := ws[|ws| - 1];
      StepsOf(ws[..|ws| - 1]) + (w.arrived + if w.answer.None? then [] else [StepOf(w)])
  }

  // ---------- a pass is a run ----------

  lemma {:induction false} AfterConcat(plans: seq<Plan>, start: Db, a: seq<Step>, b: seq<Step>)
    ensures After(plans, start, a + b) == After(plans, After(plans, start, a), b)
    ensures |Log(plans, start, a + b)| == |Log(plans, start, a)| + |Log(plans, After(plans, start, a), b)|
    decreases |b|
  {
    if b == [] {
      assert a + b == a;
    } else {
      AfterConcat(plans, start, a, b[..|b| - 1]);
      assert (a + b)[..|a + b| - 1] == a + b[..|b| - 1];
    }
  }

  lemma PossibleConcat(plans: seq<Plan>, start: Db, a: seq<Step>, b: seq<Step>)
    requires Possible(plans, start, a) && Possible(plans, After(plans, start, a), b)
    ensures Possible(plans, start, a + b)
  {
    forall i | 0 <= i < |a + b| ensures CanHappen(plans, After(plans, start, (a + b)[..i]), (a + b)[i]) {
      if i < |a| {
        assert (a + b)[..i] == a[..i];
      } else {
        assert (a + b)[..i] == a + b[..i - |a|];
        AfterConcat(plans, start, a, b[..i - |a|]);
      }
    }
  }

  lemma SingleStep(plans: seq<Plan>, db: Db, s: Step)
    ensures After(plans, db, [s]) == Apply(plans, db, s) && |Log(plans, db, [s])| == (if Fulfills(plans, db, s) then 1 else 0)
    ensures CanHappen(plans, db, s) ==> Possible(plans, db, [s])
  {
    assert [s][..0] == [];
  }

  /** The steps of one turn. */
  function TurnSteps(w: Turn): seq<Step> {
    w.arrived + if w.answer.None? then [] else [StepOf(w)]
  }

  /** How many payments the turn itself fulfils; `db` are the rows it works on. */
  function FulfilledBy(plans: seq<Plan>, db: Db, w: Turn): nat {
    if w.answer.Some? && Fulfills(plans, db, StepOf(w)) then 1 else 0
  }

  lemma TurnIsARun(plans: seq<Plan>, db: Db, id: Id, w: Turn)
    requires CanTake(plans, db, id, w)
    ensures Possible(plans, db, TurnSteps(w)) && After(plans, db, TurnSteps(w)) == TakeTurn(plans, db, w)
    ensures |Log(plans, db, TurnSteps(w))| == |Log(plans, db, w.arrived)| + FulfilledBy(plans, Arrived(plans, db, w), w)
  {
    if w.answer.Some? {
      SingleStep(plans, Arrived(plans, db, w), StepOf(w));
      PossibleConcat(plans, db, w.arrived, [StepOf(w)]);
      AfterConcat(plans, db, w.arrived, [StepOf(w)]);
    } else {
      assert w.arrived + [] == w.arrived;
    }
  }

  lemma PassPrefix(plans: seq<Plan>, db: Db, ids: seq<Id>, ws: seq<Turn>)
    requires PassOver(plans, db, ids, ws) && ws != []
    ensures var n := |ws| - 1;
      PassOver(plans, db, ids[..n], ws[..n]) && CanTake(plans, AfterTurns(plans, db, ws[..n]), ids[n], ws[n])
  {
    var n := |ws| - 1;
    forall i | 0 <= i < n ensures ws[..n][..i] == ws[..i] {}
  }

  /** A pass is a run of provider events, so everything that holds after every run holds after it. */
  lemma {:induction false} PassIsARun(plans: seq<Plan>, db: Db, ids: seq<Id>, ws: seq<Turn>)
    requires PassOver(plans, db, ids, ws)
    ensures Possible(plans, db, StepsOf(ws)) && After(plans, db, StepsOf(ws)) == AfterTurns(plans, db, ws)
    ensures |Log(plans, db, StepsOf(ws))| == FulfilledByPass(plans, db, ws) + FulfilledElsewhere(plans, db, ws)
    decreases |ws|
  {
    if ws != [] {
      var n := |ws| - 1;
      PassPrefix(plans, db, ids, ws);
      PassIsARun(plans, db, ids[..n], ws[..n]);
      TurnIsARun(plans, AfterTurns(plans, db, ws[..n]), ids[n], ws[n]);
      assert StepsOf(ws) == StepsOf(ws[..n]) + TurnSteps(ws[n]);
      PossibleConcat(plans, db, StepsOf(ws[..n]), TurnSteps(ws[n]));
      AfterConcat(plans, db, StepsOf(ws[..n]), TurnSteps(ws[n]));
    }
  }

  // ---------- what the counters mean ----------

  /** The payments that the turns themselves fulfilled. */
  function FulfilledByPass(plans: seq<Plan>, db: Db, ws: seq<Turn>): nat
    decreases |ws|
  {
    if ws == [] then 0
    else FulfilledByPass(plans, db, ws[..|ws| - 1]) + FulfilledBy(plans, AtLastTurn(plans, db, ws), ws[|ws| - 1])
  }

  /** The payments that events arriving between the turns fulfilled. */
  function FulfilledElsewhere(plans: seq<Plan>, db: Db, ws: seq<Turn>): nat
    decreases |ws|
  {
    if ws == [] then 0
    else
      var front, w := ws[..|ws| - 1], ws[|ws| - 1];
      FulfilledElsewhere(plans, db, front) + |Log(plans, AfterTurns(plans, db, front), w.arrived)|
  }

  /** The answered candidates that were already paid when their turn came. */
  function AlreadyPaid(plans: seq<Plan>, db: Db, ws: seq<Turn>): nat
    decreases |ws|
  {
    if ws == [] then 0
    else
      var w, at := ws[|ws| - 1], AtLastTurn(plans, db, ws);
      AlreadyPaid(plans, db, ws[..|ws| - 1])
      + if w.answer.Some? && w.candidate in at.transactions && Settled(at.transactions[w.candidate]) then 1 else 0
  }

  /** Every answer is about the candidate that was asked about. */
  predicate Truthful(ws: seq<Turn>) {
    forall i :: 0 <= i < |ws| && ws[i].answer.Some? ==> ws[i].found == Some(ws[i].candidate)
  }

  /** A turn reports recovery exactly when it fulfils its candidate or finds it paid. */
  lemma TurnOutcome(plans: seq<Plan>, db: Db, w: Turn)
    requires w.answer.Some? ==> FoundBy(db, w.answer.value, w.found) && w.found == Some(w.candidate)
    ensures (if OutcomeOf(plans, db, w) == Recovered then 1 else 0) == FulfilledBy(plans, db, w)
      + (if w.answer.Some? && w.candidate in db.transactions && Settled(db.transactions[w.candidate]) then 1 else 0)
  {
    if w.answer.Some? {
      StepEffect(plans, db, StepOf(w));
    }
  }

  /** With truthful answers, and whatever else arrives meanwhile, the recovered counter is the number of
      payments that the pass fulfilled plus the candidates that were paid before their turn. */
  lemma {:induction false} RecoveredExactly(plans: seq<Plan>, db: Db, ids: seq<Id>, ws: seq<Turn>)
    requires PassOver(plans, db, ids, ws) && Truthful(ws)
    ensures Count(plans, db, ws, Recovered) == FulfilledByPass(plans, db, ws) + AlreadyPaid(plans, db, ws)
    decreases |ws|
  {
    if ws != [] {
      var n := |ws| - 1;
      PassPrefix(plans, db, ids, ws);
      RecoveredExactly(plans, db, ids[..n], ws[..n]);
      TurnOutcome(plans, AtLastTurn(plans, db, ws), ws[n]);
    }
  }

  // ---------- a pass on its own ----------

  predicate Alone(ws: seq<Turn>) {
    forall i :: 0 <= i < |ws| ==> ws[i].arrived == []
  }

  predicate AllDifferent(ids: seq<Id>) {
    forall i, j :: 0 <= i < j < |ids| ==> ids[i] != ids[j]
  }

  ghost predicate AllUnsettled(db: Db, ids: seq<Id>) {
    forall t :: t in ids ==> t in db.transactions && !Settled(db.transactions[t])
  }

  lemma TurnLeavesOthers(plans: seq<Plan>, db: Db, w: Turn, t: Id)
    requires w.arrived == [] && (w.answer.Some? ==> FoundBy(db, w.answer.value, w.found) && w.found == Some(w.candidate))
    requires t != w.candidate && t in db.transactions
    ensures var next := TakeTurn(plans, db, w);
      t in next.transactions && next.transactions[t] == db.transactions[t]
  {
  }

  lemma {:induction false} OthersWait(plans: seq<Plan>, db: Db, ids: seq<Id>, ws: seq<Turn>, t: Id)
    requires PassOver(plans, db, ids, ws) && Truthful(ws) && Alone(ws) && t !in ids && t in db.transactions
    ensures var next := AfterTurns(plans, db, ws); t in next.transactions && next.transactions[t] == db.transactions[t]
    decreases |ws|
  {
    if ws != [] {
      var n := |ws| - 1;
      PassPrefix(plans, db, ids, ws);
      OthersWait(plans, db, ids[..n], ws[..n], t);
      TurnLeavesOthers(plans, AfterTurns(plans, db, ws[..n]), ws[n], t);
    }
  }

  lemma {:induction false} NobodyPaidBefore(plans: seq<Plan>, db: Db, ids: seq<Id>, ws: seq<Turn>)
    requires PassOver(plans, db, ids, ws) && Truthful(ws) && Alone(ws) && AllDifferent(ids) && AllUnsettled(db, ids)
    ensures AlreadyPaid(plans, db, ws) == 0 && FulfilledElsewhere(plans, db, ws) == 0
    decreases |ws|
  {
    if ws != [] {
      var n := |ws| - 1;
      PassPrefix(plans, db, ids, ws);
      NobodyPaidBefore(plans, db, ids[..n], ws[..n]);
      assert ids[n] !in ids[..n];
      OthersWait(plans, db, ids[..n], ws[..n], ids[n]);
    }
  }

  /** When nothing else arrives, the recovered counter is the number of payments fulfilled during the pass. */
  lemma RecoveredAreFulfilled(plans: seq<Plan>, db: Db, ids: seq<Id>, ws: seq<Turn>)
    requires PassOver(plans, db, ids, ws) && Truthful(ws) && Alone(ws) && AllDifferent(ids) && AllUnsettled(db, ids)
    ensures Count(plans, db, ws, Recovered) == |Log(plans, db, StepsOf(ws))|
  {
    RecoveredExactly(plans, db, ids, ws);
    NobodyPaidBefore(plans, db, ids, ws);
    PassIsARun(plans, db, ids, ws);
  }
}
