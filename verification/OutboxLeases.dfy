/** Who may change an entry: its lease or its retry time keeps everybody else away from it. */
module OutboxLeases {
  import opened Wrappers
  import opened Outbox

  predicate RecordsOutcome(step: Step) {
    step.GiveUp? || step.Mark? || step.Fail?
  }

  function TaskOf(step: Step): nat
    requires RecordsOutcome(step)
  {
    match step
    case GiveUp(task) => task
    case Mark(task) => task
    case Fail(task, _) => task
  }

  /** The step records an outcome of this worker for this entry. */
  predicate ByHolder(q: Queue, step: Step, e: nat, worker: string) {
    RecordsOutcome(step) && TaskOf(step) < |q.tasks| && q.tasks[TaskOf(step)].entry == e && q.tasks[TaskOf(step)].worker == worker
  }

  /** What it takes to change a row, by its status. */
  predicate MayChange(q: Queue, step: Step, row: Row, e: nat) {
    match row.status
    case Pending => step.Lease? && step.scope == row.consumer && step.now >= row.nextAttemptAt
    case Leased(holder, expiresAt) =>
      (step.Lease? && step.scope == row.consumer && step.now >= expiresAt) || ByHolder(q, step, e, holder)
    case Dead => step.Resolve? && step.scope == row.consumer && step.entry == e
    case _ => false
  }

  lemma LeaseTakesEligible(q: Queue, max: nat, step: Step, e: nat)
    requires step.Lease? && e < |q.rows| && Next(q, max, step).rows[e] != q.rows[e]
    ensures q.rows[e].Eligible(step.now) && step.scope == q.rows[e].consumer
  {
    var granted := Grants(q.rows, step.scope, step.now, step.locked, step.limit, 0);
    assert e in granted;
    var k :| 0 <= k < |granted| && granted[k] == e;
    assert Candidate(q.rows, step.scope, step.now, step.locked, granted[k]);
  }

  /**
   A pending entry is only leased, and not before its time; a leased one is only released by its holder
   or leased again after its deadline; a dead one is only resolved; a finished one stays.
   */
  lemma OnlyTheEntitledChange(q: Queue, max: nat, step: Step, e: nat)
    requires e < |q.rows| && e < |Next(q, max, step).rows| && Next(q, max, step).rows[e] != q.rows[e]
    ensures MayChange(q, step, q.rows[e], e)
  {
    if step.Lease? {
      LeaseTakesEligible(q, max, step, e);
    }
  }

  lemma RowsStay(q: Queue, max: nat, step: Step)
    ensures |q.rows| <= |Next(q, max, step).rows|
  {
  }

  /** Throughout the steps nobody entitled acts on the row. */
  ghost predicate LeftAlone(q: Queue, max: nat, steps: seq<Step>, row: Row, e: nat) {
    forall k :: 0 <= k < |steps| ==> !MayChange(Exec(q, max, steps[..k]), steps[k], row, e)
  }

  /**
   However many workers act meanwhile, a lease holds until its deadline or its holder's outcome, and an
   entry waiting for its retry is left alone until then.
   */
  lemma {:induction false} LeaseHolds(q: Queue, max: nat, steps: seq<Step>, e: nat)
    requires e < |q.rows| && LeftAlone(q, max, steps, q.rows[e], e)
    ensures e < |Exec(q, max, steps).rows| && Exec(q, max, steps).rows[e] == q.rows[e]
  {
    if steps != [] {
      var n := |steps| - 1;
      var front := steps[..n];
      assert forall k :: 0 <= k < n ==> front[..k] == steps[..k];
      LeaseHolds(q, max, front, e);
      StaysUnlessEntitled(Exec(q, max, front), max, steps[n], e);
    }
  }

  lemma StaysUnlessEntitled(q: Queue, max: nat, step: Step, e: nat)
    requires e < |q.rows| && !MayChange(q, step, q.rows[e], e)
    ensures e < |Next(q, max, step).rows| && Next(q, max, step).rows[e] == q.rows[e]
  {
    RowsStay(q, max, step);
    if Next(q, max, step).rows[e] != q.rows[e] {
      OnlyTheEntitledChange(q, max, step, e);
    }
  }

  /** A failed hand-over waits: until some lease's clock reaches the retry time the entry stays as the failure left it. */
  lemma RetryWaits(q: Queue, max: nat, t: nat, retryAt: int, steps: seq<Step>)
    requires InPhase(q, t, Refused) && q.tasks[t].attempts < max
    requires Held(q.rows, q.tasks[t].scope, q.tasks[t].entry, q.tasks[t].worker)
    requires forall k :: 0 <= k < |steps| && steps[k].Lease? ==> steps[k].now < retryAt
    ensures var e := q.tasks[t].entry;
      var after := Exec(Next(q, max, Fail(t, retryAt)), max, steps);
      && e < |after.rows| && after.rows[e].status == Pending && after.rows[e].nextAttemptAt == retryAt
      && after.rows[e].attempts == q.rows[e].attempts
  {
    var failed := Next(q, max, Fail(t, retryAt));
    LeaseHolds(failed, max, steps, q.tasks[t].entry);
  }
}
