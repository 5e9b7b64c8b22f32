/** What the statements write, row by row in the fields themselves, and what a requeue is worth. */
module OutboxRows {
  import opened Wrappers
  import opened Outbox
  import opened OutboxOrder
  import opened OutboxBudget

  // ----- Leasing -----

  predicate SameStream(a: Row, b: Row) {
    && a.consumer == b.consumer && a.envelope.tenant == b.envelope.tenant
    && a.envelope.aggregateType == b.envelope.aggregateType && a.envelope.aggregateId == b.envelope.aggregateId
  }

  /** Due: waiting and its time has come, or leased and the lease has run out. */
  predicate Due(row: Row, now: int) {
    || (row.status.Pending? && row.nextAttemptAt <= now)
    || (row.status.Leased? && row.status.expiresAt <= now)
  }

  /** In scope, not locked by another statement, due, and everything earlier in its stream is published or skipped. */
  predicate Leasable(rows: seq<Row>, scope: Option<string>, now: int, locked: set<nat>, i: nat)
    requires i < |rows|
  {
    && rows[i].consumer == scope && i !in locked && Due(rows[i], now)
    && forall j :: 0 <= j < i && SameStream(rows[j], rows[i]) ==> rows[j].status.Done? || rows[j].status.Skipped?
  }

  function LeasableBetween(rows: seq<Row>, scope: Option<string>, now: int, locked: set<nat>, from: nat, i: nat): set<nat>
    requires i <= |rows|
  {
    set j: nat | from <= j < i && Leasable(rows, scope, now, locked, j)
  }

  lemma LeasableIsCandidate(rows: seq<Row>, scope: Option<string>, now: int, locked: set<nat>, i: nat)
    requires i < |rows|
    ensures Leasable(rows, scope, now, locked, i) <==> Candidate(rows, scope, now, locked, i)
  {
    forall j | 0 <= j < i
      ensures SameStream(rows[j], rows[i]) <==> rows[j].Stream() == rows[i].Stream()
    {
    }
  }

  lemma LeasableFrom(rows: seq<Row>, scope: Option<string>, now: int, locked: set<nat>, from: nat, i: nat)
    requires from < i <= |rows|
    ensures |LeasableBetween(rows, scope, now, locked, from, i)| ==
      |LeasableBetween(rows, scope, now, locked, from + 1, i)| + if Leasable(rows, scope, now, locked, from) then 1 else 0
  {
    var rest := LeasableBetween(rows, scope, now, locked, from + 1, i);
    assert LeasableBetween(rows, scope, now, locked, from, i) == if Leasable(rows, scope, now, locked, from) then {from} + rest else rest;
  }

  /** An entry is granted exactly when it is leasable and fewer than `limit` older ones are. */
  lemma {:induction false} GrantsAreTheOldest(rows: seq<Row>, scope: Option<string>, now: int, locked: set<nat>, limit: int, from: nat, i: nat)
    requires from <= i < |rows|
    ensures i in Grants(rows, scope, now, locked, limit, from) <==>
      Leasable(rows, scope, now, locked, i) && |LeasableBetween(rows, scope, now, locked, from, i)| < limit
    decreases |rows| - from
  {
    LeasableIsCandidate(rows, scope, now, locked, from);
    if from == i {
      assert LeasableBetween(rows, scope, now, locked, from, i) == {};
    } else if limit >= 1 {
      LeasableFrom(rows, scope, now, locked, from, i);
      GrantsAreTheOldest(rows, scope, now, locked, if Candidate(rows, scope, now, locked, from) then limit - 1 else limit, from + 1, i);
    }
  }

  /** Exactly the oldest leasable entries up to the limit are leased, each with one attempt more. */
  ghost predicate LeasedExactly(before: seq<Row>, after: seq<Row>, scope: Option<string>, worker: string, now: int, expiresAt: int,
                                limit: int, locked: set<nat>, granted: seq<nat>)
  {
    && (forall k, m :: 0 <= k < m < |granted| ==> granted[k] < granted[m])
    && (forall k :: 0 <= k < |granted| ==> granted[k] < |before|)
    && (forall i {:trigger Leasable(before, scope, now, locked, i)} :: 0 <= i < |before| ==>
          (i in granted <==> Leasable(before, scope, now, locked, i) && |LeasableBetween(before, scope, now, locked, 0, i)| < limit))
    && |after| == |before|
    && forall i :: 0 <= i < |before| ==>
         var r := before[i];
         after[i] == if i in granted then Row(r.consumer, r.envelope, Leased(worker, expiresAt), r.attempts + 1, r.nextAttemptAt) else r
  }

  lemma LeasesExactly(rows: seq<Row>, scope: Option<string>, worker: string, now: int, expiresAt: int, limit: int, locked: set<nat>)
    ensures var granted := Grants(rows, scope, now, locked, limit, 0);
      LeasedExactly(rows, LeaseRows(rows, granted, worker, expiresAt), scope, worker, now, expiresAt, limit, locked, granted)
  {
    var granted := Grants(rows, scope, now, locked, limit, 0);
    forall i: nat | i < |rows|
      ensures i in granted <==> Leasable(rows, scope, now, locked, i) && |LeasableBetween(rows, scope, now, locked, 0, i)| < limit
    {
      GrantsAreTheOldest(rows, scope, now, locked, limit, 0, i);
    }
  }

  // ----- What a failure and a resolution write -----

  /** Only this row was rewritten, and this is it now. */
  predicate OnlyRow(before: seq<Row>, after: seq<Row>, e: nat, row: Row) {
    |after| == |before| && e < |before| && after[e] == row && forall i :: 0 <= i < |before| && i != e ==> after[i] == before[i]
  }

  /** The entry is leased by this worker, in its scope. */
  predicate HeldBy(rows: seq<Row>, task: Task) {
    && task.entry < |rows| && rows[task.entry].consumer == task.scope
    && rows[task.entry].status.Leased? && rows[task.entry].status.holder == task.worker
  }

  /** A refused hand-over at the attempt limit makes the entry dead; every earlier one leaves it pending at the retry time. */
  lemma FailureWrites(q: Queue, max: nat, t: nat, retryAt: int)
    requires InPhase(q, t, Refused) && HeldBy(q.rows, q.tasks[t])
    ensures var e := q.tasks[t].entry; var r := q.rows[e];
      OnlyRow(q.rows, Next(q, max, Fail(t, retryAt)).rows, e,
              if q.tasks[t].attempts < max then Row(r.consumer, r.envelope, Pending, r.attempts, retryAt)
              else Row(r.consumer, r.envelope, Dead, r.attempts, r.nextAttemptAt))
  {
  }

  /** An entry leased too often is made dead without a hand-over, and one within the limit is not. */
  lemma GivingUpWrites(q: Queue, max: nat, t: nat)
    requires InPhase(q, t, Granted) && HeldBy(q.rows, q.tasks[t])
    ensures var e := q.tasks[t].entry; var r := q.rows[e];
      && OnlyRow(q.rows, Next(q, max, GiveUp(t)).rows, e,
                 if q.tasks[t].attempts > max then Row(r.consumer, r.envelope, Dead, r.attempts, r.nextAttemptAt) else r)
      && (forall took, reported :: q.tasks[t].attempts > max ==> Next(q, max, HandOver(t, took, reported)) == q)
  {
  }

  /** An operator's requeue starts over with no attempts, due at once; a skip keeps everything but the status. */
  lemma ResolutionWrites(q: Queue, max: nat, scope: Option<string>, entry: nat, action: Action)
    requires entry < |q.rows| && q.rows[entry].consumer == scope && q.rows[entry].status.Dead?
    ensures var r := q.rows[entry];
      OnlyRow(q.rows, Next(q, max, Resolve(scope, entry, action)).rows, entry,
              if action.Skip? then Row(r.consumer, r.envelope, Skipped, r.attempts, r.nextAttemptAt)
              else Row(r.consumer, r.envelope, Pending, 0, action.now))
  {
  }

  // ----- Attempts count the grants of a life -----

  /** How often the entry was granted in this life. */
  function Grantings(tasks: seq<Task>, entry: nat, life: nat): nat {
    if tasks == [] then 0
    else
      var last := tasks[|tasks| - 1];
      Grantings(tasks[..|tasks| - 1], entry, life) + if last.entry == entry && last.epoch == life then 1 else 0
  }

  lemma {:induction false} GrantingsAlike(a: seq<Task>, b: seq<Task>, entry: nat, life: nat)
    requires |a| == |b| && forall t :: 0 <= t < |a| ==> a[t].entry == b[t].entry && a[t].epoch == b[t].epoch
    ensures Grantings(a, entry, life) == Grantings(b, entry, life)
  {
    if a != [] {
      GrantingsAlike(a[..|a| - 1], b[..|b| - 1], entry, life);
    }
  }

  lemma {:induction false} GrantingsNone(tasks: seq<Task>, entry: nat, life: nat)
    requires forall t :: 0 <= t < |tasks| ==> tasks[t].entry != entry || tasks[t].epoch != life
    ensures Grantings(tasks, entry, life) == 0
  {
    if tasks != [] {
      GrantingsNone(tasks[..|tasks| - 1], entry, life);
    }
  }

  lemma {:induction false} GrantingsConcat(a: seq<Task>, b: seq<Task>, entry: nat, life: nat)
    ensures Grantings(a + b, entry, life) == Grantings(a, entry, life) + Grantings(b, entry, life)
    decreases |b|
  {
    if b == [] {
      assert a + b == a;
    } else {
      GrantingsConcat(a, b[..|b| - 1], entry, life);
      assert (a + b)[..|a + b| - 1] == a + b[..|b| - 1];
    }
  }

  /** Among tasks for distinct entries at most one is for this entry. */
  lemma {:induction false} GrantingsOnce(tasks: seq<Task>, entry: nat, life: nat)
    requires forall s, t :: 0 <= s < t < |tasks| ==> tasks[s].entry != tasks[t].entry
    requires forall t :: 0 <= t < |tasks| && tasks[t].entry == entry ==> tasks[t].epoch == life
    ensures Grantings(tasks, entry, life) == if exists t :: 0 <= t < |tasks| && tasks[t].entry == entry then 1 else 0
  {
    if tasks != [] {
      var front, last := tasks[..|tasks| - 1], |tasks| - 1;
      GrantingsOnce(front, entry, life);
      if tasks[last].entry == entry {
        assert !exists t :: 0 <= t < |front| && front[t].entry == entry;
      } else {
        assert forall t :: 0 <= t < |tasks| && tasks[t].entry == entry ==> t < last && front[t].entry == entry;
      }
    }
  }

  /** The attempts of a row are its grants in its current life. */
  predicate AttemptsCounted(q: Queue) {
    forall e :: 0 <= e < |q.rows| ==> CountedAt(q, e)
  }

  predicate CountedAt(q: Queue, e: nat)
    requires e < |q.rows|
  {
    q.rows[e].attempts == Grantings(q.tasks, e, Requeues(q.log, e))
  }

  /** A lease adds one task for each entry granted, in order. */
  lemma LeasedTask(q: Queue, scope: Option<string>, worker: string, granted: seq<nat>, expiresAt: int, k: nat)
    requires forall m :: 0 <= m < |granted| ==> granted[m] < |q.rows|
    requires k < |granted|
    ensures var n := LeaseNext(q, scope, worker, granted, expiresAt);
      |n.tasks| == |q.tasks| + |granted| && n.tasks[|q.tasks| + k].entry == granted[k]
  {
  }

  lemma LeaseNextCounts(q: Queue, scope: Option<string>, worker: string, granted: seq<nat>, expiresAt: int, e: nat)
    requires forall m :: 0 <= m < |granted| ==> granted[m] < |q.rows|
    requires forall k, m :: 0 <= k < m < |granted| ==> granted[k] < granted[m]
    requires e < |q.rows| && CountedAt(q, e)
    ensures CountedAt(LeaseNext(q, scope, worker, granted, expiresAt), e)
  {
    var more := Snapshots(q, scope, worker, granted);
    GrantingsConcat(q.tasks, more, e, Requeues(q.log, e));
    GrantingsOnce(more, e, Requeues(q.log, e));
    assert forall k :: 0 <= k < |more| ==> more[k].entry == granted[k];
  }

  lemma LeaseCounts(q: Queue, max: nat, step: Step, e: nat)
    requires step.Lease? && e < |q.rows| && CountedAt(q, e)
    ensures e < |Next(q, max, step).rows| && CountedAt(Next(q, max, step), e)
  {
    var granted := Grants(q.rows, step.scope, step.now, step.locked, step.limit, 0);
    LeaseNextCounts(q, step.scope, step.worker, granted, step.now + step.leaseSeconds, e);
  }

  lemma ResolveCounts(q: Queue, max: nat, step: Step, e: nat)
    requires step.Resolve? && GrantsNumbered(q) && e < |q.rows| && CountedAt(q, e)
    ensures e < |Next(q, max, step).rows| && CountedAt(Next(q, max, step), e)
  {
    var n := Next(q, max, step);
    if n.log != q.log {
      RequeuesGrow(q.log, n.log[|q.log|], e);
      if n.log[|q.log|] == Requeued(e) {
        GrantingsNone(q.tasks, e, Requeues(n.log, e));
      }
    }
  }

  /** Neither a lease nor a resolution: nothing is granted, no attempt counted and no life begun. */
  lemma OthersKeep(q: Queue, max: nat, step: Step, e: nat)
    requires !step.Resolve? && !step.Lease? && e < |q.rows|
    ensures var n := Next(q, max, step);
      |n.tasks| == |q.tasks| && e < |n.rows| && n.rows[e].attempts == q.rows[e].attempts
  {
  }

  lemma FactOf(q: Queue, max: nat, step: Step)
    requires !step.Resolve?
    ensures var n := Next(q, max, step);
      n.log == q.log || (|n.log| == |q.log| + 1 && n.log == q.log + [n.log[|q.log|]] && !n.log[|q.log|].Requeued?)
  {
  }

  lemma NoLifeBegins(q: Queue, max: nat, step: Step, e: nat)
    requires !step.Resolve?
    ensures Requeues(Next(q, max, step).log, e) == Requeues(q.log, e)
  {
    var n := Next(q, max, step);
    FactOf(q, max, step);
    if n.log != q.log {
      RequeuesGrow(q.log, n.log[|q.log|], e);
    }
  }

  lemma OthersCount(q: Queue, max: nat, step: Step, e: nat)
    requires !step.Resolve? && !step.Lease? && e < |q.rows| && CountedAt(q, e)
    ensures e < |Next(q, max, step).rows| && CountedAt(Next(q, max, step), e)
  {
    var n := Next(q, max, step);
    OthersKeep(q, max, step, e);
    NoLifeBegins(q, max, step, e);
    SameTasks(q, max, step);
    GrantingsAlike(q.tasks, n.tasks, e, Requeues(q.log, e));
  }

  lemma SameTasks(q: Queue, max: nat, step: Step)
    ensures |q.tasks| <= |Next(q, max, step).tasks|
    ensures forall t :: 0 <= t < |q.tasks| ==>
      Next(q, max, step).tasks[t].entry == q.tasks[t].entry && Next(q, max, step).tasks[t].epoch == q.tasks[t].epoch
  {
    forall t | 0 <= t < |q.tasks|
      ensures Next(q, max, step).tasks[t].entry == q.tasks[t].entry && Next(q, max, step).tasks[t].epoch == q.tasks[t].epoch
    {
      TasksKept(q, max, step, t);
    }
  }

  lemma CountedStep(q: Queue, max: nat, step: Step)
    requires GrantsNumbered(q) && AttemptsCounted(q)
    ensures AttemptsCounted(Next(q, max, step))
  {
    var n := Next(q, max, step);
    forall e | 0 <= e < |n.rows|
      ensures CountedAt(n, e)
    {
      if e == |q.rows| {
        GrantingsNone(n.tasks, e, Requeues(n.log, e));
      } else if step.Lease? {
        LeaseCounts(q, max, step, e);
      } else if step.Resolve? {
        ResolveCounts(q, max, step, e);
      } else {
        OthersCount(q, max, step, e);
      }
    }
  }

  /** In every reachable queue the attempts of an entry number its grants since it was appended or last requeued. */
  lemma {:induction false} AttemptsCountGrants(max: nat, steps: seq<Step>)
    ensures AttemptsCounted(Exec(EMPTY, max, steps))
  {
    if steps != [] {
      var front := steps[..|steps| - 1];
      AttemptsCountGrants(max, front);
      BudgetedAlways(max, front);
      CountedStep(Exec(EMPTY, max, front), max, steps[|steps| - 1]);
    }
  }

  // ----- A requeue is worth a hand-over -----

  /** No task for the entry was granted from the `from`-th on. */
  predicate NotGranted(q: Queue, from: nat, entry: nat) {
    forall t :: from <= t < |q.tasks| ==> q.tasks[t].entry != entry
  }

  lemma GrantMakesTask(q: Queue, max: nat, step: Step, e: nat)
    requires step.Lease? && e in Grants(q.rows, step.scope, step.now, step.locked, step.limit, 0)
    ensures !NotGranted(Next(q, max, step), |q.tasks|, e)
  {
    var granted := Grants(q.rows, step.scope, step.now, step.locked, step.limit, 0);
    var k :| 0 <= k < |granted| && granted[k] == e;
    LeasedTask(q, step.scope, step.worker, granted, step.now + step.leaseSeconds, k);
  }

  lemma PendingUntilGranted(q: Queue, max: nat, step: Step, e: nat)
    requires e < |q.rows| && q.rows[e].status.Pending? && NotGranted(Next(q, max, step), |q.tasks|, e)
    ensures e < |Next(q, max, step).rows| && Next(q, max, step).rows[e] == q.rows[e]
  {
    if step.Lease? && e in Grants(q.rows, step.scope, step.now, step.locked, step.limit, 0) {
      GrantMakesTask(q, max, step, e);
    }
  }

  lemma {:induction false} TasksGrow(q: Queue, max: nat, steps: seq<Step>)
    ensures |q.tasks| <= |Exec(q, max, steps).tasks|
    ensures forall t :: 0 <= t < |q.tasks| ==> Exec(q, max, steps).tasks[t].entry == q.tasks[t].entry
  {
    if steps != [] {
      var m := Exec(q, max, steps[..|steps| - 1]);
      TasksGrow(q, max, steps[..|steps| - 1]);
      SameTasks(m, max, steps[|steps| - 1]);
    }
  }

  lemma {:induction false} WaitsForItsGrant(q: Queue, max: nat, steps: seq<Step>, e: nat)
    requires e < |q.rows| && q.rows[e].status.Pending? && NotGranted(Exec(q, max, steps), |q.tasks|, e)
    ensures e < |Exec(q, max, steps).rows| && Exec(q, max, steps).rows[e] == q.rows[e]
  {
    if steps != [] {
      var m := Exec(q, max, steps[..|steps| - 1]);
      TasksGrow(q, max, steps[..|steps| - 1]);
      SameTasks(m, max, steps[|steps| - 1]);
      WaitsForItsGrant(q, max, steps[..|steps| - 1], e);
      PendingUntilGranted(m, max, steps[|steps| - 1], e);
    }
  }

  /** The task may be handed over, with any answer, and is not given up. */
  predicate HandedOverNext(q: Queue, max: nat, t: nat)
    requires t < |q.tasks|
  {
    && Next(q, max, GiveUp(t)) == q
    && Next(q, max, HandOver(t, true, true)).log == q.log + [HandedOver(t, q.tasks[t].entry, true, true)]
    && Next(q, max, HandOver(t, true, false)).log == q.log + [HandedOver(t, q.tasks[t].entry, true, false)]
    && Next(q, max, HandOver(t, false, false)).log == q.log + [HandedOver(t, q.tasks[t].entry, false, false)]
  }

  lemma WithinLimitIsHandedOver(q: Queue, max: nat, t: nat)
    requires InPhase(q, t, Granted) && q.tasks[t].attempts <= max
    ensures HandedOverNext(q, max, t)
  {
  }

  lemma RequeueStartsOver(q: Queue, max: nat, entry: nat, now: int)
    requires entry < |q.rows| && q.rows[entry].status.Dead?
    ensures var r := Next(q, max, Resolve(q.rows[entry].consumer, entry, Requeue(now)));
      r.tasks == q.tasks && entry < |r.rows| && r.rows[entry].status.Pending? && r.rows[entry].attempts == 0
  {
  }

  /** The first lease that grants a waiting entry counts its first attempt. */
  lemma FirstGrant(r: Queue, max: nat, entry: nat, steps: seq<Step>, lease: Step, t: nat)
    requires entry < |r.rows| && r.rows[entry].status.Pending? && r.rows[entry].attempts == 0 && lease.Lease?
    requires var m := Exec(r, max, steps);
      NotGranted(m, |r.tasks|, entry) && |m.tasks| <= t < |Next(m, max, lease).tasks| && Next(m, max, lease).tasks[t].entry == entry
    ensures InPhase(Next(Exec(r, max, steps), max, lease), t, Granted) && Next(Exec(r, max, steps), max, lease).tasks[t].attempts == 1
  {
    WaitsForItsGrant(r, max, steps, entry);
    TaskGranted(Exec(r, max, steps), max, lease, t);
  }

  /**
   However often an entry failed before its requeue, and whatever happens after it, the first lease that
   grants it again gives a task at its first attempt, which is handed over and not given up.
   */
  lemma RequeuedIsHandedOver(q: Queue, max: nat, entry: nat, now: int, steps: seq<Step>, lease: Step, t: nat)
    requires max >= 1 && entry < |q.rows| && q.rows[entry].status.Dead? && lease.Lease?
    requires var m := Exec(Next(q, max, Resolve(q.rows[entry].consumer, entry, Requeue(now))), max, steps);
      NotGranted(m, |q.tasks|, entry) && |m.tasks| <= t < |Next(m, max, lease).tasks| && Next(m, max, lease).tasks[t].entry == entry
    ensures var n := Next(Exec(Next(q, max, Resolve(q.rows[entry].consumer, entry, Requeue(now))), max, steps), max, lease);
      n.tasks[t].attempts == 1 && n.tasks[t].phase.Granted? && HandedOverNext(n, max, t)
  {
    var r := Next(q, max, Resolve(q.rows[entry].consumer, entry, Requeue(now)));
    RequeueStartsOver(q, max, entry, now);
    FirstGrant(r, max, entry, steps, lease, t);
    WithinLimitIsHandedOver(Next(Exec(r, max, steps), max, lease), max, t);
  }
}
