/**
 The hand-over budget: in any run, with crashes, expired leases and any number of workers that share
 one `maxAttempts`, an entry is handed over at most `maxAttempts` times per life, where an operator's
 requeue starts a new life.
 */
module OutboxBudget {
  import opened Wrappers
  import opened Outbox
  import opened OutboxOrder
  import opened Counting

  /** Each grant of an entry has its own (epoch, attempt) pair, below the row's current one. */
  predicate GrantsNumbered(q: Queue) {
    && (forall t :: 0 <= t < |q.tasks| ==>
          var task := q.tasks[t];
          && task.entry < |q.rows| && 1 <= task.attempts && task.epoch <= Requeues(q.log, task.entry)
          && (task.epoch == Requeues(q.log, task.entry) ==> task.attempts <= q.rows[task.entry].attempts))
    && (forall s, t :: 0 <= s < t < |q.tasks| && q.tasks[s].entry == q.tasks[t].entry ==>
          q.tasks[s].epoch != q.tasks[t].epoch || q.tasks[s].attempts != q.tasks[t].attempts)
  }

  /** Each task hands over at most once, and only within the attempt limit. */
  predicate HandOversByTasks(q: Queue, max: nat) {
    && (forall k :: 0 <= k < |q.log| && q.log[k].HandedOver? ==>
          var t := q.log[k].task;
          t < |q.tasks| && q.tasks[t].entry == q.log[k].entry && q.tasks[t].attempts <= max && !q.tasks[t].phase.Granted?)
    && (forall k, m :: 0 <= k < m < |q.log| && q.log[k].HandedOver? && q.log[m].HandedOver? ==> q.log[k].task != q.log[m].task)
  }

  lemma RequeuesGrow(log: seq<Fact>, fact: Fact, entry: nat)
    ensures Requeues(log + [fact], entry) == Requeues(log, entry) + (if fact == Requeued(entry) then 1 else 0)
  {
    assert (log + [fact])[..|log|] == log;
  }

  lemma RequeuesNeverFall(q: Queue, max: nat, step: Step, e: nat)
    ensures Requeues(q.log, e) <= Requeues(Next(q, max, step).log, e)
  {
    var n := Next(q, max, step);
    if n.log != q.log {
      assert n.log == q.log + [n.log[|q.log|]];
      RequeuesGrow(q.log, n.log[|q.log|], e);
    }
  }

  /** Only a requeue takes attempts back. */
  lemma AttemptsKept(q: Queue, max: nat, step: Step, e: nat)
    requires e < |q.rows|
    ensures var n := Next(q, max, step);
      e < |n.rows| && (q.rows[e].attempts <= n.rows[e].attempts || n.log == q.log + [Requeued(e)])
  {
  }

  /** Attempts never fall within one life of a row, and a requeue starts the next life. */
  lemma AttemptsWithinLife(q: Queue, max: nat, step: Step, e: nat)
    requires e < |q.rows|
    ensures var n := Next(q, max, step);
      && e < |n.rows|
      && Requeues(q.log, e) <= Requeues(n.log, e)
      && (Requeues(n.log, e) == Requeues(q.log, e) ==> q.rows[e].attempts <= n.rows[e].attempts)
  {
    AttemptsKept(q, max, step, e);
    RequeuesNeverFall(q, max, step, e);
    RequeuesGrow(q.log, Requeued(e), e);
  }

  lemma GrantsNumberedStep(q: Queue, max: nat, step: Step)
    requires GrantsNumbered(q)
    ensures GrantsNumbered(Next(q, max, step))
  {
    var n := Next(q, max, step);
    forall t | 0 <= t < |n.tasks|
      ensures var task := n.tasks[t];
        && task.entry < |n.rows| && 1 <= task.attempts && task.epoch <= Requeues(n.log, task.entry)
        && (task.epoch == Requeues(n.log, task.entry) ==> task.attempts <= n.rows[task.entry].attempts)
    {
      if t < |q.tasks| {
        TasksKept(q, max, step, t);
      } else {
        TaskGranted(q, max, step, t);
      }
      AttemptsWithinLife(q, max, step, n.tasks[t].entry);
    }
    forall s, t | 0 <= s < t < |n.tasks| && n.tasks[s].entry == n.tasks[t].entry
      ensures n.tasks[s].epoch != n.tasks[t].epoch || n.tasks[s].attempts != n.tasks[t].attempts
    {
      GrantsDiffer(q, max, step, s, t);
    }
  }

  lemma GrantsDiffer(q: Queue, max: nat, step: Step, s: nat, t: nat)
    requires GrantsNumbered(q)
    requires s < t < |Next(q, max, step).tasks|
    requires Next(q, max, step).tasks[s].entry == Next(q, max, step).tasks[t].entry
    ensures var n := Next(q, max, step);
      n.tasks[s].epoch != n.tasks[t].epoch || n.tasks[s].attempts != n.tasks[t].attempts
  {
    if t < |q.tasks| {
      TasksKept(q, max, step, s);
      TasksKept(q, max, step, t);
    } else {
      TaskGranted(q, max, step, t);
      if s < |q.tasks| {
        TasksKept(q, max, step, s);
      }
    }
  }

  lemma HandOversByTasksStep(q: Queue, max: nat, step: Step)
    requires HandOversByTasks(q, max)
    ensures HandOversByTasks(Next(q, max, step), max)
  {
    var n := Next(q, max, step);
    LogGrows(q, max, step);
    forall k | 0 <= k < |n.log| && n.log[k].HandedOver?
      ensures var t := n.log[k].task;
        t < |n.tasks| && n.tasks[t].entry == n.log[k].entry && n.tasks[t].attempts <= max && !n.tasks[t].phase.Granted?
    {
      if k < |q.log| {
        var t := q.log[k].task;
        TasksKept(q, max, step, t);
      }
    }
    forall k, m | 0 <= k < m < |n.log| && n.log[k].HandedOver? && n.log[m].HandedOver?
      ensures n.log[k].task != n.log[m].task
    {
      assert n.log[k] == q.log[k];
      if m == |q.log| {
        assert step.HandOver? && InPhase(q, step.task, Granted);
      }
    }
  }

  lemma {:induction false} BudgetedAlways(max: nat, steps: seq<Step>)
    ensures GrantsNumbered(Exec(EMPTY, max, steps)) && HandOversByTasks(Exec(EMPTY, max, steps), max)
  {
    if steps != [] {
      var q := Exec(EMPTY, max, steps[..|steps| - 1]);
      BudgetedAlways(max, steps[..|steps| - 1]);
      GrantsNumberedStep(q, max, steps[|steps| - 1]);
      HandOversByTasksStep(q, max, steps[|steps| - 1]);
    }
  }

  /** The log positions at which the entry was handed over. */
  function HandOvers(log: seq<Fact>, entry: nat): set<nat> {
    set k: nat | k < |log| && log[k].HandedOver? && log[k].entry == entry
  }

  /** The life of the entry and the attempt within it to which a logged hand-over belongs. */
  function Life(q: Queue, k: nat): (nat, nat) {
    if k < |q.log| && q.log[k].HandedOver? && q.log[k].task < |q.tasks| then
      (q.tasks[q.log[k].task].epoch, q.tasks[q.log[k].task].attempts)
    else (0, 0)
  }

  lemma LivesDiffer(q: Queue, max: nat, entry: nat, k: nat, m: nat)
    requires GrantsNumbered(q) && HandOversByTasks(q, max)
    requires k in HandOvers(q.log, entry) && m in HandOvers(q.log, entry) && k != m
    ensures Life(q, k) != Life(q, m)
  {
    assert q.log[k].task != q.log[m].task;
  }

  lemma LivesWithinGrid(q: Queue, max: nat, entry: nat, k: nat)
    requires GrantsNumbered(q) && HandOversByTasks(q, max) && k in HandOvers(q.log, entry)
    ensures Life(q, k) in Grid(1 + Requeues(q.log, entry), max)
  {
  }

  /** At most `max` hand-overs of the entry in its first life and in each life begun by a requeue. */
  predicate WithinBudget(log: seq<Fact>, entry: nat, max: nat) {
    |HandOvers(log, entry)| <= (1 + Requeues(log, entry)) * max
  }

  lemma HandOversWithinGrid(q: Queue, max: nat, entry: nat)
    requires GrantsNumbered(q) && HandOversByTasks(q, max)
    ensures WithinBudget(q.log, entry, max)
  {
    var life := (k: nat) => Life(q, k);
    forall k | k in HandOvers(q.log, entry)
      ensures life(k) in Grid(1 + Requeues(q.log, entry), max)
    {
      LivesWithinGrid(q, max, entry, k);
    }
    forall k, m | k in HandOvers(q.log, entry) && m in HandOvers(q.log, entry) && life(k) == life(m)
      ensures k == m
    {
      if k != m {
        LivesDiffer(q, max, entry, k, m);
      }
    }
    InjectionBound(HandOvers(q.log, entry), life, Grid(1 + Requeues(q.log, entry), max));
  }

  /** At most `max` hand-overs of an entry per life, in every run. */
  lemma HandOverBudget(max: nat, steps: seq<Step>, entry: nat)
    ensures WithinBudget(Exec(EMPTY, max, steps).log, entry, max)
  {
    BudgetedAlways(max, steps);
    HandOversWithinGrid(Exec(EMPTY, max, steps), max, entry);
  }
}
