/**
 The queue store and the dispatcher that works on it, as the classes they are.

 `QueueStore` holds the table in `rows`; `tasks` are the snapshots in the hands of workers and `log` is
 the evidence of hand-overs and outcomes. Its methods are the SQL statements and are specified by the
 functions of `Outbox`. `Dispatcher.RunOnce` is one dispatch pass; everything that happens between two
 of its awaits (other workers, operators, producers) is handed to it as data.
 */
module OutboxStore {
  import opened Wrappers
  import opened Outbox
  import opened OutboxRows

  class QueueStore {
    var rows: seq<Row>
    var tasks: seq<Task>
    var log: seq<Fact>

    constructor ()
      ensures State() == EMPTY
    {
      rows, tasks, log := [], [], [];
    }

    function State(): Queue
      reads this
    {
      Queue(rows, tasks, log)
    }

    method LeaseBatch(scope: Option<string>, worker: string, now: int, leaseSeconds: int, limit: int, locked: set<nat>)
      returns (granted: seq<nat>)
      modifies this
      ensures granted == Grants(old(rows), scope, now, locked, limit, 0)
      ensures LeasedExactly(old(rows), rows, scope, worker, now, now + leaseSeconds, limit, locked, granted)
      ensures State() == LeaseNext(old(State()), scope, worker, granted, now + leaseSeconds)
    {
      granted := Grants(rows, scope, now, locked, limit, 0);
      LeasesExactly(rows, scope, worker, now, now + leaseSeconds, limit, locked);
      tasks := tasks + Snapshots(State(), scope, worker, granted);
      rows := LeaseRows(rows, granted, worker, now + leaseSeconds);
    }

    /** Hands the task's envelope to the publisher, which answers as `took` and `reported` say. */
    method HandOver(t: nat, took: bool, reported: bool)
      requires t < |tasks|
      modifies this
      ensures rows == old(rows)
      ensures tasks == old(tasks)[t := old(tasks)[t].(phase := if reported then Accepted else Refused)]
      ensures log == old(log) + [HandedOver(t, old(tasks)[t].entry, took, reported)]
    {
      log := log + [HandedOver(t, tasks[t].entry, took, reported)];
      tasks := tasks[t := tasks[t].(phase := if reported then Accepted else Refused)];
    }

    method MarkPublished(t: nat) returns (ok: bool)
      requires t < |tasks|
      modifies this
      ensures ok == HeldBy(old(rows), old(tasks)[t])
      ensures var e := old(tasks)[t].entry;
        if ok then OnlyRow(old(rows), rows, e, Row(old(rows)[e].consumer, old(rows)[e].envelope, Done, old(rows)[e].attempts, old(rows)[e].nextAttemptAt))
        else rows == old(rows)
      ensures State() == RecordSuccess(old(State()), t)
    {
      var task := tasks[t];
      ok := Held(rows, task.scope, task.entry, task.worker);
      if ok {
        rows := MarkRows(rows, task.entry);
        log := log + [MarkedDone(task.entry)];
      }
      tasks := tasks[t := task.(phase := Closed(if ok then Published else LeaseLost))];
    }

    method RecordFailure(t: nat, retryAt: Option<int>) returns (ok: bool)
      requires t < |tasks|
      modifies this
      ensures ok == HeldBy(old(rows), old(tasks)[t])
      ensures var e := old(tasks)[t].entry;
        if !ok then rows == old(rows)
        else if retryAt.None? then
          OnlyRow(old(rows), rows, e, Row(old(rows)[e].consumer, old(rows)[e].envelope, Dead, old(rows)[e].attempts, old(rows)[e].nextAttemptAt))
        else
          OnlyRow(old(rows), rows, e, Row(old(rows)[e].consumer, old(rows)[e].envelope, Pending, old(rows)[e].attempts, retryAt.value))
      ensures State() == Outbox.RecordFailure(old(State()), t, retryAt)
    {
      var task := tasks[t];
      ok := Held(rows, task.scope, task.entry, task.worker);
      if ok {
        rows := FailRows(rows, task.entry, retryAt);
      }
      var outcome := if !ok then LeaseLost else if retryAt.None? then DeadLettered else Retried;
      tasks := tasks[t := task.(phase := Closed(outcome))];
    }

    method ResolveDeadLetter(scope: Option<string>, entry: nat, action: Action) returns (resolved: Option<Envelope>)
      modifies this
      ensures resolved.Some? <==> entry < |old(rows)| && old(rows)[entry].consumer == scope && old(rows)[entry].status.Dead?
      ensures resolved.Some? ==> resolved.value == old(rows)[entry].envelope
      ensures resolved.None? ==> rows == old(rows)
      ensures resolved.Some? && action.Requeue? ==>
        OnlyRow(old(rows), rows, entry, Row(old(rows)[entry].consumer, old(rows)[entry].envelope, Pending, 0, action.now))
      ensures resolved.Some? && action.Skip? ==>
        OnlyRow(old(rows), rows, entry,
                Row(old(rows)[entry].consumer, old(rows)[entry].envelope, Skipped, old(rows)[entry].attempts, old(rows)[entry].nextAttemptAt))
      ensures forall max: nat :: State() == Next(old(State()), max, Resolve(scope, entry, action))
    {
      if !Resolvable(rows, scope, entry) {
        return None;
      }
      resolved := Some(rows[entry].envelope);
      rows := ResolveRows(rows, entry, action);
      log := log + [if action.Skip? then MarkedSkipped(entry) else Requeued(entry)];
    }

    /** What everybody else does meanwhile. */
    method Interfere(max: nat, steps: seq<Step>)
      modifies this
      ensures State() == Exec(old(State()), max, steps)
    {
      var q := Exec(State(), max, steps);
      rows, tasks, log := q.rows, q.tasks, q.log;
    }
  }

  // ----- One dispatch pass -----

  datatype Answer = Succeeded | FailedAfterEffect | FailedWithoutEffect

  /** What a pass meets at one entry: others' steps around the hand-over, the publisher's answer, the retry time. */
  datatype Turn = Turn(before: seq<Step>, answer: Answer, between: seq<Step>, retryAt: int)

  datatype Report = Report(leased: nat, published: nat, retried: nat, deadLettered: nat, leaseLost: nat)

  /** The step does not move a task of the given range. */
  predicate Foreign(step: Step, lo: nat, hi: nat) {
    match step
    case GiveUp(t) => t < lo || hi <= t
    case HandOver(t, _, _) => t < lo || hi <= t
    case Mark(t) => t < lo || hi <= t
    case Fail(t, _) => t < lo || hi <= t
    case _ => true
  }

  predicate AllForeign(steps: seq<Step>, lo: nat, hi: nat) {
    forall i :: 0 <= i < |steps| ==> Foreign(steps[i], lo, hi)
  }

  predicate TurnForeign(turn: Turn, lo: nat, hi: nat) {
    AllForeign(turn.before, lo, hi) && AllForeign(turn.between, lo, hi)
  }

  /** The states passed through by the steps of a trace. */
  ghost predicate Path(max: nat, trace: seq<Step>, states: seq<Queue>) {
    && |states| == |trace| + 1
    && forall k :: 0 <= k < |trace| ==> states[k + 1] == Next(states[k], max, trace[k])
  }

  /** The transition system gets from `q` to `r` by the trace. */
  ghost predicate Leads(q: Queue, max: nat, trace: seq<Step>, r: Queue) {
    exists states :: Path(max, trace, states) && states[0] == q && states[|trace|] == r
  }

  lemma {:induction false} PathEndsInExec(max: nat, trace: seq<Step>, states: seq<Queue>)
    requires Path(max, trace, states)
    ensures states[|trace|] == Exec(states[0], max, trace)
  {
    if trace != [] {
      var n := |trace| - 1;
      PathEndsInExec(max, trace[..n], states[..n + 1]);
      assert states[n + 1] == Next(states[n], max, trace[n]);
    }
  }

  /** A trace that leads to `r` is a run of the transition system. */
  lemma LeadsToExec(q: Queue, max: nat, trace: seq<Step>, r: Queue)
    requires Leads(q, max, trace, r)
    ensures r == Exec(q, max, trace)
  {
    var states :| Path(max, trace, states) && states[0] == q && states[|trace|] == r;
    PathEndsInExec(max, trace, states);
  }

  lemma PathExtends(max: nat, trace: seq<Step>, states: seq<Queue>, step: Step, r: Queue)
    requires Path(max, trace, states) && r == Next(states[|trace|], max, step)
    ensures Path(max, trace + [step], states + [r])
  {
  }

  lemma {:induction false} ExecLeads(q: Queue, max: nat, trace: seq<Step>)
    ensures Leads(q, max, trace, Exec(q, max, trace))
  {
    if trace == [] {
      assert Path(max, trace, [q]);
    } else {
      var n := |trace| - 1;
      var m, r := Exec(q, max, trace[..n]), Exec(q, max, trace);
      ExecLeads(q, max, trace[..n]);
      var states :| Path(max, trace[..n], states) && states[0] == q && states[n] == m;
      PathExtends(max, trace[..n], states, trace[n], r);
      assert trace == trace[..n] + [trace[n]] && (states + [r])[0] == q;
    }
  }

  lemma LeadsNowhere(q: Queue, max: nat)
    ensures Leads(q, max, [], q)
  {
    assert Path(max, [], [q]);
  }

  lemma LeadsOn(q: Queue, max: nat, a: seq<Step>, m: Queue, b: seq<Step>, r: Queue)
    requires Leads(q, max, a, m) && Leads(m, max, b, r)
    ensures Leads(q, max, a + b, r)
  {
    var s :| Path(max, a, s) && s[0] == q && s[|a|] == m;
    var t :| Path(max, b, t) && t[0] == m && t[|b|] == r;
    assert Path(max, a + b, s + t[1..]);
  }

  /** What a pass of the dispatcher does to a reachable store is again a run from the empty queue. */
  lemma PassExtendsRun(max: nat, steps: seq<Step>, trace: seq<Step>, r: Queue)
    requires Leads(Exec(EMPTY, max, steps), max, trace, r)
    ensures r == Exec(EMPTY, max, steps + trace)
  {
    LeadsToExec(Exec(EMPTY, max, steps), max, trace, r);
    ExecConcat(EMPTY, max, steps, trace);
  }

  /** The worker's own steps for one task, with the others' steps in between. */
  function TaskTrace(t: nat, attempts: nat, max: nat, turn: Turn): seq<Step> {
    if attempts > max then turn.before + [GiveUp(t)]
    else if turn.answer.Succeeded? then turn.before + [HandOver(t, true, true)] + turn.between + [Mark(t)]
    else turn.before + [HandOver(t, turn.answer.FailedAfterEffect?, false)] + turn.between + [Fail(t, turn.retryAt)]
  }

  /** The traces of the first `n` of the tasks from `lo` on. */
  function RunTrace(tasks: seq<Task>, lo: nat, n: nat, max: nat, turns: nat -> Turn): seq<Step>
    requires lo + n <= |tasks|
  {
    if n == 0 then []
    else RunTrace(tasks, lo, n - 1, max, turns) + TaskTrace(lo + n - 1, tasks[lo + n - 1].attempts, max, turns(n - 1))
  }

  function LeasedTrace(lo: nat, lease: Step, leased: Queue, max: nat, turns: nat -> Turn): seq<Step>
    requires lo <= |leased.tasks|
  {
    [lease] + RunTrace(leased.tasks, lo, |leased.tasks| - lo, max, turns)
  }

  /** A whole pass from state `q`: the lease, then every granted task in entry order. */
  function PassTrace(q: Queue, lease: Step, max: nat, turns: nat -> Turn): seq<Step>
    requires lease.Lease?
  {
    LeasedTrace(|q.tasks|, lease, Next(q, max, lease), max, turns)
  }

  /** How many of the tasks from `lo` up to `hi` closed with the outcome. */
  function Tally(tasks: seq<Task>, lo: nat, hi: nat, outcome: Outcome): nat
    requires lo <= hi <= |tasks|
    decreases hi - lo
  {
    if lo == hi then 0
    else Tally(tasks, lo, hi - 1, outcome) + (if tasks[hi - 1].phase == Closed(outcome) then 1 else 0)
  }

  lemma {:induction false} TallyDepends(a: seq<Task>, b: seq<Task>, lo: nat, hi: nat, outcome: Outcome)
    requires lo <= hi <= |a| && hi <= |b|
    requires forall t :: lo <= t < hi ==> a[t] == b[t]
    ensures Tally(a, lo, hi, outcome) == Tally(b, lo, hi, outcome)
    decreases hi - lo
  {
    if lo < hi {
      TallyDepends(a, b, lo, hi - 1, outcome);
    }
  }

  /** Each leased entry is counted once, and the counts are the outcomes of the tasks from `lo` on. */
  ghost predicate Matches(report: Report, tasks: seq<Task>, lo: nat) {
    && report.leased == report.published + report.retried + report.deadLettered + report.leaseLost
    && lo + report.leased <= |tasks|
    && Counted(report, tasks, lo)
  }

  ghost predicate Counted(report: Report, tasks: seq<Task>, lo: nat) {
    lo + report.leased <= |tasks| && forall o :: CountOf(report, o) == Tally(tasks, lo, lo + report.leased, o)
  }

  function CountOf(report: Report, outcome: Outcome): nat {
    match outcome
    case Published => report.published
    case Retried => report.retried
    case DeadLettered => report.deadLettered
    case LeaseLost => report.leaseLost
  }

  function Count(report: Report, outcome: Outcome): Report {
    var more := report.(leased := report.leased + 1);
    match outcome
    case Published => more.(published := report.published + 1)
    case Retried => more.(retried := report.retried + 1)
    case DeadLettered => more.(deadLettered := report.deadLettered + 1)
    case LeaseLost => more.(leaseLost := report.leaseLost + 1)
  }

  lemma CountOfMore(report: Report, outcome: Outcome, o: Outcome)
    ensures CountOf(Count(report, outcome), o) == CountOf(report, o) + if o == outcome then 1 else 0
    ensures Count(report, outcome).leased == report.leased + 1
  {
  }

  lemma CountMatches(report: Report, before: seq<Task>, after: seq<Task>, lo: nat, outcome: Outcome)
    requires Matches(report, before, lo) && lo + report.leased < |after|
    requires forall u :: lo <= u < lo + report.leased ==> after[u] == before[u]
    requires after[lo + report.leased].phase == Closed(outcome)
    ensures Matches(Count(report, outcome), after, lo)
    ensures Count(report, outcome).leased == report.leased + 1
  {
    forall o
      ensures CountOf(Count(report, outcome), o) == Tally(after, lo, lo + report.leased + 1, o)
    {
      CountOfMore(report, outcome, o);
      TallyDepends(before, after, lo, lo + report.leased, o);
      assert CountOf(report, o) == Tally(before, lo, lo + report.leased, o);
    }
  }

  /** Others cannot move this pass's tasks. */
  lemma {:induction false} ForeignKeeps(q: Queue, max: nat, steps: seq<Step>, lo: nat, hi: nat)
    requires hi <= |q.tasks| && AllForeign(steps, lo, hi)
    ensures hi <= |Exec(q, max, steps).tasks|
    ensures forall t :: lo <= t < hi ==> Exec(q, max, steps).tasks[t] == q.tasks[t]
  {
    if steps != [] {
      ForeignKeeps(q, max, steps[..|steps| - 1], lo, hi);
      assert Foreign(steps[|steps| - 1], lo, hi);
    }
  }

  lemma ExecSnoc(q: Queue, max: nat, steps: seq<Step>, step: Step)
    ensures Exec(q, max, steps + [step]) == Next(Exec(q, max, steps), max, step)
  {
    assert (steps + [step])[..|steps|] == steps;
  }

  lemma StepThen(q: Queue, max: nat, step: Step, steps: seq<Step>)
    ensures Exec(q, max, [step] + steps) == Exec(Next(q, max, step), max, steps)
  {
    ExecSnoc(q, max, [], step);
    assert [] + [step] == [step];
    ExecConcat(q, max, [step], steps);
  }

  lemma LeaseLeads(q: Queue, max: nat, lease: Step, r: Queue)
    requires lease.Lease?
    requires r == LeaseNext(q, lease.scope, lease.worker,
                            Grants(q.rows, lease.scope, lease.now, lease.locked, lease.limit, 0), lease.now + lease.leaseSeconds)
    ensures Leads(q, max, [lease], r)
  {
    assert Path(max, [lease], [q, r]);
  }

  /** The worker's last step for a task that it handed over. */
  function Closing(t: nat, turn: Turn): Step {
    if turn.answer.Succeeded? then Mark(t) else Fail(t, turn.retryAt)
  }

  lemma TaskTraceUnfolds(q: Queue, t: nat, attempts: nat, max: nat, turn: Turn)
    ensures var q1 := Exec(q, max, turn.before);
      Exec(q, max, TaskTrace(t, attempts, max, turn)) ==
        if attempts > max then Next(q1, max, GiveUp(t))
        else Next(Exec(Next(q1, max, HandOver(t, !turn.answer.FailedWithoutEffect?, turn.answer.Succeeded?)), max, turn.between),
                  max, Closing(t, turn))
  {
    if attempts > max {
      ExecSnoc(q, max, turn.before, GiveUp(t));
    } else {
      var handOver := HandOver(t, !turn.answer.FailedWithoutEffect?, turn.answer.Succeeded?);
      ExecSnoc(q, max, turn.before, handOver);
      ExecConcat(q, max, turn.before + [handOver], turn.between);
      ExecSnoc(q, max, turn.before + [handOver] + turn.between, Closing(t, turn));
    }
  }

  class Dispatcher {
    const store: QueueStore
    const scope: Option<string>
    const workerId: string
    const leaseSeconds: int
    const batchSize: int
    const maxAttempts: nat

    constructor (store: QueueStore, scope: Option<string>, workerId: string, leaseSeconds: int, batchSize: int, maxAttempts: nat)
      ensures this.store == store && this.scope == scope && this.workerId == workerId
      ensures this.leaseSeconds == leaseSeconds && this.batchSize == batchSize && this.maxAttempts == maxAttempts
    {
      this.store, this.scope, this.workerId := store, scope, workerId;
      this.leaseSeconds, this.batchSize, this.maxAttempts := leaseSeconds, batchSize, maxAttempts;
    }

    /** Hands over and records the outcome of a task within the attempt limit. */
    method Deliver(t: nat, turn: Turn, ghost lo: nat, ghost hi: nat) returns (outcome: Outcome)
      requires lo <= t < hi <= |store.tasks| && store.tasks[t].phase.Granted? && store.tasks[t].attempts <= maxAttempts
      requires AllForeign(turn.between, lo, hi)
      modifies store
      ensures store.State() ==
        Next(Exec(Next(old(store.State()), maxAttempts, HandOver(t, !turn.answer.FailedWithoutEffect?, turn.answer.Succeeded?)),
                  maxAttempts, turn.between), maxAttempts, Closing(t, turn))
      ensures hi <= |store.tasks|
      ensures store.tasks[t] == old(store.tasks)[t].(phase := Closed(outcome))
      ensures forall u :: lo <= u < hi && u != t ==> store.tasks[u] == old(store.tasks)[u]
    {
      var attempts := store.tasks[t].attempts;
      store.HandOver(t, !turn.answer.FailedWithoutEffect?, turn.answer.Succeeded?);
      ForeignKeeps(store.State(), maxAttempts, turn.between, lo, hi);
      store.Interfere(maxAttempts, turn.between);
      if turn.answer.Succeeded? {
        var ok := store.MarkPublished(t);
        outcome := if ok then Published else LeaseLost;
      } else {
        var exhausted := attempts >= maxAttempts;
        var ok := store.RecordFailure(t, if exhausted then None else Some(turn.retryAt));
        outcome := if !ok then LeaseLost else if exhausted then DeadLettered else Retried;
      }
    }

    /** One turn of the loop: gives up an entry beyond the attempt limit, delivers any other. */
    method Process(t: nat, turn: Turn, ghost lo: nat, ghost hi: nat, ghost trace: seq<Step>) returns (outcome: Outcome)
      requires lo <= t < hi <= |store.tasks| && store.tasks[t].phase.Granted?
      requires TurnForeign(turn, lo, hi)
      requires trace == TaskTrace(t, store.tasks[t].attempts, maxAttempts, turn)
      modifies store
      ensures Leads(old(store.State()), maxAttempts, trace, store.State())
      ensures hi <= |store.tasks|
      ensures store.tasks[t] == old(store.tasks)[t].(phase := Closed(outcome))
      ensures forall u :: lo <= u < hi && u != t ==> store.tasks[u] == old(store.tasks)[u]
    {
      TaskTraceUnfolds(store.State(), t, store.tasks[t].attempts, maxAttempts, turn);
      ExecLeads(store.State(), maxAttempts, trace);
      ForeignKeeps(store.State(), maxAttempts, turn.before, lo, hi);
      store.Interfere(maxAttempts, turn.before);
      if store.tasks[t].attempts > maxAttempts {
        var ok := store.RecordFailure(t, None);
        outcome := if ok then DeadLettered else LeaseLost;
      } else {
        outcome := Deliver(t, turn, lo, hi);
      }
    }

    /** The pass that started in `start` has closed its first `n` tasks by way of `trace`. */
    ghost predicate Reached(start: Queue, lo: nat, hi: nat, turns: nat -> Turn, n: nat, trace: seq<Step>, report: Report)
      reads store
    {
      && lo + n <= hi <= |start.tasks| && hi <= |store.tasks|
      && (forall u :: lo + n <= u < hi ==> store.tasks[u] == start.tasks[u])
      && trace == RunTrace(start.tasks, lo, n, maxAttempts, turns)
      && Leads(start, maxAttempts, trace, store.State())
      && report.leased == n && Matches(report, store.tasks, lo)
    }

    /** One iteration of the loop. */
    method Advance(ghost start: Queue, lo: nat, ghost hi: nat, turns: nat -> Turn, n: nat, ghost trace: seq<Step>, report: Report)
      returns (more: Report, ghost longer: seq<Step>)
      requires Reached(start, lo, hi, turns, n, trace, report) && lo + n < hi
      requires start.tasks[lo + n].phase.Granted? && TurnForeign(turns(n), lo, hi)
      modifies store
      ensures Reached(start, lo, hi, turns, n + 1, longer, more)
    {
      ghost var here := store.State();
      assert here.tasks[lo + n] == start.tasks[lo + n];
      ghost var part := TaskTrace(lo + n, here.tasks[lo + n].attempts, maxAttempts, turns(n));
      var outcome := Process(lo + n, turns(n), lo, hi, part);
      LeadsOn(start, maxAttempts, trace, here, part, store.State());
      longer := trace + part;
      CountMatches(report, here.tasks, store.tasks, lo, outcome);
      more := Count(report, outcome);
    }

    /** The loop of a pass over its tasks, the last ones in the store's list. */
    method ProcessAll(lo: nat, count: nat, turns: nat -> Turn) returns (report: Report, ghost trace: seq<Step>)
      requires lo + count == |store.tasks|
      requires forall u :: lo <= u < |store.tasks| ==> store.tasks[u].phase.Granted?
      requires forall n :: 0 <= n < count ==> TurnForeign(turns(n), lo, lo + count)
      modifies store
      ensures trace == RunTrace(old(store.tasks), lo, count, maxAttempts, turns)
      ensures Leads(old(store.State()), maxAttempts, trace, store.State())
      ensures report.leased == count && Matches(report, store.tasks, lo)
    {
      ghost var start := store.State();
      ghost var hi := lo + count;
      report, trace := Report(0, 0, 0, 0, 0), [];
      LeadsNowhere(start, maxAttempts);
      assert Reached(start, lo, hi, turns, 0, trace, report);
      for n := 0 to count
        invariant Reached(start, lo, hi, turns, n, trace, report)
      {
        assert TurnForeign(turns(n), lo, hi);
        assert start.tasks[lo + n].phase.Granted?;
        report, trace := Advance(start, lo, hi, turns, n, trace, report);
      }
    }

    /** The lease of a pass, as a step. */
    method LeaseOnce(now: int, locked: set<nat>) returns (granted: seq<nat>)
      modifies store
      ensures granted == Grants(old(store.rows), scope, now, locked, batchSize, 0)
      ensures store.State() == LeaseNext(old(store.State()), scope, workerId, granted, now + leaseSeconds)
    {
      granted := store.LeaseBatch(scope, workerId, now, leaseSeconds, batchSize, locked);
    }

    /**
     One dispatch pass. The store ends in the state the transition system reaches by the lease and the
     steps of this worker, interleaved with whatever others did, so every result about runs of
     `Outbox` applies to it; and every leased entry is counted in exactly one of the four outcomes.
     */
    method RunOnce(now: int, locked: set<nat>, turns: nat -> Turn) returns (report: Report, ghost trace: seq<Step>)
      requires forall n :: 0 <= n < |Grants(store.rows, scope, now, locked, batchSize, 0)| ==>
        TurnForeign(turns(n), |store.tasks|, |store.tasks| + |Grants(store.rows, scope, now, locked, batchSize, 0)|)
      modifies store
      ensures trace == PassTrace(old(store.State()), Lease(scope, workerId, now, leaseSeconds, batchSize, locked), maxAttempts, turns)
      ensures Leads(old(store.State()), maxAttempts, trace, store.State())
      ensures report.leased == |Grants(old(store.rows), scope, now, locked, batchSize, 0)|
      ensures report.leased == report.published + report.retried + report.deadLettered + report.leaseLost
      ensures Matches(report, store.tasks, |old(store.tasks)|)
    {
      ghost var q := store.State();
      var lo := |store.tasks|;
      ghost var lease := Lease(scope, workerId, now, leaseSeconds, batchSize, locked);
      var granted := LeaseOnce(now, locked);
      ghost var leased := store.State();
      LeaseLeads(q, maxAttempts, lease, leased);
      report, trace := ProcessAll(lo, |granted|, turns);
      LeadsOn(q, maxAttempts, [lease], leased, trace, store.State());
      trace := [lease] + trace;
    }
  }
}
