/**
 The leased queue of `platform/outbox`, as a transition system.

 One model serves both tables of the source: the producers' outbox (`consumer == None`) and the
 per-consumer deliveries (`consumer == Some(c)`). A row's entry id is its index, so appending assigns
 strictly increasing ids. Every SQL statement is one atomic step. Everything the environment decides
 (clocks, which rows are locked by somebody else, whether a publish took effect, whether it reported
 success, what an operator does) is data of the step, so "for all step sequences" is "for all runs".

 A worker's run is represented by the snapshots it was granted (`Task`). A task may be left at any
 phase for ever, which is a crash; it may also go on long after its lease expired, because the source
 checks no lease before it publishes.
 */
module Outbox {
  import opened Wrappers

  datatype Envelope = Envelope(tenant: string, eventId: string, eventType: string,
                               aggregateType: string, aggregateId: string)

  /** The ordering scope of an entry. */
  datatype Stream = StreamOf(consumer: Option<string>, tenant: string, aggregateType: string, aggregateId: string)

  datatype Status = Pending | Leased(holder: string, expiresAt: int) | Done | Dead | Skipped

  datatype Row = Row(consumer: Option<string>, envelope: Envelope, status: Status, attempts: nat, nextAttemptAt: int) {
    function Stream(): Stream {
      StreamOf(consumer, envelope.tenant, envelope.aggregateType, envelope.aggregateId)
    }

    predicate Finished() {
      status.Done? || status.Skipped?
    }

    /** Pending or leased: work the dispatcher still has to do. */
    predicate Open() {
      status.Pending? || status.Leased?
    }

    /** As appended: never granted to a worker. */
    predicate Fresh() {
      status.Pending? && attempts == 0
    }

    predicate Eligible(now: int) {
      match status
      case Pending => nextAttemptAt <= now
      case Leased(_, expiresAt) => expiresAt <= now
      case _ => false
    }
  }

  datatype Outcome = Published | Retried | DeadLettered | LeaseLost

  /** Granted, then handed over with or without a reported success, then closed by recording an outcome. */
  datatype Phase = Granted | Accepted | Refused | Closed(outcome: Outcome)

  /** A granted snapshot in a worker's hands. `epoch` counts the requeues of the entry before the grant. */
  datatype Task = Task(scope: Option<string>, worker: string, entry: nat, attempts: nat, epoch: nat, phase: Phase)

  /** Evidence of what happened, in order. */
  datatype Fact =
    | HandedOver(task: nat, entry: nat, took: bool, reported: bool)
    | MarkedDone(entry: nat)
    | MarkedSkipped(entry: nat)
    | Requeued(entry: nat)

  datatype Queue = Queue(rows: seq<Row>, tasks: seq<Task>, log: seq<Fact>)

  const EMPTY := Queue([], [], [])

  datatype Action = Requeue(now: int) | Skip

  datatype Step =
    | Append(consumer: Option<string>, envelope: Envelope, now: int)
    | Lease(scope: Option<string>, worker: string, now: int, leaseSeconds: int, limit: int, locked: set<nat>)
    | GiveUp(task: nat)
    | HandOver(task: nat, took: bool, reported: bool)
    | Mark(task: nat)
    | Fail(task: nat, retryAt: int)
    | Resolve(scope: Option<string>, entry: nat, action: Action)

  // ----- The SQL statements -----

  /** No earlier entry of the stream is unfinished. */
  predicate Head(rows: seq<Row>, i: nat)
    requires i < |rows|
  {
    forall j :: 0 <= j < i && rows[j].Stream() == rows[i].Stream() ==> rows[j].Finished()
  }

  predicate Candidate(rows: seq<Row>, scope: Option<string>, now: int, locked: set<nat>, i: nat)
    requires i < |rows|
  {
    rows[i].consumer == scope && rows[i].Eligible(now) && i !in locked && Head(rows, i)
  }

  /** The candidate heads from `from` on in entry order, at most `limit` of them. */
  function Grants(rows: seq<Row>, scope: Option<string>, now: int, locked: set<nat>, limit: int, from: nat): (granted: seq<nat>)
    requires from <= |rows|
    ensures forall k :: 0 <= k < |granted| ==>
      from <= granted[k] < |rows| && Candidate(rows, scope, now, locked, granted[k])
    ensures forall k, m :: 0 <= k < m < |granted| ==> granted[k] < granted[m]
    decreases |rows| - from
  {
    if limit < 1 || from == |rows| then []
    else if Candidate(rows, scope, now, locked, from) then
      [from] + Grants(rows, scope, now, locked, limit - 1, from + 1)
    else Grants(rows, scope, now, locked, limit, from + 1)
  }

  function LeasedRow(row: Row, worker: string, expiresAt: int): Row {
    row.(status := Leased(worker, expiresAt), attempts := row.attempts + 1)
  }

  function LeaseRows(rows: seq<Row>, granted: seq<nat>, worker: string, expiresAt: int): (r: seq<Row>) {
    seq(|rows|, i requires 0 <= i < |rows| => if i in granted then LeasedRow(rows[i], worker, expiresAt) else rows[i])
  }

  predicate Held(rows: seq<Row>, scope: Option<string>, entry: nat, worker: string) {
    entry < |rows| && rows[entry].consumer == scope && rows[entry].status.Leased? && rows[entry].status.holder == worker
  }

  function MarkRows(rows: seq<Row>, entry: nat): seq<Row>
    requires entry < |rows|
  {
    rows[entry := rows[entry].(status := Done)]
  }

  function FailRows(rows: seq<Row>, entry: nat, retryAt: Option<int>): seq<Row>
    requires entry < |rows|
  {
    match retryAt
    case None => rows[entry := rows[entry].(status := Dead)]
    case Some(at) => rows[entry := rows[entry].(status := Pending, nextAttemptAt := at)]
  }

  predicate Resolvable(rows: seq<Row>, scope: Option<string>, entry: nat) {
    entry < |rows| && rows[entry].consumer == scope && rows[entry].status.Dead?
  }

  function ResolveRows(rows: seq<Row>, entry: nat, action: Action): seq<Row>
    requires entry < |rows|
  {
    match action
    case Skip => rows[entry := rows[entry].(status := Skipped)]
    case Requeue(now) => rows[entry := rows[entry].(status := Pending, attempts := 0, nextAttemptAt := now)]
  }

  // ----- The machine -----

  /** How often an operator requeued the entry so far. */
  function Requeues(log: seq<Fact>, entry: nat): nat {
    if log == [] then 0
    else Requeues(log[..|log| - 1], entry) + (if log[|log| - 1] == Requeued(entry) then 1 else 0)
  }

  function Snapshots(q: Queue, scope: Option<string>, worker: string, granted: seq<nat>): seq<Task>
    requires forall k :: 0 <= k < |granted| ==> granted[k] < |q.rows|
  {
    seq(|granted|, k requires 0 <= k < |granted| =>
      Task(scope, worker, granted[k], q.rows[granted[k]].attempts + 1, Requeues(q.log, granted[k]), Granted))
  }

  function LeaseNext(q: Queue, scope: Option<string>, worker: string, granted: seq<nat>, expiresAt: int): Queue
    requires forall k :: 0 <= k < |granted| ==> granted[k] < |q.rows|
  {
    q.(rows := LeaseRows(q.rows, granted, worker, expiresAt), tasks := q.tasks + Snapshots(q, scope, worker, granted))
  }

  function Close(q: Queue, t: nat, outcome: Outcome): Queue
    requires t < |q.tasks|
  {
    q.(tasks := q.tasks[t := q.tasks[t].(phase := Closed(outcome))])
  }

  function RecordFailure(q: Queue, t: nat, retryAt: Option<int>): Queue
    requires t < |q.tasks|
  {
    var task := q.tasks[t];
    if Held(q.rows, task.scope, task.entry, task.worker) then
      Close(q.(rows := FailRows(q.rows, task.entry, retryAt)), t, if retryAt.None? then DeadLettered else Retried)
    else Close(q, t, LeaseLost)
  }

  function RecordSuccess(q: Queue, t: nat): Queue
    requires t < |q.tasks|
  {
    var task := q.tasks[t];
    if Held(q.rows, task.scope, task.entry, task.worker) then
      Close(q.(rows := MarkRows(q.rows, task.entry), log := q.log + [MarkedDone(task.entry)]), t, Published)
    else Close(q, t, LeaseLost)
  }

  predicate InPhase(q: Queue, t: nat, phase: Phase) {
    t < |q.tasks| && q.tasks[t].phase == phase
  }

  /** A hand-over can happen only within the attempt budget, and a reported success did take effect. */
  predicate CanHandOver(q: Queue, max: nat, t: nat, took: bool, reported: bool) {
    InPhase(q, t, Granted) && q.tasks[t].attempts <= max && (reported ==> took)
  }

  /** One atomic step; a step that is not enabled changes nothing. */
  function Next(q: Queue, max: nat, step: Step): Queue {
    match step
    case Append(consumer, envelope, now) =>
      q.(rows := q.rows + [Row(consumer, envelope, Pending, 0, now)])
    case Lease(scope, worker, now, leaseSeconds, limit, locked) =>
      LeaseNext(q, scope, worker, Grants(q.rows, scope, now, locked, limit, 0), now + leaseSeconds)
    case GiveUp(t) =>
      if InPhase(q, t, Granted) && q.tasks[t].attempts > max then RecordFailure(q, t, None) else q
    case HandOver(t, took, reported) =>
      if CanHandOver(q, max, t, took, reported) then
        q.(tasks := q.tasks[t := q.tasks[t].(phase := if reported then Accepted else Refused)],
           log := q.log + [HandedOver(t, q.tasks[t].entry, took, reported)])
      else q
    case Mark(t) =>
      if InPhase(q, t, Accepted) then RecordSuccess(q, t) else q
    case Fail(t, retryAt) =>
      if InPhase(q, t, Refused) then
        RecordFailure(q, t, if q.tasks[t].attempts >= max then None else Some(retryAt))
      else q
    case Resolve(scope, entry, action) =>
      if Resolvable(q.rows, scope, entry) then
        q.(rows := ResolveRows(q.rows, entry, action),
           log := q.log + [if action.Skip? then MarkedSkipped(entry) else Requeued(entry)])
      else q
  }

  function Exec(q: Queue, max: nat, steps: seq<Step>): Queue {
    if steps == [] then q
    else Next(Exec(q, max, steps[..|steps| - 1]), max, steps[|steps| - 1])
  }

  lemma {:induction false} ExecConcat(q: Queue, max: nat, a: seq<Step>, b: seq<Step>)
    ensures Exec(q, max, a + b) == Exec(Exec(q, max, a), max, b)
    decreases |b|
  {
    if b == [] {
      assert a + b == a;
    } else {
      ExecConcat(q, max, a, b[..|b| - 1]);
      assert (a + b)[..|a + b| - 1] == a + b[..|b| - 1];
    }
  }

  // ----- What a step may do to the rows -----

  /** Only heads of streams change, finished rows never do, and identities are kept. */
  predicate HeadsChange(before: seq<Row>, after: seq<Row>) {
    && |before| == |after|
    && (forall i :: 0 <= i < |before| ==> after[i].consumer == before[i].consumer && after[i].envelope == before[i].envelope)
    && (forall i :: 0 <= i < |before| && before[i].Finished() ==> after[i] == before[i])
    && (forall i :: 0 <= i < |before| && after[i] != before[i] ==> Head(before, i))
  }

  /** Rows are only added; what is finished stays as it is. */
  predicate Evolves(before: seq<Row>, after: seq<Row>) {
    && |before| <= |after|
    && (forall i :: 0 <= i < |before| ==> after[i].consumer == before[i].consumer && after[i].envelope == before[i].envelope)
    && (forall i :: 0 <= i < |before| && before[i].Finished() ==> after[i] == before[i])
  }

  /** Every stream is a finished prefix, at most one touched head, then entries nobody ever leased. */
  predicate Shape(rows: seq<Row>) {
    forall i, j :: 0 <= i < j < |rows| && rows[i].Stream() == rows[j].Stream() && !rows[i].Finished() ==> rows[j].Fresh()
  }

  /** A touched row is the head of its stream, so rewriting its status is a change to a head. */
  lemma TouchedRowChange(rows: seq<Row>, i: nat, row: Row)
    requires Shape(rows) && i < |rows| && !rows[i].Fresh() && !rows[i].Finished()
    requires row.consumer == rows[i].consumer && row.envelope == rows[i].envelope
    ensures HeadsChange(rows, rows[i := row])
  {
    assert Head(rows, i);
  }

  lemma LeaseChange(rows: seq<Row>, granted: seq<nat>, worker: string, expiresAt: int)
    requires forall k :: 0 <= k < |granted| ==>
      granted[k] < |rows| && Head(rows, granted[k]) && rows[granted[k]].Open()
    ensures HeadsChange(rows, LeaseRows(rows, granted, worker, expiresAt))
  {
  }

  lemma FailureChange(q: Queue, t: nat, retryAt: Option<int>)
    requires Shape(q.rows) && t < |q.tasks|
    ensures HeadsChange(q.rows, RecordFailure(q, t, retryAt).rows)
  {
    var task := q.tasks[t];
    if Held(q.rows, task.scope, task.entry, task.worker) {
      TouchedRowChange(q.rows, task.entry, FailRows(q.rows, task.entry, retryAt)[task.entry]);
    }
  }

  lemma SuccessChange(q: Queue, t: nat)
    requires Shape(q.rows) && t < |q.tasks|
    ensures HeadsChange(q.rows, RecordSuccess(q, t).rows)
  {
    var task := q.tasks[t];
    if Held(q.rows, task.scope, task.entry, task.worker) {
      TouchedRowChange(q.rows, task.entry, MarkRows(q.rows, task.entry)[task.entry]);
    }
  }

  lemma StepOnRows(q: Queue, max: nat, step: Step)
    requires Shape(q.rows) && !step.Append?
    ensures HeadsChange(q.rows, Next(q, max, step).rows)
  {
    match step
    case Lease(scope, worker, now, leaseSeconds, limit, locked) =>
      LeaseChange(q.rows, Grants(q.rows, scope, now, locked, limit, 0), worker, now + leaseSeconds);
    case GiveUp(t) => if t < |q.tasks| { FailureChange(q, t, None); }
    case HandOver(_, _, _) =>
    case Mark(t) => if t < |q.tasks| { SuccessChange(q, t); }
    case Fail(t, retryAt) => if t < |q.tasks| { FailureChange(q, t, None); FailureChange(q, t, Some(retryAt)); }
    case Resolve(scope, entry, action) =>
      if Resolvable(q.rows, scope, entry) {
        TouchedRowChange(q.rows, entry, ResolveRows(q.rows, entry, action)[entry]);
      }
  }

  lemma ShapeKept(before: seq<Row>, after: seq<Row>)
    requires Shape(before) && HeadsChange(before, after)
    ensures Shape(after)
  {
    forall i, j | 0 <= i < j < |after| && after[i].Stream() == after[j].Stream() && !after[i].Finished()
      ensures after[j].Fresh()
    {
      assert before[i].Stream() == before[j].Stream() && !before[i].Finished();
      assert before[j].Fresh() && !Head(before, j);
    }
  }

  lemma ShapeStep(q: Queue, max: nat, step: Step)
    requires Shape(q.rows)
    ensures Shape(Next(q, max, step).rows)
    ensures Evolves(q.rows, Next(q, max, step).rows)
  {
    if !step.Append? {
      StepOnRows(q, max, step);
      ShapeKept(q.rows, Next(q, max, step).rows);
    }
  }
}
