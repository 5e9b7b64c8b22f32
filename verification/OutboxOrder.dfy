/**
 Safety of the leased queue over whole runs: order within a stream, permanence of finished entries,
 one lease per stream, and the hand-over budget.
 */
module OutboxOrder {
  import opened Wrappers
  import opened Outbox

  // ----- Evidence -----

  predicate IsAcceptance(fact: Fact, entry: nat) {
    fact.HandedOver? && fact.entry == entry && fact.reported
  }

  predicate AcceptedIn(log: seq<Fact>, entry: nat) {
    exists k :: 0 <= k < |log| && IsAcceptance(log[k], entry)
  }

  predicate DoneAt(log: seq<Fact>, entry: nat, m: nat) {
    m < |log| && log[m] == MarkedDone(entry) && AcceptedIn(log[..m], entry)
  }

  ghost predicate DoneIn(log: seq<Fact>, entry: nat) {
    exists m: nat :: DoneAt(log, entry, m)
  }

  /** The log shows that the entry was skipped, or handed over successfully and marked after that. */
  ghost predicate Settled(log: seq<Fact>, entry: nat) {
    MarkedSkipped(entry) in log || DoneIn(log, entry)
  }

  lemma EvidenceStays(log: seq<Fact>, more: seq<Fact>, entry: nat)
    requires log <= more
    ensures AcceptedIn(log, entry) ==> AcceptedIn(more, entry)
    ensures DoneIn(log, entry) ==> DoneIn(more, entry)
    ensures Settled(log, entry) ==> Settled(more, entry)
  {
    if DoneIn(log, entry) {
      var m: nat :| DoneAt(log, entry, m);
      assert more[..m] == log[..m];
      assert DoneAt(more, entry, m);
    }
  }

  // ----- The invariant -----

  /** Every earlier entry of the stream is settled by the log. */
  ghost predicate EarlierSettled(rows: seq<Row>, log: seq<Fact>, entry: nat) {
    entry < |rows| && forall j :: 0 <= j < entry && rows[j].Stream() == rows[entry].Stream() ==> Settled(log, j)
  }

  ghost predicate HandOversOrdered(rows: seq<Row>, log: seq<Fact>) {
    forall k :: 0 <= k < |log| && log[k].HandedOver? ==> EarlierSettled(rows, log[..k], log[k].entry)
  }

  ghost predicate FinishedSettled(rows: seq<Row>, log: seq<Fact>) {
    && (forall i :: 0 <= i < |rows| && rows[i].status.Done? ==> DoneIn(log, i))
    && (forall i :: 0 <= i < |rows| && rows[i].status.Skipped? ==> MarkedSkipped(i) in log)
  }

  predicate TasksAtHeads(q: Queue) {
    forall t :: 0 <= t < |q.tasks| ==>
      && q.tasks[t].entry < |q.rows|
      && Head(q.rows, q.tasks[t].entry)
      && (q.tasks[t].phase.Accepted? ==> AcceptedIn(q.log, q.tasks[t].entry))
  }

  ghost predicate Ordered(q: Queue) {
    Shape(q.rows) && FinishedSettled(q.rows, q.log) && TasksAtHeads(q) && HandOversOrdered(q.rows, q.log)
  }

  lemma LogGrows(q: Queue, max: nat, step: Step)
    ensures q.log <= Next(q, max, step).log
    ensures |Next(q, max, step).log| <= |q.log| + 1
  {
  }

  lemma HeadStays(before: seq<Row>, after: seq<Row>, i: nat)
    requires Evolves(before, after) && i < |before| && Head(before, i)
    ensures Head(after, i)
  {
    forall j | 0 <= j < i && after[j].Stream() == after[i].Stream()
      ensures after[j].Finished()
    {
      assert before[j].Stream() == before[i].Stream();
    }
  }

  lemma FinishedSettledStep(q: Queue, max: nat, step: Step)
    requires Ordered(q)
    ensures FinishedSettled(Next(q, max, step).rows, Next(q, max, step).log)
  {
    var n := Next(q, max, step);
    LogGrows(q, max, step);
    ShapeStep(q, max, step);
    forall i | 0 <= i < |n.rows| && n.rows[i].Finished()
      ensures n.rows[i].status.Done? ==> DoneIn(n.log, i)
      ensures n.rows[i].status.Skipped? ==> MarkedSkipped(i) in n.log
    {
      if i < |q.rows| && q.rows[i].Finished() {
        EvidenceStays(q.log, n.log, i);
      } else {
        NewlyFinished(q, max, step, i);
      }
    }
  }

  lemma NewlyFinished(q: Queue, max: nat, step: Step, i: nat)
    requires Ordered(q)
    requires i < |Next(q, max, step).rows| && Next(q, max, step).rows[i].Finished()
    requires i < |q.rows| ==> !q.rows[i].Finished()
    ensures Next(q, max, step).rows[i].status.Done? ==> DoneIn(Next(q, max, step).log, i)
    ensures Next(q, max, step).rows[i].status.Skipped? ==> MarkedSkipped(i) in Next(q, max, step).log
  {
    var n := Next(q, max, step);
    match step
    case Mark(t) =>
      assert q.tasks[t].entry == i && AcceptedIn(q.log, i);
      assert n.log[..|q.log|] == q.log;
      assert DoneAt(n.log, i, |q.log|);
    case Resolve(_, entry, action) =>
      assert entry == i && n.log[|q.log|] == MarkedSkipped(i);
    case _ =>
  }

  /** A step only moves phases of known tasks; a task becomes accepted by an accepted hand-over. */
  lemma TasksKept(q: Queue, max: nat, step: Step, t: nat)
    requires t < |q.tasks|
    ensures var n := Next(q, max, step);
      && |q.tasks| <= |n.tasks|
      && n.tasks[t] == q.tasks[t].(phase := n.tasks[t].phase)
      && (n.tasks[t].phase.Accepted? && !q.tasks[t].phase.Accepted? ==>
            n.log == q.log + [HandedOver(t, q.tasks[t].entry, true, true)])
  {
  }

  /** A new task was granted by a lease of a head. */
  lemma TaskGranted(q: Queue, max: nat, step: Step, t: nat)
    requires |q.tasks| <= t < |Next(q, max, step).tasks|
    ensures var n := Next(q, max, step); var e := n.tasks[t].entry;
      && step.Lease?
      && n.tasks[t].phase.Granted?
      && e < |q.rows| && Head(q.rows, e)
      && n.tasks[t] == Task(step.scope, step.worker, e, q.rows[e].attempts + 1, Requeues(q.log, e), Granted)
      && n.rows[e].attempts == q.rows[e].attempts + 1
  {
    assert step.Lease?;
    var granted := Grants(q.rows, step.scope, step.now, step.locked, step.limit, 0);
    assert granted[t - |q.tasks|] in granted;
  }

  lemma TaskAtHeadStep(q: Queue, max: nat, step: Step, t: nat)
    requires Ordered(q) && t < |Next(q, max, step).tasks|
    ensures var n := Next(q, max, step);
      && n.tasks[t].entry < |n.rows|
      && Head(n.rows, n.tasks[t].entry)
      && (n.tasks[t].phase.Accepted? ==> AcceptedIn(n.log, n.tasks[t].entry))
  {
    var n := Next(q, max, step);
    var e := n.tasks[t].entry;
    LogGrows(q, max, step);
    ShapeStep(q, max, step);
    if t < |q.tasks| {
      TasksKept(q, max, step, t);
      EvidenceStays(q.log, n.log, e);
      if n.tasks[t].phase.Accepted? && !q.tasks[t].phase.Accepted? {
        assert IsAcceptance(n.log[|q.log|], e);
      }
    } else {
      TaskGranted(q, max, step, t);
    }
    HeadStays(q.rows, n.rows, e);
  }

  lemma HandOversOrderedStep(q: Queue, max: nat, step: Step)
    requires Ordered(q)
    ensures HandOversOrdered(Next(q, max, step).rows, Next(q, max, step).log)
  {
    var n := Next(q, max, step);
    LogGrows(q, max, step);
    ShapeStep(q, max, step);
    forall k | 0 <= k < |n.log| && n.log[k].HandedOver?
      ensures EarlierSettled(n.rows, n.log[..k], n.log[k].entry)
    {
      var e := n.log[k].entry;
      assert n.log[..k] == q.log[..k];
      if k < |q.log| {
        assert EarlierSettled(q.rows, q.log[..k], e);
      } else {
        assert q.log[..k] == q.log;
        assert EarlierSettled(q.rows, q.log, e);
      }
      forall j | 0 <= j < e && n.rows[j].Stream() == n.rows[e].Stream()
        ensures Settled(n.log[..k], j)
      {
        assert q.rows[j].Stream() == q.rows[e].Stream();
      }
    }
  }

  lemma OrderedStep(q: Queue, max: nat, step: Step)
    requires Ordered(q)
    ensures Ordered(Next(q, max, step))
    ensures Evolves(q.rows, Next(q, max, step).rows)
  {
    ShapeStep(q, max, step);
    FinishedSettledStep(q, max, step);
    forall t | 0 <= t < |Next(q, max, step).tasks| {
      TaskAtHeadStep(q, max, step, t);
    }
    HandOversOrderedStep(q, max, step);
  }

  lemma {:induction false} OrderedAlways(max: nat, steps: seq<Step>)
    ensures Ordered(Exec(EMPTY, max, steps))
  {
    if steps != [] {
      OrderedAlways(max, steps[..|steps| - 1]);
      OrderedStep(Exec(EMPTY, max, steps[..|steps| - 1]), max, steps[|steps| - 1]);
    }
  }

  // ----- Main results -----

  /**
   In every run, at every hand-over (late ones by workers that lost their lease included), every
   earlier entry of the stream had already been skipped, or handed over successfully and then marked.
   */
  lemma HandOversFollowStreamOrder(max: nat, steps: seq<Step>, k: nat, j: nat)
    requires var q := Exec(EMPTY, max, steps);
      && k < |q.log| && q.log[k].HandedOver? && j < q.log[k].entry < |q.rows|
      && q.rows[j].Stream() == q.rows[q.log[k].entry].Stream()
    ensures Settled(Exec(EMPTY, max, steps).log[..k], j)
  {
    OrderedAlways(max, steps);
    var q := Exec(EMPTY, max, steps);
    assert EarlierSettled(q.rows, q.log[..k], q.log[k].entry);
  }

  lemma EvolvesOn(base: seq<Row>, q: Queue, max: nat, step: Step)
    requires Ordered(q) && Evolves(base, q.rows)
    ensures Ordered(Next(q, max, step)) && Evolves(base, Next(q, max, step).rows)
  {
    OrderedStep(q, max, step);
    EvolvesTransitive(base, q.rows, Next(q, max, step).rows);
  }

  lemma EvolvesTransitive(a: seq<Row>, b: seq<Row>, c: seq<Row>)
    requires Evolves(a, b) && Evolves(b, c)
    ensures Evolves(a, c)
  {
  }

  lemma {:induction false} EvolvesFrom(q: Queue, max: nat, later: seq<Step>)
    requires Ordered(q)
    ensures Ordered(Exec(q, max, later)) && Evolves(q.rows, Exec(q, max, later).rows)
  {
    if later != [] {
      EvolvesFrom(q, max, later[..|later| - 1]);
      EvolvesOn(q.rows, Exec(q, max, later[..|later| - 1]), max, later[|later| - 1]);
    }
  }

  /** Once done or skipped, an entry never changes again, whatever happens later. */
  lemma FinishedIsForever(max: nat, steps: seq<Step>, later: seq<Step>, i: nat)
    requires i < |Exec(EMPTY, max, steps).rows| && Exec(EMPTY, max, steps).rows[i].Finished()
    ensures i < |Exec(EMPTY, max, steps + later).rows|
    ensures Exec(EMPTY, max, steps + later).rows[i] == Exec(EMPTY, max, steps).rows[i]
  {
    OrderedAlways(max, steps);
    EvolvesFrom(Exec(EMPTY, max, steps), max, later);
    ExecConcat(EMPTY, max, steps, later);
  }

  /** Every reachable stream has the promised shape, so at most one of its entries is leased or dead. */
  lemma StreamShape(max: nat, steps: seq<Step>, i: nat, j: nat)
    requires i < j < |Exec(EMPTY, max, steps).rows|
    requires Exec(EMPTY, max, steps).rows[i].Stream() == Exec(EMPTY, max, steps).rows[j].Stream()
    ensures var q := Exec(EMPTY, max, steps);
      && (!q.rows[i].Finished() ==> q.rows[j].Fresh() && forall t :: 0 <= t < |q.tasks| ==> q.tasks[t].entry != j)
      && (!q.rows[j].Fresh() ==> q.rows[i].Finished())
  {
    OrderedAlways(max, steps);
    var q := Exec(EMPTY, max, steps);
    if !q.rows[i].Finished() {
      assert !Head(q.rows, j);
    }
  }
}
