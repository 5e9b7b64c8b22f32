/**
 The row of a versioned aggregate with the transactions open on it, as the class it is. What other
 transactions do meanwhile is handed to the methods as data.
 */
module VersionedRow {
  import opened Wrappers
  import opened VersionChain

  /** The step belongs to another transaction. */
  predicate Foreign<C>(step: Step<C>, tx: nat) {
    step.Begin? || step.tx != tx
  }

  predicate AllForeign<C>(steps: seq<Step<C>>, tx: nat) {
    forall i :: 0 <= i < |steps| ==> Foreign(steps[i], tx)
  }

  function ExecFrom<S, C, E, A>(rules: Rules<S, C, E, A>, s: Store<S, E, A>, steps: seq<Step<C>>): Store<S, E, A> {
    if steps == [] then s else Next(rules, ExecFrom(rules, s, steps[..|steps| - 1]), steps[|steps| - 1])
  }

  ghost predicate Leads<S, C, E, A>(rules: Rules<S, C, E, A>, s: Store<S, E, A>, trace: seq<Step<C>>, r: Store<S, E, A>) {
    r == ExecFrom(rules, s, trace)
  }

  lemma {:induction false} ExecConcat<S, C, E, A>(rules: Rules<S, C, E, A>, s: Store<S, E, A>, a: seq<Step<C>>, b: seq<Step<C>>)
    ensures ExecFrom(rules, s, a + b) == ExecFrom(rules, ExecFrom(rules, s, a), b)
    decreases |b|
  {
    if b == [] {
      assert a + b == a;
    } else {
      ExecConcat(rules, s, a, b[..|b| - 1]);
      assert (a + b)[..|a + b| - 1] == a + b[..|b| - 1];
    }
  }

  lemma LeadsOn<S, C, E, A>(rules: Rules<S, C, E, A>, s: Store<S, E, A>, a: seq<Step<C>>, m: Store<S, E, A>, b: seq<Step<C>>, r: Store<S, E, A>)
    requires Leads(rules, s, a, m) && Leads(rules, m, b, r)
    ensures Leads(rules, s, a + b, r)
  {
    ExecConcat(rules, s, a, b);
  }

  lemma LeadsOne<S, C, E, A>(rules: Rules<S, C, E, A>, s: Store<S, E, A>, step: Step<C>)
    ensures Leads(rules, s, [step], Next(rules, s, step))
  {
    assert [step][..0] == [];
  }

  /** A run of handlers after a run is a run of the transition system. */
  lemma LeadsFromRun<S, C, E, A>(rules: Rules<S, C, E, A>, steps: seq<Step<C>>, trace: seq<Step<C>>, r: Store<S, E, A>)
    requires Leads(rules, Exec(rules, steps), trace, r)
    ensures r == Exec(rules, steps + trace)
  {
    ExecIsFrom(rules, steps);
    ExecIsFrom(rules, steps + trace);
    ExecConcat(rules, Empty(), steps, trace);
  }

  lemma {:induction false} ExecIsFrom<S, C, E, A>(rules: Rules<S, C, E, A>, steps: seq<Step<C>>)
    ensures Exec(rules, steps) == ExecFrom(rules, Empty(), steps)
  {
    if steps != [] {
      ExecIsFrom(rules, steps[..|steps| - 1]);
    }
  }

  /** What handlers make of a reachable state is reachable, so every theorem about runs holds of it. */
  lemma ReachableOn<S(!new), C(!new), E(!new), A(!new)>(rules: Rules<S, C, E, A>, s: Store<S, E, A>, trace: seq<Step<C>>, r: Store<S, E, A>)
    requires Reachable(rules, s) && Leads(rules, s, trace, r)
    ensures Reachable(rules, r)
  {
    var steps :| s == Exec(rules, steps);
    LeadsFromRun(rules, steps, trace, r);
  }

  /** The transaction has committed an event. */
  predicate CommittedBy<E>(outbox: seq<Event<E>>, tx: nat) {
    exists i :: 0 <= i < |outbox| && outbox[i].tx == tx
  }

  /** What others leave alone: a transaction, whether it holds the row or has committed, and what is committed while it holds the row. */
  predicate Untouched<S(==), E(==), A(==)>(s: Store<S, E, A>, r: Store<S, E, A>, tx: nat) {
    && tx < |s.txs| <= |r.txs| && r.txs[tx] == s.txs[tx]
    && (r.writer == Some(tx) <==> s.writer == Some(tx))
    && (s.writer == Some(tx) ==> SameCommitted(s, r))
    && |s.history| <= |r.history|
    && (CommittedBy(r.outbox, tx) <==> CommittedBy(s.outbox, tx))
  }

  /** Only the transaction that holds the row can have recorded facts to commit. */
  predicate OnlyWriterCommits<S, E, A>(s: Store<S, E, A>, tx: nat)
    requires tx < |s.txs|
  {
    s.txs[tx].Recorded? ==> s.writer == Some(tx)
  }

  lemma CommittedByMore<E>(outbox: seq<Event<E>>, event: Event<E>, tx: nat)
    ensures CommittedBy(outbox + [event], tx) <==> CommittedBy(outbox, tx) || event.tx == tx
  {
    if CommittedBy(outbox, tx) {
      var i :| 0 <= i < |outbox| && outbox[i].tx == tx;
      assert (outbox + [event])[i].tx == tx;
    }
    assert (outbox + [event])[|outbox|] == event;
  }

  lemma ForeignUntouched<S(!new), C(!new), E(!new), A(!new)>(rules: Rules<S, C, E, A>, s: Store<S, E, A>, step: Step<C>, tx: nat)
    requires tx < |s.txs| && Foreign(step, tx) && (!step.Begin? && step.tx < |s.txs| ==> OnlyWriterCommits(s, step.tx))
    ensures Untouched(s, Next(rules, s, step), tx)
  {
    if step.Commit? && step.tx < |s.txs| && s.txs[step.tx].Recorded? {
      CommittedByMore(s.outbox, Event(s.txs[step.tx].sequence, step.tx, s.txs[step.tx].event), tx);
    }
  }

  lemma ForeignStepKeeps<S(!new), C(!new), E(!new), A(!new)>(rules: Rules<S, C, E, A>, s: Store<S, E, A>, step: Step<C>, tx: nat)
    requires CountsVersions(rules) && Inv(rules, s) && tx < |s.txs| && Foreign(step, tx)
    ensures Untouched(s, Next(rules, s, step), tx) && Inv(rules, Next(rules, s, step))
  {
    if !step.Begin? && step.tx < |s.txs| {
      assert TransactionHolds(rules, s, step.tx);
    }
    ForeignUntouched(rules, s, step, tx);
    InvStep(rules, s, step);
  }

  lemma UntouchedTransitive<S, E, A>(a: Store<S, E, A>, b: Store<S, E, A>, c: Store<S, E, A>, tx: nat)
    requires Untouched(a, b, tx) && Untouched(b, c, tx)
    ensures Untouched(a, c, tx)
  {
  }

  lemma {:induction false} ForeignKeeps<S(!new), C(!new), E(!new), A(!new)>(rules: Rules<S, C, E, A>, s: Store<S, E, A>, steps: seq<Step<C>>, tx: nat)
    requires CountsVersions(rules) && Inv(rules, s) && tx < |s.txs| && AllForeign(steps, tx)
    ensures Untouched(s, ExecFrom(rules, s, steps), tx) && Inv(rules, ExecFrom(rules, s, steps))
  {
    if steps != [] {
      var m := ExecFrom(rules, s, steps[..|steps| - 1]);
      ForeignKeeps(rules, s, steps[..|steps| - 1], tx);
      ForeignStepKeeps(rules, m, steps[|steps| - 1], tx);
      UntouchedTransitive(s, m, ExecFrom(rules, s, steps), tx);
    }
  }

  /** The transaction's decision is the last thing committed: row, fact and event, directly after `before`. */
  predicate CommittedAfter<S(==), E(==), A(==)>(s: Store<S, E, A>, tx: nat, before: Option<S>, d: Decision<S, E, A>) {
    var last := |s.history| - 1;
    && |s.history| == |s.outbox| == |s.audit| && last >= 0
    && s.committed == Some(d.next) == Some(s.history[last]) && Last(s.history[..last]) == before
    && s.outbox[last].tx == tx && s.outbox[last].event == d.event && s.audit[last] == d.fact
  }

  /** The transaction's command is the last change: row, fact and event are what it makes of the snapshot before. */
  predicate AppliedLast<S(==), C, E(==), A(==)>(rules: Rules<S, C, E, A>, s: Store<S, E, A>, tx: nat, command: C) {
    && |s.history| >= 2
    && var before := Some(s.history[|s.history| - 2]);
       rules.apply(before, command).Some? && CommittedAfter(s, tx, before, rules.apply(before, command).value)
  }

  lemma LastTwo<S, C, E, A>(rules: Rules<S, C, E, A>, s: Store<S, E, A>, tx: nat, before: S, command: C)
    requires rules.apply(Some(before), command).Some?
    requires CommittedAfter(s, tx, Some(before), rules.apply(Some(before), command).value)
    ensures AppliedLast(rules, s, tx, command) && s.history[|s.history| - 2] == before
  {
    assert |s.history| >= 2 && s.history[|s.history| - 2] == before;
  }

  datatype Ending = Done | Refused | Conflict | Interrupted | Unacknowledged

  /** The change was committed, whether or not its caller knows. */
  predicate TookEffect(ending: Ending) {
    ending.Done? || ending.Unacknowledged?
  }

  class Row<S(!new, ==), C(!new), E(!new, ==), A(!new, ==)> {
    const rules: Rules<S, C, E, A>
    var committed: Option<S>
    var writer: Option<nat>
    var txs: seq<Transaction<S, E, A>>
    var outbox: seq<Event<E>>
    var audit: seq<A>
    var history: seq<S>
    var nextSequence: nat

    ghost predicate Valid()
      reads this
    {
      CountsVersions(rules) && Reachable(rules, State())
    }

    function State(): Store<S, E, A>
      reads this
    {
      Store(committed, writer, txs, outbox, audit, history, nextSequence)
    }

    constructor (rules: Rules<S, C, E, A>)
      requires CountsVersions(rules)
      ensures Valid() && this.rules == rules && State() == Empty()
    {
      this.rules := rules;
      committed, writer, txs, outbox, audit, history, nextSequence := None, None, [], [], [], [], 0;
      new;
      assert State() == Exec(rules, []);
    }

    method Become(s: Store<S, E, A>)
      modifies this
      ensures State() == s
    {
      committed, writer, txs, outbox := s.committed, s.writer, s.txs, s.outbox;
      audit, history, nextSequence := s.audit, s.history, s.nextSequence;
    }

    /** What everybody else does before this transaction's next statement. */
    method Interfere(tx: nat, steps: seq<Step<C>>)
      requires Valid() && tx < |txs| && AllForeign(steps, tx)
      modifies this
      ensures Valid() && Leads(rules, old(State()), steps, State()) && Untouched(old(State()), State(), tx)
      ensures steps == [] ==> State() == old(State())
    {
      ReachableHolds(rules, State());
      ForeignKeeps(rules, State(), steps, tx);
      ReachableOn(rules, State(), steps, ExecFrom(rules, State(), steps));
      Become(ExecFrom(rules, State(), steps));
    }

    method Begin() returns (tx: nat)
      requires Valid()
      modifies this
      ensures Valid() && tx == |old(txs)| && Leads(rules, old(State()), [Step.Begin], State())
      ensures State() == old(State()).(txs := old(txs) + [Running])
      ensures writer != Some(tx) && !CommittedBy(outbox, tx)
    {
      ReachableHolds(rules, State());
      Stepped(rules, State(), Step.Begin);
      tx := |txs|;
      txs := txs + [Running];
    }

    /** SELECT by key; a missing row ends the transaction. */
    method Load(tx: nat) returns (snapshot: Option<S>)
      requires Valid() && tx < |txs| && txs[tx].Running? && writer != Some(tx)
      modifies this
      ensures Valid() && Leads(rules, old(State()), [Step.Load(tx)], State())
      ensures snapshot == old(committed)
      ensures State() == old(State()).(txs := old(txs)[tx := if snapshot.None? then Closed else Loaded(snapshot.value)])
    {
      Stepped(rules, State(), Step.Load(tx));
      snapshot := committed;
      txs := txs[tx := if snapshot.None? then Closed else Loaded(snapshot.value)];
    }

    method Rollback(tx: nat)
      requires Valid() && tx < |txs| && !txs[tx].Closed?
      modifies this
      ensures Valid() && Leads(rules, old(State()), [Step.Abort(tx)], State())
      ensures SameCommitted(old(State()), State()) && txs == old(txs)[tx := Closed] && writer != Some(tx)
    {
      Stepped(rules, State(), Step.Abort(tx));
      if writer == Some(tx) {
        writer := None;
      }
      txs := txs[tx := Closed];
    }

    /** The command is decided on the snapshot; a refusal ends the transaction. */
    method Decide(tx: nat, command: C) returns (decision: Option<Decision<S, E, A>>)
      requires Valid() && tx < |txs| && txs[tx].Loaded? && writer != Some(tx)
      modifies this
      ensures Valid() && Leads(rules, old(State()), [Step.Decide(tx, command)], State())
      ensures decision == rules.apply(Some(old(txs)[tx].snapshot), command)
      ensures State() == old(State()).(txs := old(txs)[tx :=
        if decision.None? then Closed else Decided(old(txs)[tx].snapshot, decision.value)])
    {
      Stepped(rules, State(), Step.Decide(tx, command));
      decision := rules.apply(Some(txs[tx].snapshot), command);
      txs := txs[tx := if decision.None? then Closed else Decided(txs[tx].snapshot, decision.value)];
    }

    /**
     UPDATE ... WHERE row_version = the version loaded; waits while another transaction holds the row.
     An updated row is the very snapshot loaded.
     */
    method Update(tx: nat) returns (rowCount: nat, waits: bool)
      requires Valid() && tx < |txs| && txs[tx].Decided?
      modifies this
      ensures Valid() && Leads(rules, old(State()), [Step.Update(tx)], State())
      ensures waits == old(writer).Some? && SameCommitted(old(State()), State())
      ensures rowCount == if !waits && old(committed) == Some(old(txs)[tx].snapshot) then 1 else 0
      ensures if waits then txs == old(txs) && writer == old(writer)
              else if rowCount == 1 then txs == old(txs)[tx := Written(old(txs)[tx].decision)] && writer == Some(tx)
              else txs == old(txs)[tx := Closed] && writer.None?
    {
      Stepped(rules, State(), Step.Update(tx));
      if writer.Some? {
        return 0, true;
      }
      DecidedInHistory(rules, State(), tx);
      if committed.None? || rules.version(committed.value) != rules.version(txs[tx].snapshot) {
        txs := txs[tx := Closed];
        return 0, false;
      }
      SameVersionSameSnapshot(rules, State(), txs[tx].snapshot);
      txs, writer := txs[tx := Written(txs[tx].decision)], Some(tx);
      return 1, false;
    }

    /** INSERT: waits while another transaction holds the key; an existing row is a violation that ends the transaction. */
    method Insert(tx: nat, command: C) returns (inserted: bool, waits: bool)
      requires Valid() && tx < |txs| && txs[tx].Running? && rules.apply(None, command).Some?
      modifies this
      ensures Valid() && Leads(rules, old(State()), [Step.Create(tx, command)], State())
      ensures waits == old(writer).Some? && inserted == (!waits && old(committed).None?)
      ensures SameCommitted(old(State()), State())
      ensures if waits then txs == old(txs) && writer == old(writer)
              else if inserted then txs == old(txs)[tx := Written(rules.apply(None, command).value)] && writer == Some(tx)
              else txs == old(txs)[tx := Closed] && writer.None?
    {
      Stepped(rules, State(), Step.Create(tx, command));
      if writer.Some? {
        return false, true;
      }
      if committed.Some? {
        txs := txs[tx := Closed];
        return false, false;
      }
      txs, writer := txs[tx := Written(rules.apply(None, command).value)], Some(tx);
      return true, false;
    }

    /** The audit fact of the decision is appended inside the transaction. */
    method AppendFact(tx: nat)
      requires Valid() && tx < |txs| && txs[tx].Written?
      modifies this
      ensures Valid() && Leads(rules, old(State()), [Step.Audit(tx)], State())
      ensures State() == old(State()).(txs := old(txs)[tx := Audited(old(txs)[tx].decision, old(txs)[tx].decision.fact)])
    {
      Stepped(rules, State(), Step.Audit(tx));
      txs := txs[tx := Audited(txs[tx].decision, txs[tx].decision.fact)];
    }

    /** The event of the decision is appended, taking the next sequence number, inside the transaction. */
    method AppendEvent(tx: nat)
      requires Valid() && tx < |txs| && txs[tx].Audited?
      modifies this
      ensures Valid() && Leads(rules, old(State()), [Step.Append(tx)], State())
      ensures var t := old(txs)[tx];
        State() == old(State()).(
          txs := old(txs)[tx := Recorded(t.decision, t.fact, old(nextSequence), t.decision.event)],
          nextSequence := old(nextSequence) + 1)
    {
      Stepped(rules, State(), Step.Append(tx));
      var t := txs[tx];
      txs := txs[tx := Recorded(t.decision, t.fact, nextSequence, t.decision.event)];
      nextSequence := nextSequence + 1;
    }

    /** Row, fact and event become visible together. */
    method Commit(tx: nat)
      requires Valid() && tx < |txs| && txs[tx].Recorded? && writer == Some(tx)
      modifies this
      ensures Valid() && Leads(rules, old(State()), [Step.Commit(tx)], State())
      ensures var t := old(txs)[tx];
        && history == old(history) + [t.decision.next] && committed == Some(t.decision.next)
        && audit == old(audit) + [t.fact] && outbox == old(outbox) + [Event(t.sequence, tx, t.event)]
      ensures txs == old(txs)[tx := Closed] && writer.None?
    {
      Stepped(rules, State(), Step.Commit(tx));
      var t := txs[tx];
      committed, writer := Some(t.decision.next), None;
      history := history + [t.decision.next];
      audit := audit + [t.fact];
      outbox := outbox + [Event(t.sequence, tx, t.event)];
      txs := txs[tx := Closed];
    }

    /** A transaction begins, others act, and it loads the aggregate. */
    method Open(before: seq<Step<C>>) returns (tx: nat, snapshot: Option<S>, ghost trace: seq<Step<C>>)
      requires Valid() && AllForeign(before, |txs|)
      modifies this
      ensures Valid() && tx == |old(txs)| < |txs| && Leads(rules, old(State()), trace, State())
      ensures writer != Some(tx) && !CommittedBy(outbox, tx)
      ensures txs[tx] == if snapshot.None? then Closed else Loaded(snapshot.value)
      ensures before == [] ==> snapshot == old(committed) == committed && writer == old(writer)
    {
      ghost var start := State();
      tx := Begin();
      ghost var s := State();
      Interfere(tx, before);
      trace := Join(rules, start, [Step.Begin], s, before, State());
      s := State();
      snapshot := Load(tx);
      trace := Join(rules, start, trace, s, [Step.Load(tx)], State());
    }

    /** Others act, then the compare-and-set; a conflict, or a wait that never ends, ends the transaction. */
    method UpdateAmong(tx: nat, before: seq<Step<C>>) returns (ending: Ending, ghost trace: seq<Step<C>>)
      requires Valid() && tx < |txs| && txs[tx].Decided? && writer != Some(tx) && AllForeign(before, tx) && !CommittedBy(outbox, tx)
      modifies this
      ensures Valid() && Leads(rules, old(State()), trace, State()) && tx < |txs| && !CommittedBy(outbox, tx)
      ensures if ending.Done? then txs[tx] == Written(old(txs)[tx].decision) && writer == Some(tx) && committed == Some(old(txs)[tx].snapshot)
              else ending in {Conflict, Interrupted} && txs[tx].Closed? && writer != Some(tx)
      ensures before == [] && old(writer).None? ==> ending == if old(committed) == Some(old(txs)[tx].snapshot) then Done else Conflict
    {
      ghost var start := State();
      Interfere(tx, before);
      ghost var s := State();
      var rowCount, waits := Update(tx);
      trace := Join(rules, start, before, s, [Step.Update(tx)], State());
      if waits {
        s := State();
        Rollback(tx);
        trace := Join(rules, start, trace, s, [Step.Abort(tx)], State());
        return Interrupted, trace;
      }
      ending := if rowCount == 1 then Done else Conflict;
    }

    /** Others act, then the insert; a violation, or a wait that never ends, ends the transaction. */
    method InsertAmong(tx: nat, command: C, before: seq<Step<C>>) returns (ending: Ending, ghost trace: seq<Step<C>>)
      requires Valid() && tx < |txs| && txs[tx].Running? && writer != Some(tx) && rules.apply(None, command).Some?
      requires AllForeign(before, tx) && !CommittedBy(outbox, tx)
      modifies this
      ensures Valid() && Leads(rules, old(State()), trace, State()) && tx < |txs| && !CommittedBy(outbox, tx)
      ensures if ending.Done? then txs[tx] == Written(rules.apply(None, command).value) && writer == Some(tx) && committed.None?
              else ending in {Conflict, Interrupted} && txs[tx].Closed? && writer != Some(tx)
      ensures before == [] && old(writer).None? ==> ending == if old(committed).None? then Done else Conflict
    {
      ghost var start := State();
      Interfere(tx, before);
      ghost var s := State();
      var inserted, waits := Insert(tx, command);
      trace := Join(rules, start, before, s, [Step.Create(tx, command)], State());
      if waits {
        s := State();
        Rollback(tx);
        trace := Join(rules, start, trace, s, [Step.Abort(tx)], State());
        return Interrupted, trace;
      }
      ending := if inserted then Done else Conflict;
    }

    /** Fact and event are appended, others acting before each; either append may fail, which ends the transaction. */
    method RecordAmong(tx: nat, around: Surroundings<C>) returns (ending: Ending, ghost trace: seq<Step<C>>)
      requires Valid() && tx < |txs| && txs[tx].Written? && writer == Some(tx) && SurroundedByOthers(around, tx)
      modifies this
      ensures Valid() && Leads(rules, old(State()), trace, State()) && SameCommitted(old(State()), State()) && tx < |txs|
      ensures var d := old(txs)[tx].decision;
        if around.auditFails || around.appendFails then ending.Interrupted? && txs[tx].Closed? && writer != Some(tx)
        else ending.Done? && writer == Some(tx) && txs[tx].Recorded? && txs[tx] == Recorded(d, d.fact, txs[tx].sequence, d.event)
    {
      ghost var start := State();
      Interfere(tx, around.beforeAudit);
      ghost var s := State();
      if around.auditFails {
        Rollback(tx);
        trace := Join(rules, start, around.beforeAudit, s, [Step.Abort(tx)], State());
        return Interrupted, trace;
      }
      AppendFact(tx);
      trace := Join(rules, start, around.beforeAudit, s, [Step.Audit(tx)], State());
      s := State();
      ghost var more;
      ending, more := AppendAmong(tx, around.beforeAppend, around.appendFails);
      trace := Join(rules, start, trace, s, more, State());
    }

    method AppendAmong(tx: nat, before: seq<Step<C>>, fails: bool) returns (ending: Ending, ghost trace: seq<Step<C>>)
      requires Valid() && tx < |txs| && txs[tx].Audited? && writer == Some(tx) && AllForeign(before, tx)
      modifies this
      ensures Valid() && Leads(rules, old(State()), trace, State()) && SameCommitted(old(State()), State()) && tx < |txs|
      ensures var t := old(txs)[tx];
        if fails then ending.Interrupted? && txs[tx].Closed? && writer != Some(tx)
        else ending.Done? && writer == Some(tx) && txs[tx].Recorded?
             && txs[tx] == Recorded(t.decision, t.fact, txs[tx].sequence, t.decision.event)
    {
      ghost var start := State();
      Interfere(tx, before);
      ghost var s := State();
      if fails {
        Rollback(tx);
        trace := Join(rules, start, before, s, [Step.Abort(tx)], State());
        return Interrupted, trace;
      }
      AppendEvent(tx);
      trace := Join(rules, start, before, s, [Step.Append(tx)], State());
      ending := Done;
    }

    /** Others act, then the transaction commits or fails to, or commits while its caller is told that it failed. */
    method CommitAmong(tx: nat, before: seq<Step<C>>, fate: CommitFate, ghost d: Decision<S, E, A>)
      returns (ending: Ending, ghost trace: seq<Step<C>>)
      requires Valid() && tx < |txs| && writer == Some(tx) && AllForeign(before, tx) && !CommittedBy(outbox, tx)
      requires txs[tx].Recorded? && txs[tx] == Recorded(d, d.fact, txs[tx].sequence, d.event)
      modifies this
      ensures Valid() && Leads(rules, old(State()), trace, State()) && tx < |txs| && txs[tx].Closed? && writer != Some(tx)
      ensures ending == match fate case Durable => Done case DurableUnacknowledged => Unacknowledged case NotDurable => Interrupted
      ensures CommittedBy(outbox, tx) <==> TookEffect(ending)
      ensures TookEffect(ending) ==> CommittedAfter(State(), tx, old(committed), d)
      ensures !TookEffect(ending) ==> SameCommitted(old(State()), State())
    {
      ghost var start := State();
      Interfere(tx, before);
      ghost var s := State();
      if fate.NotDurable? {
        Rollback(tx);
        trace := Join(rules, start, before, s, [Step.Abort(tx)], State());
        return Interrupted, trace;
      }
      LastIsCommitted(rules, s);
      Commit(tx);
      CommittedByMore(s.outbox, outbox[|outbox| - 1], tx);
      assert history[..|history| - 1] == s.history;
      trace := Join(rules, start, before, s, [Step.Commit(tx)], State());
      ending := if fate.Durable? then Done else Unacknowledged;
    }

    /** Records and commits a written decision. */
    method Complete(tx: nat, around: Surroundings<C>) returns (ending: Ending, ghost trace: seq<Step<C>>)
      requires Valid() && tx < |txs| && txs[tx].Written? && writer == Some(tx) && SurroundedByOthers(around, tx) && !CommittedBy(outbox, tx)
      modifies this
      ensures Valid() && Leads(rules, old(State()), trace, State()) && tx < |txs| && txs[tx].Closed? && writer != Some(tx)
      ensures ending == Fate(around)
      ensures CommittedBy(outbox, tx) <==> TookEffect(ending)
      ensures TookEffect(ending) ==> CommittedAfter(State(), tx, old(committed), old(txs)[tx].decision)
    {
      ghost var start, more, d := State(), [], txs[tx].decision;
      ending, trace := RecordAmong(tx, around);
      if !ending.Done? {
        return;
      }
      ghost var s := State();
      ending, more := CommitAmong(tx, around.beforeCommit, around.fate, d);
      trace := Join(rules, start, trace, s, more, State());
    }

    /** Update, record and commit a decided transaction: a change that takes effect follows directly on the snapshot it was decided on. */
    method Finish(tx: nat, around: Surroundings<C>) returns (ending: Ending, ghost trace: seq<Step<C>>)
      requires Valid() && tx < |txs| && txs[tx].Decided? && writer != Some(tx) && SurroundedByOthers(around, tx) && !CommittedBy(outbox, tx)
      modifies this
      ensures Valid() && Leads(rules, old(State()), trace, State()) && tx < |txs| && txs[tx].Closed? && writer != Some(tx)
      ensures CommittedBy(outbox, tx) <==> TookEffect(ending)
      ensures TookEffect(ending) ==> CommittedAfter(State(), tx, Some(old(txs)[tx].snapshot), old(txs)[tx].decision)
      ensures !ending.Refused?
      ensures around.beforeUpdate == [] && old(writer).None? && old(committed) == Some(old(txs)[tx].snapshot) ==> ending == Fate(around)
    {
      ghost var start, more := State(), [];
      ending, trace := UpdateAmong(tx, around.beforeUpdate);
      if !ending.Done? {
        return;
      }
      ghost var s := State();
      ending, more := Complete(tx, around);
      trace := Join(rules, start, trace, s, more, State());
    }

    /** Decides a command on the snapshot loaded; unless it is refused, finishes with what it makes of that snapshot. */
    method Settle(tx: nat, command: C, around: Surroundings<C>) returns (ending: Ending, ghost trace: seq<Step<C>>)
      requires Valid() && tx < |txs| && txs[tx].Loaded? && writer != Some(tx) && SurroundedByOthers(around, tx) && !CommittedBy(outbox, tx)
      modifies this
      ensures Valid() && Leads(rules, old(State()), trace, State())
      ensures CommittedBy(outbox, tx) <==> TookEffect(ending)
      ensures TookEffect(ending) ==>
        AppliedLast(rules, State(), tx, command) && history[|history| - 2] == old(txs)[tx].snapshot
      ensures ending.Refused? <==> rules.apply(Some(old(txs)[tx].snapshot), command).None?
      ensures around.beforeUpdate == [] && old(writer).None? && old(committed) == Some(old(txs)[tx].snapshot) && !ending.Refused? ==>
        ending == Fate(around)
    {
      ghost var start, more := State(), [];
      var snapshot := txs[tx].snapshot;
      var decision := Decide(tx, command);
      trace := [Step.Decide(tx, command)];
      if decision.None? {
        return Refused, trace;
      }
      ghost var s := State();
      ending, more := Finish(tx, around);
      trace := Join(rules, start, trace, s, more, State());
      if TookEffect(ending) {
        LastTwo(rules, State(), tx, snapshot, command);
      }
    }

    /** A transaction that creates the aggregate: insert, record, commit; a creation that takes effect is the whole history. */
    method Create(command: C, around: Surroundings<C>) returns (ending: Ending, ghost trace: seq<Step<C>>)
      requires Valid() && rules.apply(None, command).Some? && SurroundedByOthers(around, |txs|)
      modifies this
      ensures Valid() && Leads(rules, old(State()), trace, State())
      ensures |old(txs)| < |txs| && txs[|old(txs)|].Closed? && writer != Some(|old(txs)|)
      ensures CommittedBy(outbox, |old(txs)|) <==> TookEffect(ending)
      ensures TookEffect(ending) ==> CommittedAfter(State(), |old(txs)|, None, rules.apply(None, command).value) && |history| == 1
      ensures !ending.Refused?
      ensures around.beforeUpdate == [] && old(writer).None? ==> ending == if old(committed).None? then Fate(around) else Conflict
    {
      ghost var start, more := State(), [];
      var tx := Begin();
      ghost var s := State();
      ending, more := InsertAmong(tx, command, around.beforeUpdate);
      trace := Join(rules, start, [Step.Begin], s, more, State());
      if !ending.Done? {
        return;
      }
      s := State();
      ending, more := Complete(tx, around);
      trace := Join(rules, start, trace, s, more, State());
    }
  }

  lemma LastIsCommitted<S(!new), C(!new), E(!new), A(!new)>(rules: Rules<S, C, E, A>, s: Store<S, E, A>)
    requires CountsVersions(rules) && Reachable(rules, s)
    ensures s.committed == Last(s.history) && |s.history| == |s.outbox| == |s.audit|
  {
    ReachableHolds(rules, s);
  }

  /** Others' steps before each statement of a handler, whether its appends fail, and what becomes of its commit. */
  datatype Surroundings<C> = Surroundings(
    beforeLoad: seq<Step<C>>,
    beforeUpdate: seq<Step<C>>,
    beforeAudit: seq<Step<C>>,
    auditFails: bool,
    beforeAppend: seq<Step<C>>,
    appendFails: bool,
    beforeCommit: seq<Step<C>>,
    fate: CommitFate)

  /** How a transaction that has written the row ends. */
  function Fate<C>(around: Surroundings<C>): Ending {
    if around.auditFails || around.appendFails then Interrupted
    else
      match around.fate
      case Durable => Done
      case DurableUnacknowledged => Unacknowledged
      case NotDurable => Interrupted
  }

  /** Nobody else gets in between, nobody holds the row, and appends and commit go through. */
  predicate Undisturbed<C>(around: Surroundings<C>, writer: Option<nat>) {
    around.beforeLoad == [] && around.beforeUpdate == [] && Fate(around).Done? && writer.None?
  }

  predicate SurroundedByOthers<C>(around: Surroundings<C>, tx: nat) {
    && AllForeign(around.beforeLoad, tx) && AllForeign(around.beforeUpdate, tx) && AllForeign(around.beforeAudit, tx)
    && AllForeign(around.beforeAppend, tx) && AllForeign(around.beforeCommit, tx)
  }

  lemma Stepped<S(!new), C(!new), E(!new), A(!new)>(rules: Rules<S, C, E, A>, s: Store<S, E, A>, step: Step<C>)
    requires Reachable(rules, s)
    ensures Reachable(rules, Next(rules, s, step)) && Leads(rules, s, [step], Next(rules, s, step))
  {
    LeadsOne(rules, s, step);
    ReachableOn(rules, s, [step], Next(rules, s, step));
  }

  lemma DecidedInHistory<S(!new), C(!new), E(!new), A(!new)>(rules: Rules<S, C, E, A>, s: Store<S, E, A>, tx: nat)
    requires CountsVersions(rules) && Reachable(rules, s) && tx < |s.txs| && s.txs[tx].Decided?
    ensures Inv(rules, s) && InHistory(rules, s.history, s.txs[tx].snapshot)
  {
    ReachableHolds(rules, s);
    assert TransactionHolds(rules, s, tx);
  }

  lemma Join<S, C, E, A>(rules: Rules<S, C, E, A>, s: Store<S, E, A>, a: seq<Step<C>>, m: Store<S, E, A>, b: seq<Step<C>>, r: Store<S, E, A>)
    returns (joined: seq<Step<C>>)
    requires Leads(rules, s, a, m) && Leads(rules, m, b, r)
    ensures joined == a + b && Leads(rules, s, joined, r)
  {
    joined := a + b;
    LeadsOn(rules, s, a, m, b, r);
  }
}
