/**
 The idempotency store and the executor that claims, works and completes in one transaction, as the
 classes they are. What other transactions do meanwhile is handed to the methods as data.
 */
module IdempotentExecutor {
  import opened Wrappers
  import opened Ordering
  import opened Idempotency

  datatype ClaimResult = Granted | Existing(record: Record) | Failed

  /** What meets one execution: others' steps before its statements, the result of its work, and what becomes of its commit. */
  datatype Surroundings = Surroundings(
    beforeInsert: seq<Step>,
    beforeReplace: seq<Step>,
    beforeRead: seq<Step>,
    work: Option<Response>,
    beforeComplete: seq<Step>,
    beforeCommit: seq<Step>,
    fate: CommitFate)

  /** What one execution comes to; its caller sees an error for a failure as well as for a commit that was never acknowledged. */
  datatype Outcome =
    | Success(response: Response, replayed: bool)
    | KeyReused
    | StillInProgress
    | Failure
    | Unacknowledged(response: Response)

  /** The work was done and committed, whether or not the caller knows. */
  predicate Executes(outcome: Outcome) {
    (outcome.Success? && !outcome.replayed) || outcome.Unacknowledged?
  }

  /** What a commit makes of the response. */
  function Fated(response: Response, fate: CommitFate): Outcome {
    match fate
    case Durable => Success(response, false)
    case DurableUnacknowledged => Unacknowledged(response)
    case NotDurable => Failure
  }

  /** The step belongs to another transaction. */
  predicate Foreign(step: Step, tx: nat) {
    step.Begin? || step.tx != tx
  }

  predicate AllForeign(steps: seq<Step>, tx: nat) {
    forall i :: 0 <= i < |steps| ==> Foreign(steps[i], tx)
  }

  /** Nobody else gets in between, and nobody holds the row. */
  predicate Undisturbed(around: Surroundings, pending: Option<Pending>) {
    around.beforeInsert == [] && around.beforeReplace == [] && around.beforeRead == [] && pending.None?
  }

  /** What a claim leads to. */
  function Conclusion(claim: ClaimResult, hash: Text, around: Surroundings): Outcome {
    match claim
    case Failed => Failure
    case Granted => if around.work.Some? && Storable(around.work.value) then Fated(around.work.value, around.fate) else Failure
    case Existing(record) =>
      if record.hash != hash then KeyReused
      else if record.response.None? then StillInProgress
      else Success(record.response.value, true)
  }

  /** What an undisturbed execution returns, by the committed record alone. */
  function ExpectedOutcome(committed: Option<Record>, now: int, hash: Text, around: Surroundings): Outcome {
    Conclusion(if committed.None? || committed.value.expiresAt <= now then Granted else Existing(committed.value), hash, around)
  }

  predicate SurroundedByOthers(around: Surroundings, tx: nat) {
    && AllForeign(around.beforeInsert, tx) && AllForeign(around.beforeReplace, tx) && AllForeign(around.beforeRead, tx)
    && AllForeign(around.beforeComplete, tx) && AllForeign(around.beforeCommit, tx)
  }

  /** The row written by a transaction, if it holds it. */
  function Written(s: Store, tx: nat): Option<Record> {
    if s.pending.Some? && s.pending.value.tx == tx then Some(s.pending.value.record) else None
  }

  /** The facts a transaction contributed to the log. */
  function FactsOf(log: seq<Fact>, tx: nat): seq<Fact> {
    if log == [] then []
    else FactsOf(log[..|log| - 1], tx) + if log[|log| - 1].tx == tx then [log[|log| - 1]] else []
  }

  lemma FactsOfMore(log: seq<Fact>, fact: Fact, tx: nat)
    ensures FactsOf(log + [fact], tx) == FactsOf(log, tx) + if fact.tx == tx then [fact] else []
  {
    assert (log + [fact])[..|log|] == log;
  }

  lemma ForeignStepKeeps(s: Store, retention: nat, step: Step, tx: nat)
    requires tx < |s.txs| && Foreign(step, tx)
    ensures var r := Next(s, retention, step);
      tx < |r.txs| && r.txs[tx] == s.txs[tx] && (Written(s, tx).Some? ==> Written(r, tx) == Written(s, tx))
    ensures Written(s, tx).None? ==> Written(Next(s, retention, step), tx).None?
    ensures FactsOf(Next(s, retention, step).log, tx) == FactsOf(s.log, tx)
  {
    var r := Next(s, retention, step);
    if r.log != s.log {
      FactsOfMore(s.log, r.log[|s.log|], tx);
    }
  }

  /** Others neither move a transaction nor touch the row while it holds it. */
  lemma {:induction false} ForeignKeeps(s: Store, retention: nat, steps: seq<Step>, tx: nat)
    requires tx < |s.txs| && AllForeign(steps, tx)
    ensures Untouched(s, Exec(s, retention, steps), tx)
  {
    if steps != [] {
      ForeignKeeps(s, retention, steps[..|steps| - 1], tx);
      ForeignStepKeeps(Exec(s, retention, steps[..|steps| - 1]), retention, steps[|steps| - 1], tx);
    }
  }

  lemma {:induction false} ExecConcat(s: Store, retention: nat, a: seq<Step>, b: seq<Step>)
    ensures Exec(s, retention, a + b) == Exec(Exec(s, retention, a), retention, b)
    decreases |b|
  {
    if b == [] {
      assert a + b == a;
    } else {
      ExecConcat(s, retention, a, b[..|b| - 1]);
      assert (a + b)[..|a + b| - 1] == a + b[..|b| - 1];
    }
  }

  lemma ExecOne(s: Store, retention: nat, step: Step)
    ensures Exec(s, retention, [step]) == Next(s, retention, step)
  {
    assert [step][..0] == [];
  }

  /** A run that continues an earlier one. */
  ghost predicate Continues(s: Store, retention: nat, trace: seq<Step>, r: Store) {
    r == Exec(s, retention, trace)
  }

  lemma ContinuesOn(s: Store, retention: nat, a: seq<Step>, m: Store, b: seq<Step>, r: Store)
    requires Continues(s, retention, a, m) && Continues(m, retention, b, r)
    ensures Continues(s, retention, a + b, r)
  {
    ExecConcat(s, retention, a, b);
  }

  /** What others leave alone: a transaction, the row it wrote, and the facts it contributed. */
  predicate Untouched(s: Store, r: Store, tx: nat) {
    && tx < |s.txs| && tx < |r.txs| && r.txs[tx] == s.txs[tx]
    && Written(r, tx) == Written(s, tx) && FactsOf(r.log, tx) == FactsOf(s.log, tx)
  }

  class KeyStore {
    const retention: nat
    var committed: Option<Record>
    var pending: Option<Pending>
    var txs: seq<Transaction>
    var log: seq<Fact>

    constructor (retention: nat)
      ensures this.retention == retention && State() == EMPTY
    {
      this.retention := retention;
      committed, pending, txs, log := None, None, [], [];
    }

    function State(): Store
      reads this
    {
      Store(committed, pending, txs, log)
    }

    /** What everybody else does before this transaction's next statement. */
    method Interfere(tx: nat, steps: seq<Step>)
      requires tx < |txs| && AllForeign(steps, tx)
      modifies this
      ensures Continues(old(State()), retention, steps, State())
      ensures Untouched(old(State()), State(), tx)
      ensures steps == [] ==> State() == old(State())
    {
      ForeignKeeps(State(), retention, steps, tx);
      Become(Exec(State(), retention, steps));
    }

    method Become(s: Store)
      modifies this
      ensures State() == s
    {
      committed, pending, txs, log := s.committed, s.pending, s.txs, s.log;
    }

    method Begin(now: int, hash: Text) returns (tx: nat)
      modifies this
      ensures tx == |old(txs)| && State() == Next(old(State()), retention, Step.Begin(now, hash))
    {
      tx := |txs|;
      txs := txs + [Transaction(now, hash, Running)];
    }

    /** Writes the row as being processed; the lock is this transaction's until it ends. */
    method WriteClaim(tx: nat)
      requires tx < |txs|
      modifies this
      ensures State() == Idempotency.Claim(old(State()), tx, retention)
    {
      var t := txs[tx];
      pending := Some(Pending(tx, Record(t.hash, None, t.now, t.now + retention)));
      txs := txs[tx := t.(phase := Claimed)];
    }

    /** INSERT ... ON CONFLICT DO NOTHING: waits for a concurrent writer; a wait that never ends is an error. */
    method Insert(tx: nat) returns (rowCount: nat, waited: bool)
      requires tx < |txs| && txs[tx].phase.Running?
      modifies this
      ensures Continues(old(State()), retention, [Step.Insert(tx)], State())
      ensures waited == old(pending).Some? && rowCount == if !waited && old(committed).None? then 1 else 0
      ensures State() == if waited then old(State()) else if rowCount == 1 then Idempotency.Claim(old(State()), tx, retention)
                         else SetPhase(old(State()), tx, Conflicted)
    {
      ExecOne(State(), retention, Step.Insert(tx));
      if pending.Some? {
        return 0, true;
      }
      if committed.None? {
        WriteClaim(tx);
        return 1, false;
      }
      txs := txs[tx := txs[tx].(phase := Conflicted)];
      return 0, false;
    }

    /** UPDATE ... WHERE expires_at <= now: locks the row, so it waits as well. */
    method Replace(tx: nat) returns (rowCount: nat, waited: bool)
      requires tx < |txs| && txs[tx].phase.Conflicted?
      modifies this
      ensures Continues(old(State()), retention, [Step.Replace(tx)], State())
      ensures waited == old(pending).Some?
      ensures rowCount == if !waited && old(committed).Some? && old(committed).value.expiresAt <= old(txs)[tx].now then 1 else 0
      ensures State() == if waited then old(State()) else if rowCount == 1 then Idempotency.Claim(old(State()), tx, retention)
                         else SetPhase(old(State()), tx, Kept)
    {
      ExecOne(State(), retention, Step.Replace(tx));
      if pending.Some? {
        return 0, true;
      }
      if committed.Some? && committed.value.expiresAt <= txs[tx].now {
        WriteClaim(tx);
        return 1, false;
      }
      txs := txs[tx := txs[tx].(phase := Kept)];
      return 0, false;
    }

    /** SELECT: the committed row, without waiting. */
    method Read(tx: nat) returns (row: Option<Record>)
      requires tx < |txs| && txs[tx].phase.Kept?
      modifies this
      ensures row == old(committed) && State() == Next(old(State()), retention, Step.Read(tx))
    {
      row := committed;
      if row.None? {
        Become(Rollback(State(), tx));
      } else {
        txs := txs[tx := txs[tx].(phase := Found(row.value, |log|))];
      }
    }

    method Abort(tx: nat)
      requires tx < |txs| && !txs[tx].phase.Closed?
      modifies this
      ensures Continues(old(State()), retention, [Step.Abort(tx)], State())
      ensures State() == Rollback(old(State()), tx)
    {
      ExecOne(State(), retention, Step.Abort(tx));
      if pending.Some? && pending.value.tx == tx {
        pending := None;
      }
      txs := txs[tx := txs[tx].(phase := Closed)];
    }

    /** Others act, then the insert; a wait that never ends is an error that ends the transaction. */
    method InsertAmong(tx: nat, before: seq<Step>) returns (progress: Progress, ghost trace: seq<Step>)
      requires tx < |txs| && txs[tx].phase.Running? && AllForeign(before, tx) && Written(State(), tx).None?
      modifies this
      ensures Continues(old(State()), retention, trace, State())
      ensures Advanced(old(State()), State(), tx, progress, Conflicted, retention)
      ensures before == [] && old(pending).None? ==>
        progress == (if old(committed).None? then Claims else GoesOn) && committed == old(committed) && (progress.GoesOn? ==> pending.None?)
    {
      ghost var start := State();
      Interfere(tx, before);
      ghost var s := State();
      var rowCount, waited := Insert(tx);
      trace := Join(start, retention, before, s, [Step.Insert(tx)], State());
      if waited {
        s := State();
        Abort(tx);
        trace := Join(start, retention, trace, s, [Step.Abort(tx)], State());
        return Stopped, trace;
      }
      progress := if rowCount == 1 then Claims else GoesOn;
    }

    method ReplaceAmong(tx: nat, before: seq<Step>) returns (progress: Progress, ghost trace: seq<Step>)
      requires tx < |txs| && txs[tx].phase.Conflicted? && AllForeign(before, tx) && Written(State(), tx).None?
      modifies this
      ensures Continues(old(State()), retention, trace, State())
      ensures Advanced(old(State()), State(), tx, progress, Kept, retention)
      ensures before == [] && old(pending).None? && old(committed).Some? ==>
        progress == (if old(committed).value.expiresAt <= old(txs)[tx].now then Claims else GoesOn) && committed == old(committed)
    {
      ghost var start := State();
      Interfere(tx, before);
      ghost var s := State();
      var rowCount, waited := Replace(tx);
      trace := Join(start, retention, before, s, [Step.Replace(tx)], State());
      if waited {
        s := State();
        Abort(tx);
        trace := Join(start, retention, trace, s, [Step.Abort(tx)], State());
        return Stopped, trace;
      }
      progress := if rowCount == 1 then Claims else GoesOn;
    }

    method ReadAmong(tx: nat, before: seq<Step>) returns (row: Option<Record>, ghost trace: seq<Step>)
      requires tx < |txs| && txs[tx].phase.Kept? && AllForeign(before, tx) && Written(State(), tx).None?
      modifies this
      ensures Continues(old(State()), retention, trace, State())
      ensures SameRequest(old(State()), State(), tx) && Written(State(), tx).None?
      ensures row.Some? ==> txs[tx].phase.Found? && txs[tx].phase.record == row.value
      ensures row.None? ==> txs[tx].phase.Closed?
      ensures before == [] ==> row == old(committed)
    {
      ghost var start := State();
      Interfere(tx, before);
      ghost var s := State();
      row := Read(tx);
      trace := Extend(start, retention, before, s, Step.Read(tx), State());
    }

    /** Insert, else replace an expired record, else read the existing one. */
    method Claim(tx: nat, around: Surroundings) returns (result: ClaimResult, ghost trace: seq<Step>)
      requires tx < |txs| && txs[tx].phase.Running? && SurroundedByOthers(around, tx) && Written(State(), tx).None?
      modifies this
      ensures Continues(old(State()), retention, trace, State())
      ensures SameRequest(old(State()), State(), tx)
      ensures result.Granted? ==> Claimant(State(), tx, retention)
      ensures result.Existing? ==> txs[tx].phase.Found? && txs[tx].phase.record == result.record && Written(State(), tx).None?
      ensures result.Failed? ==> txs[tx].phase.Closed? && Written(State(), tx).None?
      ensures Undisturbed(around, old(pending)) ==>
        result == if old(committed).None? || old(committed).value.expiresAt <= old(txs)[tx].now then Granted else Existing(old(committed).value)
    {
      ghost var start, more := State(), [];
      var progress;
      progress, trace := InsertAmong(tx, around.beforeInsert);
      if !progress.GoesOn? {
        return if progress.Claims? then Granted else Failed, trace;
      }
      ghost var s := State();
      progress, more := ReplaceAmong(tx, around.beforeReplace);
      ContinuesOn(start, retention, trace, s, more, State());
      trace := trace + more;
      if !progress.GoesOn? {
        return if progress.Claims? then Granted else Failed, trace;
      }
      s := State();
      var row;
      row, more := ReadAmong(tx, around.beforeRead);
      ContinuesOn(start, retention, trace, s, more, State());
      trace := trace + more;
      result := if row.Some? then Existing(row.value) else Failed;
    }

    /** The work and the checks on its response: a status code of HTTP and a body of plain JSON, or rollback. */
    method FinishWork(tx: nat, result: Option<Response>) returns (ok: bool)
      requires tx < |txs| && txs[tx].phase.Claimed?
      modifies this
      ensures State() == Next(old(State()), retention, Step.Work(tx, result))
      ensures ok == (result.Some? && Storable(result.value))
    {
      ok := result.Some? && ValidResponse(result.value);
      if result.Some? {
        StorableResponses(result.value);
      }
      if ok {
        txs := txs[tx := txs[tx].(phase := Worked(result.value))];
      } else {
        Abort(tx);
      }
    }

    /** UPDATE ... WHERE status = 'processing', in the claiming transaction. */
    method Complete(tx: nat) returns (rowCount: nat)
      requires tx < |txs| && txs[tx].phase.Worked?
      modifies this
      ensures State() == Next(old(State()), retention, Step.Complete(tx))
      ensures rowCount == if OwnsProcessing(old(State()), tx) then 1 else 0
    {
      if !OwnsProcessing(State(), tx) {
        Abort(tx);
        return 0;
      }
      pending := Some(pending.value.(record := pending.value.record.(response := Some(txs[tx].phase.response))));
      txs := txs[tx := txs[tx].(phase := Completed)];
      rowCount := 1;
    }

    method Commit(tx: nat)
      requires tx < |txs| && txs[tx].phase.Completed? && Written(State(), tx).Some? && Written(State(), tx).value.response.Some?
      modifies this
      ensures State() == Next(old(State()), retention, Step.Commit(tx))
    {
      log := log + [Executed(tx, txs[tx].now, txs[tx].hash, pending.value.record.response.value)];
      committed, pending := Some(pending.value.record), None;
      txs := txs[tx := txs[tx].(phase := Closed)];
    }

    /** Others act, then completion; the row is still this transaction's and still being processed. */
    method CompleteAmong(tx: nat, before: seq<Step>) returns (ghost trace: seq<Step>)
      requires tx < |txs| && txs[tx].phase.Worked? && AllForeign(before, tx)
      requires Written(State(), tx) == Some(ClaimedRow(txs[tx], retention))
      modifies this
      ensures Continues(old(State()), retention, trace, State())
      ensures SameRequest(old(State()), State(), tx) && ReadyToCommit(State(), tx, retention, old(txs)[tx].phase.response)
    {
      ghost var start := State();
      Interfere(tx, before);
      ghost var s := State();
      var rowCount := Complete(tx);
      assert rowCount == 1;
      trace := Extend(start, retention, before, s, Step.Complete(tx), State());
    }

    /** Others act, then the transaction commits or fails to, or commits while its caller is told that it failed. */
    method CommitAmong(tx: nat, before: seq<Step>, fate: CommitFate, response: Response)
      returns (outcome: Outcome, ghost trace: seq<Step>)
      requires ReadyToCommit(State(), tx, retention, response) && AllForeign(before, tx)
      modifies this
      ensures Continues(old(State()), retention, trace, State())
      ensures Settled(old(State()), State(), tx, outcome)
      ensures outcome == Fated(response, fate)
      ensures Executes(outcome) ==> Stores(State(), old(txs)[tx], retention, response)
    {
      ghost var start := State();
      Interfere(tx, before);
      ghost var s := State();
      if fate.NotDurable? {
        Abort(tx);
        trace := Join(start, retention, before, s, [Step.Abort(tx)], State());
        return Failure, trace;
      }
      Commit(tx);
      trace := Extend(start, retention, before, s, Step.Commit(tx), State());
      FactsOfMore(s.log, State().log[|s.log|], tx);
      outcome := Fated(response, fate);
    }

    /** Work, complete and commit for a transaction that holds the row. */
    method WorkAndCommit(tx: nat, around: Surroundings) returns (outcome: Outcome, ghost trace: seq<Step>)
      requires Claimant(State(), tx, retention) && SurroundedByOthers(around, tx)
      modifies this
      ensures Continues(old(State()), retention, trace, State())
      ensures Settled(old(State()), State(), tx, outcome)
      ensures outcome == if around.work.Some? && Storable(around.work.value) then Fated(around.work.value, around.fate) else Failure
      ensures Executes(outcome) ==> Stores(State(), old(txs)[tx], retention, outcome.response)
    {
      ghost var start, more := State(), [];
      if around.work.Some? {
        StorableResponses(around.work.value);
      }
      var ok := FinishWork(tx, around.work);
      ExecOne(start, retention, Step.Work(tx, around.work));
      trace := [Step.Work(tx, around.work)];
      if !ok {
        return Failure, trace;
      }
      ghost var s := State();
      more := CompleteAmong(tx, around.beforeComplete);
      ContinuesOn(start, retention, trace, s, more, State());
      trace := trace + more;
      s := State();
      outcome, more := CommitAmong(tx, around.beforeCommit, around.fate, around.work.value);
      ContinuesOn(start, retention, trace, s, more, State());
      trace := trace + more;
    }

    /** What the caller is told when a record was found; nothing is written. */
    method AnswerFound(tx: nat) returns (outcome: Outcome, ghost trace: seq<Step>)
      requires tx < |txs| && txs[tx].phase.Found?
      modifies this
      ensures Continues(old(State()), retention, trace, State())
      ensures Settled(old(State()), State(), tx, outcome)
      ensures committed == old(committed)
      ensures outcome == var record := old(txs)[tx].phase.record;
        if record.hash != old(txs)[tx].hash then KeyReused
        else if record.response.None? then StillInProgress
        else Success(record.response.value, true)
    {
      ghost var start := State();
      var t := txs[tx];
      var record := t.phase.record;
      if record.hash != t.hash {
        outcome := KeyReused;
      } else if record.response.None? {
        outcome := StillInProgress;
      } else {
        outcome := Success(record.response.value, true);
      }
      ghost var fact := AnswerFact(tx, t);
      Become(Next(State(), retention, Step.Answer(tx)));
      ExecOne(start, retention, Step.Answer(tx));
      trace := [Step.Answer(tx)];
      FactsOfMore(start.log, fact, tx);
    }

    /** What follows on a claim: the work, the answer from the record found, or nothing. */
    method Conclude(tx: nat, claim: ClaimResult, around: Surroundings) returns (outcome: Outcome, ghost trace: seq<Step>)
      requires ClaimStands(State(), tx, retention, claim) && SurroundedByOthers(around, tx)
      modifies this
      ensures Continues(old(State()), retention, trace, State())
      ensures Settled(old(State()), State(), tx, outcome)
      ensures outcome == Conclusion(claim, old(txs)[tx].hash, around)
      ensures Executes(outcome) ==>
        around.work == Some(outcome.response) && Stores(State(), old(txs)[tx], retention, outcome.response)
    {
      match claim {
        case Failed =>
          outcome, trace := Failure, [];
        case Existing(_) =>
          outcome, trace := AnswerFound(tx);
        case Granted =>
          outcome, trace := WorkAndCommit(tx, around);
      }
    }
  }

  /** What a transaction has in hand after its claim. */
  predicate ClaimStands(s: Store, tx: nat, retention: nat, claim: ClaimResult) {
    && tx < |s.txs|
    && match claim
       case Granted => Claimant(s, tx, retention)
       case Existing(record) => s.txs[tx].phase.Found? && s.txs[tx].phase.record == record && Written(s, tx).None?
       case Failed => s.txs[tx].phase.Closed? && Written(s, tx).None?
  }

  /** One idempotent execution, after the request was checked, hashed and authorized. */
  class Executor {
    const store: KeyStore

    constructor (store: KeyStore)
      ensures this.store == store
    {
      this.store := store;
    }

    method Execute(now: int, hash: Text, around: Surroundings) returns (outcome: Outcome, ghost trace: seq<Step>)
      requires SurroundedByOthers(around, |store.txs|) && Written(store.State(), |store.txs|).None?
      modifies store
      ensures Continues(old(store.State()), store.retention, trace, store.State())
      ensures |old(store.txs)| < |store.txs| && store.txs[|old(store.txs)|].phase.Closed?
      ensures Told(old(store.log), store.log, |old(store.txs)|, now, hash, outcome)
      ensures Executes(outcome) ==>
        around.work == Some(outcome.response) && Stores(store.State(), Transaction(now, hash, Running), store.retention, outcome.response)
      ensures Undisturbed(around, old(store.pending)) ==> outcome == ExpectedOutcome(old(store.committed), now, hash, around)
      ensures Inv(old(store.State()), store.retention) ==> Inv(store.State(), store.retention) && !outcome.StillInProgress?
    {
      ghost var start := store.State();
      var tx := store.Begin(now, hash);
      ExecOne(start, store.retention, Step.Begin(now, hash));
      ghost var s, more := store.State(), [];
      var claim;
      claim, more := store.Claim(tx, around);
      trace := Join(start, store.retention, [Step.Begin(now, hash)], s, more, store.State());
      ghost var claimed := store.State();
      outcome, more := store.Conclude(tx, claim, around);
      trace := Join(start, store.retention, trace, claimed, more, store.State());
      if Inv(start, store.retention) {
        InvContinues(start, store.retention, trace);
        NoneInProgress(store.State(), store.retention, tx, outcome, s.log);
      }
    }
  }

  /** A claiming statement writes the row, finds it taken, or waits in vain. */
  datatype Progress = Claims | GoesOn | Stopped

  /** A transaction keeps its clock reading and its request, and has told its caller nothing yet. */
  predicate SameRequest(before: Store, after: Store, tx: nat) {
    && tx < |before.txs| && tx < |after.txs|
    && after.txs[tx].now == before.txs[tx].now && after.txs[tx].hash == before.txs[tx].hash
    && FactsOf(after.log, tx) == FactsOf(before.log, tx)
  }

  /** The transaction has written the row as being processed. */
  predicate Claimant(s: Store, tx: nat, retention: nat) {
    && tx < |s.txs| && s.txs[tx].phase.Claimed?
    && Written(s, tx) == Some(ClaimedRow(s.txs[tx], retention))
  }

  /** The transaction has written its response and only has to commit. */
  predicate ReadyToCommit(s: Store, tx: nat, retention: nat, response: Response) {
    tx < |s.txs| && s.txs[tx].phase.Completed? && Written(s, tx) == Some(Answered(s.txs[tx], retention, response))
  }

  /** The row of a transaction that claimed the key. */
  function ClaimedRow(t: Transaction, retention: nat): Record {
    Record(t.hash, None, t.now, t.now + retention)
  }

  /** Its row once it has a response. */
  function Answered(t: Transaction, retention: nat, response: Response): Record {
    Record(t.hash, Some(response), t.now, t.now + retention)
  }

  /** The committed record is that of the transaction, with its response. */
  predicate Stores(s: Store, t: Transaction, retention: nat, response: Response) {
    s.committed == Some(Answered(t, retention, response))
  }

  predicate Advanced(before: Store, after: Store, tx: nat, progress: Progress, next: Phase, retention: nat) {
    && SameRequest(before, after, tx)
    && (progress.Claims? ==> Claimant(after, tx, retention))
    && (progress.GoesOn? ==> after.txs[tx].phase == next && Written(after, tx).None?)
    && (progress.Stopped? ==> after.txs[tx].phase.Closed? && Written(after, tx).None?)
  }

  lemma Join(s: Store, retention: nat, a: seq<Step>, m: Store, b: seq<Step>, r: Store) returns (joined: seq<Step>)
    requires Continues(s, retention, a, m) && Continues(m, retention, b, r)
    ensures joined == a + b && Continues(s, retention, joined, r)
  {
    joined := a + b;
    ContinuesOn(s, retention, a, m, b, r);
  }

  lemma Extend(start: Store, retention: nat, trace: seq<Step>, s: Store, step: Step, r: Store) returns (longer: seq<Step>)
    requires Continues(start, retention, trace, s) && r == Next(s, retention, step)
    ensures longer == trace + [step] && Continues(start, retention, longer, r)
  {
    longer := trace + [step];
    ExecOne(s, retention, step);
    ContinuesOn(start, retention, trace, s, [step], r);
  }

  /** The one fact an outcome stands for, if any. */
  predicate Stands(facts: seq<Fact>, tx: nat, now: int, hash: Text, outcome: Outcome) {
    match outcome
    case Failure => facts == []
    case Success(response, replayed) =>
      |facts| == 1 && if replayed then facts[0].Replayed? && facts[0] == Replayed(tx, now, hash, response, facts[0].seen)
                      else facts[0] == Executed(tx, now, hash, response)
    case Unacknowledged(response) => facts == [Executed(tx, now, hash, response)]
    case KeyReused => |facts| == 1 && facts[0].Reused? && facts[0] == Reused(tx, now, hash, facts[0].seen)
    case StillInProgress => facts == [InProgress(tx)]
  }

  /** The transaction contributed to the log exactly the fact its outcome stands for. */
  predicate Told(before: seq<Fact>, after: seq<Fact>, tx: nat, now: int, hash: Text, outcome: Outcome) {
    && FactsOf(before, tx) <= FactsOf(after, tx)
    && Stands(FactsOf(after, tx)[|FactsOf(before, tx)|..], tx, now, hash, outcome)
  }

  /** The transaction has ended and its caller was told what happened. */
  predicate Settled(before: Store, after: Store, tx: nat, outcome: Outcome) {
    && tx < |before.txs| && tx < |after.txs| && after.txs[tx].phase.Closed? && Written(after, tx).None?
    && Told(before.log, after.log, tx, before.txs[tx].now, before.txs[tx].hash, outcome)
  }

  lemma {:induction false} InvContinues(s: Store, retention: nat, steps: seq<Step>)
    requires Inv(s, retention)
    ensures Inv(Exec(s, retention, steps), retention)
  {
    if steps != [] {
      InvContinues(s, retention, steps[..|steps| - 1]);
      InvStep(Exec(s, retention, steps[..|steps| - 1]), retention, steps[|steps| - 1]);
    }
  }

  lemma {:induction false} FactsOfMembers(log: seq<Fact>, tx: nat)
    ensures forall f :: f in FactsOf(log, tx) ==> f in log
  {
    if log != [] {
      FactsOfMembers(log[..|log| - 1], tx);
    }
  }

  lemma NoneInProgress(s: Store, retention: nat, tx: nat, outcome: Outcome, before: seq<Fact>)
    requires Inv(s, retention)
    requires FactsOf(before, tx) <= FactsOf(s.log, tx)
    requires outcome.StillInProgress? ==> FactsOf(s.log, tx)[|FactsOf(before, tx)|..] == [InProgress(tx)]
    ensures !outcome.StillInProgress?
  {
    if outcome.StillInProgress? {
      FactsOfMembers(s.log, tx);
      assert InProgress(tx) in FactsOf(s.log, tx)[|FactsOf(before, tx)|..];
      assert InProgress(tx) in FactsOf(s.log, tx);
      NoFactInProgress(s, retention);
    }
  }
}
