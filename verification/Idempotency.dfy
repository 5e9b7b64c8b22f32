/**
 Idempotent execution for one tenant, command scope and key, as a transition system over the SQL
 statements of concurrent transactions. A row written and not committed is locked until its
 transaction ends; rows are never deleted; every transaction brings its own clock reading.

 A request's hash is modelled by the canonical text it is taken over, as if hashing were injective.
 */
module Idempotency {
  import opened Wrappers
  import opened Ordering
  import opened JsonReader
  import CanonicalJson
  import CanonicalRequest

  datatype Response = Response(status: int, body: Value)

  /** Without a response the record is still being processed. */
  datatype Record = Record(hash: Text, response: Option<Response>, createdAt: int, expiresAt: int)

  datatype Phase =
    | Running
    | Conflicted
    | Kept
    | Claimed
    | Worked(response: Response)
    | Completed
    | Found(record: Record, seen: nat)
    | Closed

  datatype Transaction = Transaction(now: int, hash: Text, phase: Phase)

  datatype Pending = Pending(tx: nat, record: Record)

  /** The outcomes that reach callers; `seen` is how much of the log had happened when the record was read. */
  datatype Fact =
    | Executed(tx: nat, now: int, hash: Text, response: Response)
    | Replayed(tx: nat, now: int, hash: Text, response: Response, seen: nat)
    | Reused(tx: nat, now: int, hash: Text, seen: nat)
    | InProgress(tx: nat)

  datatype Store = Store(committed: Option<Record>, pending: Option<Pending>, txs: seq<Transaction>, log: seq<Fact>)

  const EMPTY := Store(None, None, [], [])

  datatype Step =
    | Begin(now: int, hash: Text)
    | Insert(tx: nat)
    | Replace(tx: nat)
    | Read(tx: nat)
    | Work(tx: nat, result: Option<Response>)
    | Complete(tx: nat)
    | Commit(tx: nat)
    | Answer(tx: nat)
    | Abort(tx: nat)

  predicate InPhase(s: Store, tx: nat, phase: Phase) {
    tx < |s.txs| && s.txs[tx].phase == phase
  }

  function SetPhase(s: Store, tx: nat, phase: Phase): Store
    requires tx < |s.txs|
  {
    s.(txs := s.txs[tx := s.txs[tx].(phase := phase)])
  }

  /** The row this transaction writes when it claims the key. */
  function Claim(s: Store, tx: nat, retention: nat): Store
    requires tx < |s.txs|
  {
    var t := s.txs[tx];
    SetPhase(s, tx, Claimed).(pending := Some(Pending(tx, Record(t.hash, None, t.now, t.now + retention))))
  }

  /** Rollback: whatever the transaction wrote is gone. */
  function Rollback(s: Store, tx: nat): Store
    requires tx < |s.txs|
  {
    var released := if s.pending.Some? && s.pending.value.tx == tx then s.(pending := None) else s;
    SetPhase(released, tx, Closed)
  }

  /** What the executor checks before it stores a response: a status code, and that its body prints as canonical JSON. */
  predicate ValidResponse(r: Response) {
    100 <= r.status <= 599 && CanonicalJson.Print(r.body, 0).Some?
  }

  /** A status code of HTTP and finite, plain JSON of at most 32 levels. */
  predicate Storable(r: Response) {
    100 <= r.status <= 599 && CanonicalJson.Acceptable(r.body, 32)
  }

  /** The check that prints the body lets exactly the storable responses through. */
  lemma StorableResponses(r: Response)
    ensures ValidResponse(r) <==> Storable(r)
  {
    CanonicalJson.AcceptedValues(r.body);
  }

  predicate OwnsProcessing(s: Store, tx: nat) {
    s.pending.Some? && s.pending.value.tx == tx && s.pending.value.record.response.None?
  }

  /** One statement or one step of the executor; a step that is not enabled, or has to wait, changes nothing. */
  function Next(s: Store, retention: nat, step: Step): Store {
    match step
    case Begin(now, hash) =>
      s.(txs := s.txs + [Transaction(now, hash, Running)])
    case Insert(tx) =>
      if !InPhase(s, tx, Running) || s.pending.Some? then s
      else if s.committed.None? then Claim(s, tx, retention)
      else SetPhase(s, tx, Conflicted)
    case Replace(tx) =>
      if !InPhase(s, tx, Conflicted) || s.pending.Some? then s
      else if s.committed.Some? && s.committed.value.expiresAt <= s.txs[tx].now then Claim(s, tx, retention)
      else SetPhase(s, tx, Kept)
    case Read(tx) =>
      if !InPhase(s, tx, Kept) then s
      else if s.committed.None? then Rollback(s, tx)
      else SetPhase(s, tx, Found(s.committed.value, |s.log|))
    case Work(tx, result) =>
      if !InPhase(s, tx, Claimed) then s
      else if result.Some? && ValidResponse(result.value) then SetPhase(s, tx, Worked(result.value))
      else Rollback(s, tx)
    case Complete(tx) =>
      if tx < |s.txs| && s.txs[tx].phase.Worked? then
        if OwnsProcessing(s, tx) then
          SetPhase(s, tx, Completed).(pending := Some(Pending(tx, s.pending.value.record.(response := Some(s.txs[tx].phase.response)))))
        else Rollback(s, tx)
      else s
    case Commit(tx) =>
      if InPhase(s, tx, Completed) && s.pending.Some? && s.pending.value.tx == tx && s.pending.value.record.response.Some? then
        SetPhase(s, tx, Closed).(
          committed := Some(s.pending.value.record),
          pending := None,
          log := s.log + [Executed(tx, s.txs[tx].now, s.txs[tx].hash, s.pending.value.record.response.value)])
      else s
    case Answer(tx) =>
      if tx < |s.txs| && s.txs[tx].phase.Found? then
        Rollback(s, tx).(log := s.log + [AnswerFact(tx, s.txs[tx])])
      else s
    case Abort(tx) =>
      if tx < |s.txs| && !s.txs[tx].phase.Closed? then Rollback(s, tx) else s
  }

  /** What a transaction that found a record tells its caller. */
  function AnswerFact(tx: nat, t: Transaction): Fact
    requires t.phase.Found?
  {
    var record, seen := t.phase.record, t.phase.seen;
    if record.hash != t.hash then Reused(tx, t.now, t.hash, seen)
    else if record.response.None? then InProgress(tx)
    else Replayed(tx, t.now, t.hash, record.response.value, seen)
  }

  function Exec(s: Store, retention: nat, steps: seq<Step>): Store {
    if steps == [] then s
    else Next(Exec(s, retention, steps[..|steps| - 1]), retention, steps[|steps| - 1])
  }

  // ----- The invariant -----

  function RecordOf(fact: Fact, retention: nat): Record
    requires fact.Executed?
  {
    Record(fact.hash, Some(fact.response), fact.now, fact.now + retention)
  }

  /** The record left by the last execution of a log. */
  function LastStored(log: seq<Fact>, retention: nat): Option<Record> {
    if log == [] then None
    else if log[|log| - 1].Executed? then Some(RecordOf(log[|log| - 1], retention))
    else LastStored(log[..|log| - 1], retention)
  }

  /** Executions are at least the retention apart. */
  predicate Spaced(log: seq<Fact>, retention: nat) {
    forall i, j :: 0 <= i < j < |log| && log[i].Executed? && log[j].Executed? ==> log[j].now >= log[i].now + retention
  }

  /** The record was the stored one after `seen` facts, and live by the clock of whoever read it. */
  predicate LiveWhenSeen(log: seq<Fact>, retention: nat, seen: nat, record: Record, now: int) {
    seen <= |log| && LastStored(log[..seen], retention) == Some(record) && record.expiresAt > now
  }

  predicate FactHolds(log: seq<Fact>, retention: nat, k: nat)
    requires k < |log|
  {
    match log[k]
    case Executed(_, _, _, response) => ValidResponse(response)
    case Replayed(_, now, hash, response, seen) =>
      seen <= k && LiveWhenSeen(log, retention, seen, Record(hash, Some(response), StoredAt(log[..seen], retention), StoredAt(log[..seen], retention) + retention), now)
    case Reused(_, now, hash, seen) =>
      && seen <= k && LastStored(log[..seen], retention).Some?
      && LastStored(log[..seen], retention).value.hash != hash
      && LastStored(log[..seen], retention).value.expiresAt > now
    case InProgress(_) => false
  }

  function StoredAt(log: seq<Fact>, retention: nat): int {
    if LastStored(log, retention).Some? then LastStored(log, retention).value.createdAt else 0
  }

  predicate FactsHold(log: seq<Fact>, retention: nat) {
    forall k :: 0 <= k < |log| ==> FactHolds(log, retention, k)
  }

  /** The transaction holding the row is in the middle of its command, on a key it was entitled to claim. */
  predicate PendingHolds(s: Store, retention: nat) {
    s.pending.Some? ==>
      var tx, record := s.pending.value.tx, s.pending.value.record;
      && tx < |s.txs|
      && record.hash == s.txs[tx].hash && record.createdAt == s.txs[tx].now && record.expiresAt == s.txs[tx].now + retention
      && (s.committed.Some? ==> s.committed.value.expiresAt <= s.txs[tx].now)
      && (s.txs[tx].phase.Claimed? || s.txs[tx].phase.Worked? || s.txs[tx].phase.Completed?)
      && (record.response.Some? ==> ValidResponse(record.response.value))
  }

  predicate TransactionHolds(s: Store, retention: nat, tx: nat)
    requires tx < |s.txs|
  {
    match s.txs[tx].phase
    case Kept => s.committed.Some? && s.committed.value.expiresAt > s.txs[tx].now
    case Conflicted => s.committed.Some?
    case Worked(response) => ValidResponse(response)
    case Found(record, seen) => LiveWhenSeen(s.log, retention, seen, record, s.txs[tx].now)
    case _ => true
  }

  predicate Inv(s: Store, retention: nat) {
    && s.committed == LastStored(s.log, retention)
    && Spaced(s.log, retention)
    && FactsHold(s.log, retention)
    && PendingHolds(s, retention)
    && forall tx :: 0 <= tx < |s.txs| ==> TransactionHolds(s, retention, tx)
  }

  /** Fact `e` is the last execution among the first `seen`. */
  predicate LastExecution(log: seq<Fact>, seen: nat, e: nat) {
    e < seen <= |log| && log[e].Executed? && forall l :: e < l < seen ==> !log[l].Executed?
  }

  lemma {:induction false} NoneStored(log: seq<Fact>, retention: nat, k: nat)
    requires LastStored(log, retention).None? && k < |log|
    ensures !log[k].Executed?
  {
    if k < |log| - 1 {
      NoneStored(log[..|log| - 1], retention, k);
    }
  }

  /** The stored record comes from the last execution. */
  lemma {:induction false} StoredByLast(log: seq<Fact>, retention: nat) returns (e: nat)
    requires LastStored(log, retention).Some?
    ensures LastExecution(log, |log|, e) && LastStored(log, retention) == Some(RecordOf(log[e], retention))
  {
    e := |log| - 1;
    if !log[e].Executed? {
      e := StoredByLast(log[..|log| - 1], retention);
    }
  }

  lemma StoredWhenSeen(log: seq<Fact>, retention: nat, seen: nat) returns (e: nat)
    requires seen <= |log| && LastStored(log[..seen], retention).Some?
    ensures LastExecution(log, seen, e) && LastStored(log[..seen], retention) == Some(RecordOf(log[e], retention))
  {
    e := StoredByLast(log[..seen], retention);
  }

  lemma LogPrefix(log: seq<Fact>, fact: Fact, seen: nat)
    requires seen <= |log|
    ensures (log + [fact])[..seen] == log[..seen] && (log + [fact])[..|log|] == log
  {
  }

  lemma FactsStay(log: seq<Fact>, retention: nat, fact: Fact)
    requires FactsHold(log, retention) && FactHolds(log + [fact], retention, |log|)
    ensures FactsHold(log + [fact], retention)
  {
    forall k | 0 <= k < |log + [fact]|
      ensures FactHolds(log + [fact], retention, k)
    {
      if k < |log| {
        assert FactHolds(log, retention, k);
        match log[k]
        case Replayed(_, _, _, _, seen) => LogPrefix(log, fact, seen);
        case Reused(_, _, _, seen) => LogPrefix(log, fact, seen);
        case _ =>
      }
    }
  }

  /** A transaction's promise survives what others do, as long as stored records only get later. */
  lemma OthersStay(s: Store, r: Store, retention: nat, tx: nat)
    requires tx < |s.txs| && tx < |r.txs| && r.txs[tx] == s.txs[tx] && TransactionHolds(s, retention, tx)
    requires s.log <= r.log
    requires s.committed.Some? ==> r.committed.Some? && r.committed.value.expiresAt >= s.committed.value.expiresAt
    ensures TransactionHolds(r, retention, tx)
  {
    match s.txs[tx].phase
    case Found(record, seen) => assert r.log[..seen] == s.log[..seen];
    case _ =>
  }

  lemma QuietStep(s: Store, r: Store, retention: nat, tx: nat)
    requires Inv(s, retention) && tx < |s.txs| && |r.txs| == |s.txs|
    requires r.committed == s.committed && r.log == s.log && PendingHolds(r, retention)
    requires forall u :: 0 <= u < |s.txs| && u != tx ==> r.txs[u] == s.txs[u]
    requires TransactionHolds(r, retention, tx)
    ensures Inv(r, retention)
  {
    forall u | 0 <= u < |r.txs|
      ensures TransactionHolds(r, retention, u)
    {
      if u != tx {
        OthersStay(s, r, retention, u);
      }
    }
  }

  lemma RollbackKeeps(s: Store, retention: nat, tx: nat)
    requires Inv(s, retention) && tx < |s.txs|
    ensures Inv(Rollback(s, tx), retention)
  {
    QuietStep(s, Rollback(s, tx), retention, tx);
  }

  lemma CommitKeeps(s: Store, retention: nat, tx: nat)
    requires Inv(s, retention) && InPhase(s, tx, Completed) && s.pending.Some? && s.pending.value.tx == tx
    requires s.pending.value.record.response.Some?
    ensures Inv(Next(s, retention, Commit(tx)), retention)
  {
    var r := Next(s, retention, Commit(tx));
    var fact := r.log[|s.log|];
    LogPrefix(s.log, fact, 0);
    FactsStay(s.log, retention, fact);
    SpacedGrows(s, retention, fact);
    forall u | 0 <= u < |r.txs|
      ensures TransactionHolds(r, retention, u)
    {
      if u != tx {
        OthersStay(s, r, retention, u);
      }
    }
  }

  lemma SpacedGrows(s: Store, retention: nat, fact: Fact)
    requires Inv(s, retention) && fact.Executed? && (s.committed.Some? ==> s.committed.value.expiresAt <= fact.now)
    ensures Spaced(s.log + [fact], retention)
  {
    if s.committed.None? {
      forall i | 0 <= i < |s.log|
        ensures !s.log[i].Executed?
      {
        NoneStored(s.log, retention, i);
      }
    } else {
      var e := StoredByLast(s.log, retention);
      forall i | 0 <= i < |s.log| && s.log[i].Executed?
        ensures fact.now >= s.log[i].now + retention
      {
        assert i < e ==> s.log[e].now >= s.log[i].now + retention;
      }
    }
  }

  lemma AnswerKeeps(s: Store, retention: nat, tx: nat)
    requires Inv(s, retention) && tx < |s.txs| && s.txs[tx].phase.Found?
    ensures Inv(Next(s, retention, Answer(tx)), retention)
  {
    var r, fact := Next(s, retention, Answer(tx)), AnswerFact(tx, s.txs[tx]);
    assert TransactionHolds(s, retention, tx);
    LogPrefix(s.log, fact, s.txs[tx].phase.seen);
    var e := StoredWhenSeen(s.log, retention, s.txs[tx].phase.seen);
    FactsStay(s.log, retention, fact);
    RollbackKeeps(s, retention, tx);
    forall u | 0 <= u < |r.txs|
      ensures TransactionHolds(r, retention, u)
    {
      assert TransactionHolds(Rollback(s, tx), retention, u);
      OthersStay(Rollback(s, tx), r, retention, u);
    }
  }

  lemma BeginKeeps(s: Store, retention: nat, now: int, hash: Text)
    requires Inv(s, retention)
    ensures Inv(Next(s, retention, Begin(now, hash)), retention)
  {
    var r := Next(s, retention, Begin(now, hash));
    forall u | 0 <= u < |r.txs|
      ensures TransactionHolds(r, retention, u)
    {
      if u < |s.txs| {
        OthersStay(s, r, retention, u);
      }
    }
  }

  lemma ClaimKeeps(s: Store, retention: nat, tx: nat)
    requires Inv(s, retention) && tx < |s.txs|
    requires s.committed.Some? ==> s.committed.value.expiresAt <= s.txs[tx].now
    ensures Inv(Claim(s, tx, retention), retention)
  {
    QuietStep(s, Claim(s, tx, retention), retention, tx);
  }

  lemma StatementKeeps(s: Store, retention: nat, tx: nat, step: Step)
    requires Inv(s, retention) && tx < |s.txs| && step in {Insert(tx), Replace(tx), Read(tx)}
    ensures Inv(Next(s, retention, step), retention)
  {
    var r := Next(s, retention, step);
    assert TransactionHolds(s, retention, tx) && s.log[..|s.log|] == s.log;
    if r == Claim(s, tx, retention) && (s.committed.Some? ==> s.committed.value.expiresAt <= s.txs[tx].now) {
      ClaimKeeps(s, retention, tx);
    } else if r != s {
      if r == Rollback(s, tx) {
        RollbackKeeps(s, retention, tx);
      } else {
        QuietStep(s, r, retention, tx);
      }
    }
  }

  lemma WorkKeeps(s: Store, retention: nat, tx: nat, step: Step)
    requires Inv(s, retention) && tx < |s.txs| && (step.Work? || step.Complete?) && step.tx == tx
    ensures Inv(Next(s, retention, step), retention)
  {
    var r := Next(s, retention, step);
    assert TransactionHolds(s, retention, tx);
    if r == Rollback(s, tx) {
      RollbackKeeps(s, retention, tx);
    } else if r != s {
      QuietStep(s, r, retention, tx);
    }
  }

  /** Every step of every interleaving keeps the invariant. */
  lemma InvStep(s: Store, retention: nat, step: Step)
    requires Inv(s, retention)
    ensures Inv(Next(s, retention, step), retention)
  {
    if step.Begin? {
      BeginKeeps(s, retention, step.now, step.hash);
    } else if step.tx < |s.txs| {
      match step
      case Insert(tx) => StatementKeeps(s, retention, tx, step);
      case Replace(tx) => StatementKeeps(s, retention, tx, step);
      case Read(tx) => StatementKeeps(s, retention, tx, step);
      case Work(tx, _) => WorkKeeps(s, retention, tx, step);
      case Complete(tx) => WorkKeeps(s, retention, tx, step);
      case Commit(tx) => if Next(s, retention, step) != s { CommitKeeps(s, retention, tx); }
      case Answer(tx) => if s.txs[tx].phase.Found? { AnswerKeeps(s, retention, tx); }
      case Abort(tx) => RollbackKeeps(s, retention, tx);
    }
  }

  lemma {:induction false} InvAlways(retention: nat, steps: seq<Step>)
    ensures Inv(Exec(EMPTY, retention, steps), retention)
  {
    if steps != [] {
      InvAlways(retention, steps[..|steps| - 1]);
      InvStep(Exec(EMPTY, retention, steps[..|steps| - 1]), retention, steps[|steps| - 1]);
    }
  }

  // ----- The main results, for every run -----

  /** Successive executions of one key are at least the retention apart by their clocks. */
  lemma ExecutionsAreSpaced(retention: nat, steps: seq<Step>, i: nat, j: nat)
    requires var log := Exec(EMPTY, retention, steps).log;
      i < j < |log| && log[i].Executed? && log[j].Executed?
    ensures var log := Exec(EMPTY, retention, steps).log;
      log[j].now >= log[i].now + retention
  {
    InvAlways(retention, steps);
  }

  /** What a replay answers with is the stored response it saw. */
  lemma ReplayIsStored(s: Store, retention: nat, k: nat) returns (e: nat)
    requires Inv(s, retention) && k < |s.log| && s.log[k].Replayed?
    ensures e < k && s.log[k].seen <= k && LastExecution(s.log, s.log[k].seen, e)
    ensures s.log[k].response == s.log[e].response && s.log[k].hash == s.log[e].hash && s.log[k].now < s.log[e].now + retention
  {
    assert FactHolds(s.log, retention, k);
    e := StoredWhenSeen(s.log, retention, s.log[k].seen);
  }

  /**
   Every other success returns, verbatim, the response of the execution that was the latest when the
   record was read, for the same request, and within its retention.
   */
  lemma ReplaysReturnTheStoredResponse(retention: nat, steps: seq<Step>, k: nat) returns (e: nat)
    requires var log := Exec(EMPTY, retention, steps).log;
      k < |log| && log[k].Replayed?
    ensures var log := Exec(EMPTY, retention, steps).log;
      && e < k && log[k].seen <= k && LastExecution(log, log[k].seen, e)
      && log[k].response == log[e].response && log[k].hash == log[e].hash
      && log[k].now < log[e].now + retention
  {
    InvAlways(retention, steps);
    e := ReplayIsStored(Exec(EMPTY, retention, steps), retention, k);
  }

  /** A conflict is reported only against a live execution of a different request. */
  lemma ConflictsAreReal(retention: nat, steps: seq<Step>, k: nat) returns (e: nat)
    requires var log := Exec(EMPTY, retention, steps).log;
      k < |log| && log[k].Reused?
    ensures var log := Exec(EMPTY, retention, steps).log;
      && e < k && log[k].seen <= k && LastExecution(log, log[k].seen, e)
      && log[k].hash != log[e].hash && log[k].now < log[e].now + retention
  {
    var log := Exec(EMPTY, retention, steps).log;
    InvAlways(retention, steps);
    assert FactHolds(log, retention, k);
    e := StoredWhenSeen(log, retention, log[k].seen);
  }

  lemma NoFactInProgress(s: Store, retention: nat)
    requires Inv(s, retention)
    ensures forall k :: 0 <= k < |s.log| ==> !s.log[k].InProgress?
  {
    forall k | 0 <= k < |s.log|
      ensures !s.log[k].InProgress?
    {
      assert FactHolds(s.log, retention, k);
    }
  }

  /** No committed record is ever being processed, so nobody is told that a request is in progress. */
  lemma NeverInProgress(retention: nat, steps: seq<Step>)
    ensures var s := Exec(EMPTY, retention, steps);
      && (s.committed.Some? ==> s.committed.value.response.Some?)
      && forall k :: 0 <= k < |s.log| ==> !s.log[k].InProgress?
  {
    var s := Exec(EMPTY, retention, steps);
    InvAlways(retention, steps);
    if s.committed.Some? {
      var e := StoredByLast(s.log, retention);
    }
    NoFactInProgress(s, retention);
  }

  /** The committed state is what the executions alone determine: conflicts, failures and replays leave no trace in it. */
  lemma CommittedByExecutionsAlone(retention: nat, steps: seq<Step>)
    ensures var s := Exec(EMPTY, retention, steps);
      s.committed == LastStored(Executions(s.log), retention)
  {
    var s := Exec(EMPTY, retention, steps);
    InvAlways(retention, steps);
    ExecutionsDetermine(s.log, retention);
  }

  function Executions(log: seq<Fact>): seq<Fact> {
    if log == [] then []
    else Executions(log[..|log| - 1]) + if log[|log| - 1].Executed? then [log[|log| - 1]] else []
  }

  lemma {:induction false} ExecutionsDetermine(log: seq<Fact>, retention: nat)
    ensures LastStored(Executions(log), retention) == LastStored(log, retention)
  {
    if log != [] {
      var earlier, last := Executions(log[..|log| - 1]), log[|log| - 1];
      ExecutionsDetermine(log[..|log| - 1], retention);
      if last.Executed? {
        assert Executions(log) == earlier + [last] && (earlier + [last])[|earlier|] == last;
      } else {
        assert Executions(log) == earlier;
      }
    }
  }

  /** Whatever is stored or returned is storable. */
  lemma ResponsesAreStorable(retention: nat, steps: seq<Step>, k: nat)
    requires var log := Exec(EMPTY, retention, steps).log;
      k < |log| && (log[k].Executed? || log[k].Replayed?)
    ensures Storable(Exec(EMPTY, retention, steps).log[k].response)
  {
    var log := Exec(EMPTY, retention, steps).log;
    InvAlways(retention, steps);
    var e := k;
    if log[k].Replayed? {
      e := ReplaysReturnTheStoredResponse(retention, steps, k);
    }
    assert FactHolds(log, retention, e);
    StorableResponses(log[k].response);
  }

  /** Among executions whose clocks lie within one retention of each other there is only one. */
  lemma OneExecutionPerRetention(retention: nat, steps: seq<Step>, i: nat, j: nat, from: int)
    requires var log := Exec(EMPTY, retention, steps).log;
      && i < |log| && log[i].Executed? && from <= log[i].now < from + retention
      && j < |log| && log[j].Executed? && from <= log[j].now < from + retention
    ensures i == j
  {
    if i < j {
      ExecutionsAreSpaced(retention, steps, i, j);
    } else if j < i {
      ExecutionsAreSpaced(retention, steps, j, i);
    }
  }

  /** The hash of a request: the canonical text of its scope and payload. */
  predicate HashOf(hash: Text, scope: Text, payload: Value) {
    CanonicalJson.WellFormed(payload) && CanonicalJson.Print(CanonicalRequest.RequestValue(scope, payload), 0) == Some(hash)
  }

  /** Within one scope, a replay answers only a request whose payload is equivalent to the executed one. */
  lemma ReplaysAnswerEquivalentRequests(retention: nat, steps: seq<Step>, k: nat, scope: Text,
                                        payload: Value, executed: seq<Value>)
    requires var log := Exec(EMPTY, retention, steps).log;
      && k < |log| && log[k].Replayed? && HashOf(log[k].hash, scope, payload)
      && |executed| == |log|
      && forall e :: 0 <= e < |log| && log[e].Executed? ==> HashOf(log[e].hash, scope, executed[e])
    ensures var log := Exec(EMPTY, retention, steps).log;
      exists e :: 0 <= e < k && LastExecution(log, log[k].seen, e) && log[k].response == log[e].response
        && CanonicalJson.Equivalent(payload, executed[e])
  {
    var e := ReplaysReturnTheStoredResponse(retention, steps, k);
    var log := Exec(EMPTY, retention, steps).log;
    assert HashOf(log[e].hash, scope, executed[e]);
    CanonicalRequest.RequestsAgree(scope, payload, scope, executed[e]);
  }
}
