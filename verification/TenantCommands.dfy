/** The tenant handlers: provisioning and lifecycle transitions as transactions on the tenant row. */
module TenantCommands {
  import opened Wrappers
  import opened Blanks
  import opened VersionChain
  import opened VersionedRow
  import opened Tenant

  /** What the transition table says. */
  function Verdict(current: Snapshot, command: Command): Result<Snapshot, Problem>
    requires command.MoveTo?
  {
    match Transition(current, command.target, command.expectedVersion, command.now)
    case Ok(change) => Ok(change.tenant)
    case Err(problem) => Err(problem)
  }

  /** The table accepts exactly what the rules apply. */
  predicate Agrees(verdict: Result<Snapshot, Problem>, decision: Option<TenantDecision>) {
    if decision.None? then verdict.Err? else verdict == Ok(decision.value.next)
  }

  lemma VerdictAgrees(current: Snapshot, command: Command)
    requires command.MoveTo?
    ensures Agrees(Verdict(current, command), TenantRules().apply(Some(current), command))
  {
    assert TenantRules().apply(Some(current), command) == Apply(Some(current), command);
  }

  /** A trimmed reason, if anything is left of it. */
  function Stated(reason: Option<string>): Option<string> {
    if reason.None? || Trim(reason.value) == "" then None else Some(Trim(reason.value))
  }

  lemma StatedUnlessBlank(reason: Option<string>)
    ensures Stated(reason).None? <==> reason.None? || Blank(reason.value)
    ensures Stated(reason).Some? ==> Trimmed(reason.value, Stated(reason).value)
  {
    if reason.Some? {
      TrimmedIsBlank(reason.value);
    }
  }

  /** A change took effect: its caller was told so, or was told of an error after the commit. */
  predicate Changed(outcome: Result<Snapshot, Problem>) {
    outcome.Ok? || outcome == Err(Problem.Unacknowledged)
  }

  class Commands {
    const rows: Row<Snapshot, Command, Envelope, Fact>

    ghost predicate Valid()
      reads this, rows
    {
      rows.Valid() && rows.rules == TenantRules()
    }

    constructor (rows: Row<Snapshot, Command, Envelope, Fact>)
      requires rows.Valid() && rows.rules == TenantRules()
      ensures Valid() && this.rows == rows
    {
      this.rows := rows;
    }

    /** The tenant row, its audit fact and its event are committed in one transaction, or none of them. */
    method ProvisionTenant(id: string, displayName: string, now: int, around: Surroundings<Command>)
      returns (outcome: Result<Snapshot, Problem>, ghost trace: seq<TenantStep>)
      requires Valid() && SurroundedByOthers(around, |rows.txs|)
      modifies rows
      ensures Valid() && Leads(rows.rules, old(rows.State()), trace, rows.State())
      ensures Provision(id, displayName, now).Err? ==> outcome == Err(Provision(id, displayName, now).error) && rows.State() == old(rows.State())
      ensures CommittedBy(rows.outbox, |old(rows.txs)|) <==> Changed(outcome)
      ensures Changed(outcome) ==>
        && Provision(id, displayName, now).Ok? && |rows.history| == 1
        && CommittedAfter(rows.State(), |old(rows.txs)|, None, Provisions(Provision(id, displayName, now).value))
      ensures outcome.Ok? ==> Provision(id, displayName, now).Ok? && outcome.value == Provision(id, displayName, now).value.tenant
      ensures Undisturbed(around, old(rows.writer)) && Provision(id, displayName, now).Ok? ==>
        outcome == if old(rows.committed).None? then Ok(Provision(id, displayName, now).value.tenant) else Err(AlreadyExists)
    {
      var change := Provision(id, displayName, now);
      trace := [];
      if change.Err? {
        NothingYet(rows.State());
        return Err(change.error), trace;
      }
      var ending;
      ending, trace := rows.Create(ProvisionAs(id, displayName, now), around);
      match ending
      case Done => outcome := Ok(change.value.tenant);
      case Conflict => outcome := Err(AlreadyExists);
      case Unacknowledged => outcome := Err(Problem.Unacknowledged);
      case _ => outcome := Err(Problem.Interrupted);
    }

    /** Suspending and closing need a reason; a transition that takes effect follows directly on the snapshot it was decided on. */
    method TransitionTenant(target: State, expectedVersion: int, reason: Option<string>, now: int, around: Surroundings<Command>)
      returns (outcome: Result<Snapshot, Problem>, ghost trace: seq<TenantStep>)
      requires Valid() && SurroundedByOthers(around, |rows.txs|) && target != Provisioning
      modifies rows
      ensures Valid() && Leads(rows.rules, old(rows.State()), trace, rows.State())
      ensures outcome == Err(ReasonRequired) <==> target in {Suspended, State.Closed} && (reason.None? || Blank(reason.value))
      ensures outcome == Err(ReasonRequired) ==> rows.State() == old(rows.State())
      ensures CommittedBy(rows.outbox, |old(rows.txs)|) <==> Changed(outcome)
      ensures Changed(outcome) ==> AppliedLast(rows.rules, rows.State(), |old(rows.txs)|, MoveTo(target, expectedVersion, Stated(reason), now))
      ensures outcome.Ok? ==> rows.committed == Some(outcome.value)
      ensures Undisturbed(around, old(rows.writer)) && outcome != Err(ReasonRequired) ==>
        outcome == if old(rows.committed).None? then Err(TenantNotFound)
                   else Verdict(old(rows.committed).value, MoveTo(target, expectedVersion, Stated(reason), now))
    {
      trace := [];
      StatedUnlessBlank(reason);
      var stated := Stated(reason);
      if target in {Suspended, State.Closed} && stated.None? {
        NothingYet(rows.State());
        return Err(ReasonRequired), trace;
      }
      outcome, trace := Perform(MoveTo(target, expectedVersion, stated, now), around);
    }

    /** Load and settle. */
    method Perform(command: Command, around: Surroundings<Command>)
      returns (outcome: Result<Snapshot, Problem>, ghost trace: seq<TenantStep>)
      requires Valid() && SurroundedByOthers(around, |rows.txs|) && command.MoveTo?
      modifies rows
      ensures Valid() && Leads(rows.rules, old(rows.State()), trace, rows.State())
      ensures CommittedBy(rows.outbox, |old(rows.txs)|) <==> Changed(outcome)
      ensures Changed(outcome) ==> AppliedLast(rows.rules, rows.State(), |old(rows.txs)|, command)
      ensures outcome.Ok? ==> rows.committed == Some(outcome.value)
      ensures Undisturbed(around, old(rows.writer)) ==>
        outcome == if old(rows.committed).None? then Err(TenantNotFound) else Verdict(old(rows.committed).value, command)
      ensures outcome != Err(ReasonRequired)
    {
      ghost var start, more := rows.State(), [];
      var tx, loaded;
      tx, loaded, trace := rows.Open(around.beforeLoad);
      if loaded.None? {
        return Err(TenantNotFound), trace;
      }
      ghost var s := rows.State();
      VerdictAgrees(loaded.value, command);
      outcome, more := Settle(tx, command, Verdict(loaded.value, command), around);
      trace := Join(rows.rules, start, trace, s, more, rows.State());
    }

    /** The transition table's verdict, then update, record and commit. */
    method Settle(tx: nat, command: Command, verdict: Result<Snapshot, Problem>, around: Surroundings<Command>)
      returns (outcome: Result<Snapshot, Problem>, ghost trace: seq<TenantStep>)
      requires rows.Valid() && tx < |rows.txs| && rows.txs[tx].Loaded? && rows.writer != Some(tx) && SurroundedByOthers(around, tx)
      requires !CommittedBy(rows.outbox, tx) && Agrees(verdict, rows.rules.apply(Some(rows.txs[tx].snapshot), command))
      requires verdict !in {Err(ReasonRequired), Err(Problem.Unacknowledged)}
      modifies rows
      ensures rows.Valid() && Leads(rows.rules, old(rows.State()), trace, rows.State())
      ensures CommittedBy(rows.outbox, tx) <==> Changed(outcome)
      ensures Changed(outcome) ==> AppliedLast(rows.rules, rows.State(), tx, command)
      ensures outcome.Ok? ==> rows.committed == Some(outcome.value)
      ensures Undisturbed(around, old(rows.writer)) && old(rows.committed) == Some(old(rows.txs)[tx].snapshot) ==> outcome == verdict
      ensures outcome != Err(ReasonRequired)
    {
      var ending;
      ending, trace := rows.Settle(tx, command, around);
      match ending
      case Done => outcome := Ok(rows.committed.value);
      case Refused => outcome := verdict;
      case Conflict => outcome := Err(VersionConflict);
      case Unacknowledged => outcome := Err(Problem.Unacknowledged);
      case Interrupted => outcome := Err(Problem.Interrupted);
    }
  }

  /** A transaction that has not begun has committed nothing. */
  lemma NothingYet(s: TenantStore)
    requires CountsVersions(TenantRules()) && Reachable(TenantRules(), s)
    ensures !CommittedBy(s.outbox, |s.txs|) && Leads(TenantRules(), s, [], s)
  {
    ReachableHolds(TenantRules(), s);
  }
}
