/** Assigning and revoking roles as transactions on the role and assignment tables, as the classes they are. */
module RoleAdministration {
  import opened Wrappers
  import opened Administrators

  datatype Problem = SelfChange | RoleNotFound | LastAdministrator | AlreadyAssigned | NotAssigned | Interrupted | Unacknowledged

  /** Others' steps before each statement, and what becomes of the commit. */
  datatype Surroundings = Surroundings(
    beforeLock: seq<Step>,
    beforeCount: seq<Step>,
    beforeWrite: seq<Step>,
    beforeCommit: seq<Step>,
    fate: CommitFate)

  predicate Foreign(step: Step, tx: nat) {
    step.Begin? || step.tx != tx
  }

  predicate AllForeign(steps: seq<Step>, tx: nat) {
    forall i :: 0 <= i < |steps| ==> Foreign(steps[i], tx)
  }

  predicate SurroundedByOthers(around: Surroundings, tx: nat) {
    && AllForeign(around.beforeLock, tx) && AllForeign(around.beforeCount, tx)
    && AllForeign(around.beforeWrite, tx) && AllForeign(around.beforeCommit, tx)
  }

  /** Others neither move a transaction nor, while it holds its role's row, change who holds that role. */
  predicate Untouched(s: Store, r: Store, tx: nat) {
    && tx < |s.txs| <= |r.txs| && r.txs[tx] == s.txs[tx] && r.roles == s.roles && s.log <= r.log
    && (HoldsRow(s, tx) ==> HoldsRow(r, tx) && SameRole(s.assignments, r.assignments, s.txs[tx].change.role))
  }

  predicate SameRole(a: map<Pair, bool>, b: map<Pair, bool>, role: string) {
    Holders(a, role) == Holders(b, role)
  }

  lemma ForeignCommit(initial: map<Pair, bool>, s: Store, u: nat, tx: nat)
    requires Inv(initial, s) && tx < |s.txs| && u < |s.txs| && u != tx && s.txs[u].phase.Wrote?
    ensures Untouched(s, Next(s, Commit(u)), tx)
  {
    assert TransactionHolds(s, u);
    if HoldsRow(s, tx) {
      DifferentRoles(s, u, tx);
      OtherRoleUnchanged(s.assignments, s.txs[u].change, s.txs[tx].change);
    }
  }

  predicate Commits(s: Store, step: Step) {
    step.Commit? && step.tx < |s.txs| && s.txs[step.tx].phase.Wrote?
  }

  /** Only a commit changes assignments. */
  lemma StatementChangesNothing(s: Store, step: Step)
    requires !Commits(s, step)
    ensures Next(s, step).assignments == s.assignments && Next(s, step).log == s.log && Next(s, step).roles == s.roles
  {
  }

  lemma TransactionKept(s: Store, step: Step, tx: nat)
    requires tx < |s.txs| && Foreign(step, tx)
    ensures tx < |Next(s, step).txs| && Next(s, step).txs[tx] == s.txs[tx] && |s.txs| <= |Next(s, step).txs|
  {
  }

  lemma RowKept(s: Store, step: Step, tx: nat)
    requires tx < |s.txs| && Foreign(step, tx)
    ensures tx < |Next(s, step).txs| && Next(s, step).txs[tx] == s.txs[tx] && |s.txs| <= |Next(s, step).txs|
    ensures HoldsRow(s, tx) ==> HoldsRow(Next(s, step), tx)
  {
    TransactionKept(s, step, tx);
  }

  lemma ForeignStatement(s: Store, step: Step, tx: nat)
    requires tx < |s.txs| && Foreign(step, tx) && !Commits(s, step)
    ensures Untouched(s, Next(s, step), tx)
  {
    StatementChangesNothing(s, step);
    RowKept(s, step, tx);
  }

  lemma ForeignStepKeeps(initial: map<Pair, bool>, s: Store, step: Step, tx: nat)
    requires Inv(initial, s) && tx < |s.txs| && Foreign(step, tx)
    ensures Untouched(s, Next(s, step), tx) && Inv(initial, Next(s, step))
  {
    if Commits(s, step) {
      ForeignCommit(initial, s, step.tx, tx);
    } else {
      ForeignStatement(s, step, tx);
    }
    InvStep(initial, s, step);
  }

  lemma {:induction false} ForeignKeeps(initial: map<Pair, bool>, s: Store, steps: seq<Step>, tx: nat)
    requires Inv(initial, s) && tx < |s.txs| && AllForeign(steps, tx)
    ensures Untouched(s, Exec(s, steps), tx) && Inv(initial, Exec(s, steps))
  {
    if steps != [] {
      ForeignKeeps(initial, s, steps[..|steps| - 1], tx);
      ForeignStepKeeps(initial, Exec(s, steps[..|steps| - 1]), steps[|steps| - 1], tx);
    }
  }

  lemma {:induction false} ExecConcat(s: Store, a: seq<Step>, b: seq<Step>)
    ensures Exec(s, a + b) == Exec(Exec(s, a), b)
    decreases |b|
  {
    if b == [] {
      assert a + b == a;
    } else {
      ExecConcat(s, a, b[..|b| - 1]);
      assert (a + b)[..|a + b| - 1] == a + b[..|b| - 1];
    }
  }

  ghost predicate Leads(s: Store, trace: seq<Step>, r: Store) {
    r == Exec(s, trace)
  }

  lemma Stepped(initial: map<Pair, bool>, s: Store, step: Step)
    requires Inv(initial, s)
    ensures Inv(initial, Next(s, step)) && Leads(s, [step], Next(s, step))
  {
    InvStep(initial, s, step);
    assert [step][..0] == [];
  }

  lemma Join(s: Store, a: seq<Step>, m: Store, b: seq<Step>, r: Store) returns (joined: seq<Step>)
    requires Leads(s, a, m) && Leads(m, b, r)
    ensures joined == a + b && Leads(s, joined, r)
  {
    joined := a + b;
    ExecConcat(s, a, b);
  }

  /** Whether the write affects a row of these assignments. */
  function WriteVerdict(assignments: map<Pair, bool>, change: Change): Option<Problem> {
    if Effective(assignments, change) then None else Some(if change.kind.Assigned? then AlreadyAssigned else NotAssigned)
  }

  /** The guard on the last administrator comes before the write. */
  function CheckedVerdict(assignments: map<Pair, bool>, change: Change): Option<Problem> {
    if NeedsCount(change) && |Holders(assignments, change.role)| <= 1 then Some(LastAdministrator)
    else WriteVerdict(assignments, change)
  }

  /** What an undisturbed change meets. */
  function Verdict(s: Store, change: Change): Option<Problem> {
    if change.target == change.actor then Some(SelfChange)
    else if change.role !in s.roles || !s.roles[change.role] then Some(RoleNotFound)
    else CheckedVerdict(s.assignments, change)
  }

  /** The table has a row for the pair, and the row is active. */
  predicate RowActive(assignments: map<Pair, bool>, actor: string, role: string) {
    Pair(actor, role) in assignments && assignments[Pair(actor, role)]
  }

  /**
   Somebody else changes an active role: an assignment of somebody without an active row, which may have
   been revoked before; or a revocation of an active row, and of an administrator only if there is another.
   */
  ghost predicate Permitted(roles: map<string, bool>, assignments: map<Pair, bool>, change: Change) {
    && change.actor != change.target
    && change.role in roles && roles[change.role]
    && RowActive(assignments, change.target, change.role) == change.kind.Revoked?
    && (change.kind.Revoked? && change.role == "tenant_administrator" ==>
          exists other :: other != change.target && RowActive(assignments, other, change.role))
  }

  lemma OneHolder(assignments: map<Pair, bool>, role: string, actor: string)
    requires RowActive(assignments, actor, role)
    ensures |Holders(assignments, role)| <= 1 <==> forall other :: other != actor ==> !RowActive(assignments, other, role)
  {
    var holders := Holders(assignments, role);
    HolderIsActive(assignments, actor, role);
    forall other
      ensures other in holders <==> RowActive(assignments, other, role)
    {
      HolderIsActive(assignments, other, role);
    }
    if |holders| <= 1 {
      assert |holders - {actor}| == |holders| - 1;
      assert holders - {actor} == {};
    } else if forall other :: other != actor ==> !RowActive(assignments, other, role) {
      SubsetOfOne(holders, actor);
    }
  }

  /** An undisturbed change succeeds exactly when it is permitted. */
  lemma PermittedChanges(s: Store, change: Change)
    ensures Verdict(s, change).None? <==> Permitted(s.roles, s.assignments, change)
  {
    if RowActive(s.assignments, change.target, change.role) {
      OneHolder(s.assignments, change.role, change.target);
    }
  }

  /** Each refusal has its cause, and the causes are looked at in this order. */
  lemma RefusalsHaveCauses(s: Store, change: Change)
    ensures Verdict(s, change) == Some(SelfChange) <==> change.target == change.actor
    ensures Verdict(s, change) == Some(RoleNotFound) <==>
      change.target != change.actor && !(change.role in s.roles && s.roles[change.role])
    ensures Verdict(s, change) == Some(AlreadyAssigned) ==>
      change.kind.Assigned? && RowActive(s.assignments, change.target, change.role)
    ensures Verdict(s, change) == Some(NotAssigned) ==>
      change.kind.Revoked? && !RowActive(s.assignments, change.target, change.role)
    ensures Verdict(s, change) == Some(LastAdministrator) <==>
      && change.target != change.actor && change.role in s.roles && s.roles[change.role]
      && change.kind.Revoked? && change.role == "tenant_administrator" && |Holders(s.assignments, change.role)| <= 1
  {
  }

  lemma LastChangeStands(initial: map<Pair, bool>, s: Store, change: Change)
    requires Inv(initial, s) && s.log != [] && s.log[|s.log| - 1] == change
    ensures RowActive(s.assignments, change.target, change.role) == change.kind.Assigned?
  {
  }

  /** Nobody else gets in between, nobody holds the role row, and the commit goes through. */
  predicate Undisturbed(around: Surroundings, locks: map<string, nat>, role: string) {
    && around.beforeLock == [] && around.beforeCount == [] && around.beforeWrite == []
    && around.fate.Durable? && role !in locks
  }

  class RoleTables {
    ghost const initial: map<Pair, bool>
    var roles: map<string, bool>
    var assignments: map<Pair, bool>
    var locks: map<string, nat>
    var txs: seq<Transaction>
    var log: seq<Change>

    function State(): Store
      reads this
    {
      Store(roles, assignments, locks, txs, log)
    }

    ghost predicate Valid()
      reads this
    {
      Inv(initial, State())
    }

    /** The tables of a tenant as provisioned. */
    constructor (roles: map<string, bool>, administrator: string)
      ensures Valid() && State() == Provisioned(roles, administrator)
    {
      var start := Provisioned(roles, administrator);
      ProvisionedHolds(roles, administrator);
      this.initial := start.assignments;
      this.roles, assignments, locks, txs, log := start.roles, start.assignments, start.locks, start.txs, start.log;
    }

    method Become(s: Store)
      modifies this
      ensures State() == s
    {
      roles, assignments, locks, txs, log := s.roles, s.assignments, s.locks, s.txs, s.log;
    }

    /** What everybody else does before this transaction's next statement. */
    method Interfere(tx: nat, steps: seq<Step>)
      requires Valid() && tx < |txs| && AllForeign(steps, tx)
      modifies this
      ensures Valid() && Leads(old(State()), steps, State()) && Untouched(old(State()), State(), tx)
      ensures steps == [] ==> State() == old(State())
    {
      ForeignKeeps(initial, State(), steps, tx);
      Become(Exec(State(), steps));
    }

    method Begin(change: Change) returns (tx: nat)
      requires Valid() && change.actor != change.target
      modifies this
      ensures Valid() && Leads(old(State()), [Step.Begin(change)], State())
      ensures tx == |old(txs)| && State() == old(State()).(txs := old(txs) + [Transaction(change, Waiting)])
    {
      Stepped(initial, State(), Step.Begin(change));
      tx := |txs|;
      txs := txs + [Transaction(change, Waiting)];
    }

    method Rollback(tx: nat)
      requires Valid() && tx < |txs| && !txs[tx].phase.Closed?
      modifies this
      ensures Valid() && Leads(old(State()), [Step.Abort(tx)], State()) && State() == Close(old(State()), tx)
    {
      Stepped(initial, State(), Step.Abort(tx));
      Become(Close(State(), tx));
    }

    /** SELECT ... FOR UPDATE of the role row; absent or inactive roles end the transaction. */
    method FindByCode(tx: nat) returns (found: bool, waits: bool)
      requires Valid() && tx < |txs| && txs[tx].phase.Waiting?
      modifies this
      ensures Valid() && Leads(old(State()), [Step.Lock(tx)], State())
      ensures waits == (old(txs)[tx].change.role in old(locks))
      ensures found == (!waits && old(txs)[tx].change.role in old(roles) && old(roles)[old(txs)[tx].change.role])
      ensures assignments == old(assignments) && log == old(log) && roles == old(roles) && |txs| == |old(txs)|
      ensures txs[tx] == old(txs)[tx].(phase := if waits then Waiting else if found then Locked else Closed)
      ensures found ==> HoldsRow(State(), tx)
    {
      Stepped(initial, State(), Step.Lock(tx));
      var role := txs[tx].change.role;
      if role in locks {
        return false, true;
      }
      if role !in roles || !roles[role] {
        txs := txs[tx := txs[tx].(phase := Closed)];
        return false, false;
      }
      locks, txs := locks[role := tx], txs[tx := txs[tx].(phase := Locked)];
      return true, false;
    }

    /** SELECT count(*) of the active holders; at most one ends the transaction. */
    method CountActiveHolders(tx: nat) returns (holders: nat)
      requires Valid() && tx < |txs| && txs[tx].phase.Locked? && NeedsCount(txs[tx].change)
      modifies this
      ensures Valid() && Leads(old(State()), [Step.Count(tx)], State())
      ensures holders == |Holders(old(assignments), old(txs)[tx].change.role)|
      ensures assignments == old(assignments) && log == old(log) && |txs| == |old(txs)|
      ensures txs[tx] == old(txs)[tx].(phase := if holders <= 1 then Closed else Counted)
      ensures holders > 1 ==> State() == Put(old(State()), tx, Counted)
    {
      Stepped(initial, State(), Step.Count(tx));
      holders := |Holders(assignments, txs[tx].change.role)|;
      Become(if holders <= 1 then Close(State(), tx) else Put(State(), tx, Counted));
    }

    /** The upsert of an assignment, or the update that revokes one; no affected row ends the transaction. */
    method WriteAssignment(tx: nat) returns (rowCount: nat)
      requires Valid() && tx < |txs| && MayWrite(txs[tx])
      modifies this
      ensures Valid() && Leads(old(State()), [Step.Write(tx)], State())
      ensures var change := old(txs)[tx].change;
        rowCount == if RowActive(old(assignments), change.target, change.role) == change.kind.Revoked? then 1 else 0
      ensures assignments == old(assignments) && log == old(log) && |txs| == |old(txs)|
      ensures txs[tx] == old(txs)[tx].(phase := if rowCount == 1 then Wrote else Closed)
    {
      Stepped(initial, State(), Step.Write(tx));
      rowCount := if Effective(assignments, txs[tx].change) then 1 else 0;
      Become(if rowCount == 1 then Put(State(), tx, Wrote) else Close(State(), tx));
    }

    method Commit(tx: nat)
      requires Valid() && tx < |txs| && txs[tx].phase.Wrote?
      modifies this
      ensures Valid() && Leads(old(State()), [Step.Commit(tx)], State())
      ensures var change := old(txs)[tx].change;
        assignments == old(assignments)[Pair(change.target, change.role) := change.kind.Assigned?] && log == old(log) + [change]
      ensures |txs| == |old(txs)| && txs[tx].phase.Closed?
    {
      Stepped(initial, State(), Step.Commit(tx));
      Become(StepOf(State(), Step.Commit(tx), txs[tx]));
    }

    /** Others act, then the lock; a wait that never ends is an error. */
    method LockAmong(tx: nat, before: seq<Step>) returns (problem: Option<Problem>, ghost trace: seq<Step>)
      requires Valid() && tx < |txs| && txs[tx].phase.Waiting? && AllForeign(before, tx)
      modifies this
      ensures Valid() && Leads(old(State()), trace, State()) && |old(log)| <= |log|
      ensures tx < |txs| && txs[tx] == old(txs)[tx].(phase := if problem.None? then Locked else Closed)
      ensures problem.None? ==> HoldsRow(State(), tx)
      ensures problem.None? || problem.value.RoleNotFound? || problem.value.Interrupted?
      ensures before == [] && old(txs)[tx].change.role !in old(locks) ==>
        assignments == old(assignments)
        && problem == if old(txs)[tx].change.role in old(roles) && old(roles)[old(txs)[tx].change.role] then None else Some(RoleNotFound)
    {
      ghost var start := State();
      Interfere(tx, before);
      ghost var s := State();
      var found, waits := FindByCode(tx);
      trace := Join(start, before, s, [Step.Lock(tx)], State());
      if waits {
        s := State();
        Rollback(tx);
        trace := Join(start, trace, s, [Step.Abort(tx)], State());
        return Some(Interrupted), trace;
      }
      problem := if found then None else Some(RoleNotFound);
    }

    /** Others act, then, for a revocation of the administrator role, the guard on the last holder. */
    method GuardAmong(tx: nat, before: seq<Step>) returns (problem: Option<Problem>, ghost trace: seq<Step>)
      requires Valid() && tx < |txs| && txs[tx].phase.Locked? && HoldsRow(State(), tx) && AllForeign(before, tx)
      modifies this
      ensures Valid() && Leads(old(State()), trace, State()) && |old(log)| <= |log|
      ensures tx < |txs| && txs[tx].change == old(txs)[tx].change
      ensures if problem.None? then MayWrite(txs[tx]) else txs[tx].phase.Closed?
      ensures problem.None? || problem.value.LastAdministrator?
      ensures problem.Some? <==> NeedsCount(txs[tx].change) && |Holders(old(assignments), txs[tx].change.role)| <= 1
      ensures before == [] ==> assignments == old(assignments)
    {
      ghost var start := State();
      Interfere(tx, before);
      trace := before;
      if !NeedsCount(txs[tx].change) {
        return None, trace;
      }
      ghost var s := State();
      var holders := CountActiveHolders(tx);
      trace := Join(start, before, s, [Step.Count(tx)], State());
      problem := if holders <= 1 then Some(LastAdministrator) else None;
    }

    /** Others act, then the assignment row is written. */
    method WriteAmong(tx: nat, before: seq<Step>) returns (problem: Option<Problem>, ghost trace: seq<Step>)
      requires Valid() && tx < |txs| && MayWrite(txs[tx]) && AllForeign(before, tx)
      modifies this
      ensures Valid() && Leads(old(State()), trace, State()) && |old(log)| <= |log|
      ensures tx < |txs| && txs[tx] == old(txs)[tx].(phase := if problem.None? then Wrote else Closed)
      ensures problem.None? || problem.value.AlreadyAssigned? || problem.value.NotAssigned?
      ensures before == [] ==> problem == WriteVerdict(old(assignments), old(txs)[tx].change)
    {
      ghost var start := State();
      Interfere(tx, before);
      ghost var s := State();
      var change := txs[tx].change;
      var rowCount := WriteAssignment(tx);
      trace := Join(start, before, s, [Step.Write(tx)], State());
      problem := if rowCount == 1 then None else Some(if change.kind.Assigned? then AlreadyAssigned else NotAssigned);
    }

    /** Others act, then the change commits with its audit fact and event, or fails to, or commits while its caller is told that it failed. */
    method CommitAmong(tx: nat, before: seq<Step>, fate: CommitFate) returns (problem: Option<Problem>, ghost trace: seq<Step>)
      requires Valid() && tx < |txs| && txs[tx].phase.Wrote? && AllForeign(before, tx)
      modifies this
      ensures Valid() && Leads(old(State()), trace, State()) && tx < |txs| && txs[tx].phase.Closed?
      ensures problem == match fate case Durable => None case DurableUnacknowledged => Some(Unacknowledged) case NotDurable => Some(Interrupted)
      ensures !fate.NotDurable? ==> LastOf(old(log), log, old(txs)[tx].change)
    {
      ghost var start := State();
      Interfere(tx, before);
      ghost var s := State();
      if fate.NotDurable? {
        Rollback(tx);
        trace := Join(start, before, s, [Step.Abort(tx)], State());
        return Some(Interrupted), trace;
      }
      Commit(tx);
      trace := Join(start, before, s, [Step.Commit(tx)], State());
      problem := if fate.Durable? then None else Some(Unacknowledged);
    }

    /** Writes and commits a change that passed its checks. */
    method Finish(tx: nat, around: Surroundings) returns (problem: Option<Problem>, ghost trace: seq<Step>)
      requires Valid() && tx < |txs| && MayWrite(txs[tx]) && SurroundedByOthers(around, tx)
      modifies this
      ensures Valid() && Leads(old(State()), trace, State())
      ensures TookEffect(problem) ==> LastOf(old(log), log, old(txs)[tx].change)
      ensures around.beforeWrite == [] && around.fate.Durable? ==> problem == WriteVerdict(old(assignments), old(txs)[tx].change)
    {
      ghost var start, more := State(), [];
      problem, trace := WriteAmong(tx, around.beforeWrite);
      if problem.Some? {
        return;
      }
      ghost var s := State();
      problem, more := CommitAmong(tx, around.beforeCommit, around.fate);
      trace := Join(start, trace, s, more, State());
    }

    /** The guard, then the write and the commit, for a change whose role row is locked. */
    method GuardAndFinish(tx: nat, around: Surroundings) returns (problem: Option<Problem>, ghost trace: seq<Step>)
      requires Valid() && tx < |txs| && txs[tx].phase.Locked? && HoldsRow(State(), tx) && SurroundedByOthers(around, tx)
      modifies this
      ensures Valid() && Leads(old(State()), trace, State())
      ensures TookEffect(problem) ==> LastOf(old(log), log, old(txs)[tx].change)
      ensures around.beforeCount == [] && around.beforeWrite == [] && around.fate.Durable? ==>
        problem == CheckedVerdict(old(assignments), old(txs)[tx].change)
    {
      ghost var start, more := State(), [];
      problem, trace := GuardAmong(tx, around.beforeCount);
      if problem.Some? {
        return;
      }
      ghost var s := State();
      problem, more := Finish(tx, around);
      trace := Join(start, trace, s, more, State());
    }
  }

  /** The change was committed after this log, and last. */
  predicate LastOf(before: seq<Change>, log: seq<Change>, change: Change) {
    |before| < |log| && log[|log| - 1] == change
  }

  /** The change was committed, whether or not its caller knows. */
  predicate TookEffect(problem: Option<Problem>) {
    problem.None? || problem.value.Unacknowledged?
  }

  /** Role administration after the caller's permission was checked. */
  class Administration {
    const tables: RoleTables

    constructor (tables: RoleTables)
      ensures this.tables == tables
    {
      this.tables := tables;
    }

    /**
     Assigns or revokes one role in one transaction. Success means that the change was the last one
     committed, and so does an error after a commit that was not acknowledged; an undisturbed change gets exactly the verdict of the committed state.
     */
    method Perform(change: Change, around: Surroundings) returns (problem: Option<Problem>, ghost trace: seq<Step>)
      requires tables.Valid() && SurroundedByOthers(around, |tables.txs|)
      modifies tables
      ensures tables.Valid() && Leads(old(tables.State()), trace, tables.State())
      ensures change.target == change.actor ==> problem == Some(SelfChange) && tables.State() == old(tables.State())
      ensures TookEffect(problem) ==> LastOf(old(tables.log), tables.log, change)
      ensures TookEffect(problem) ==> RowActive(tables.assignments, change.target, change.role) == change.kind.Assigned?
      ensures Undisturbed(around, old(tables.locks), change.role) ==> problem == Verdict(old(tables.State()), change)
      ensures Undisturbed(around, old(tables.locks), change.role) ==>
        (problem.None? <==> Permitted(old(tables.roles), old(tables.assignments), change))
    {
      trace := [];
      PermittedChanges(tables.State(), change);
      if change.target == change.actor {
        return Some(SelfChange), trace;
      }
      ghost var start, more := tables.State(), [];
      var tx := tables.Begin(change);
      ghost var s := tables.State();
      problem, more := tables.LockAmong(tx, around.beforeLock);
      trace := Join(start, [Step.Begin(change)], s, more, tables.State());
      if problem.Some? {
        return;
      }
      s := tables.State();
      problem, more := tables.GuardAndFinish(tx, around);
      trace := Join(start, trace, s, more, tables.State());
      if TookEffect(problem) {
        LastChangeStands(tables.initial, tables.State(), change);
      }
    }
  }
}
