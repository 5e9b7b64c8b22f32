/**
 Role assignment and revocation within one tenant, by concurrent transactions that lock the role row.
 Each statement sees what is committed. The main result is that the last administrator stays.
 */
module Administrators {
  import opened Wrappers

  const ADMINISTRATOR := "tenant_administrator"

  datatype Kind = Assigned | Revoked

  datatype Change = Change(actor: string, target: string, role: string, kind: Kind)

  /** An assignment's key. A revoked assignment keeps its row and can be reactivated. */
  datatype Pair = Pair(actor: string, role: string)

  datatype Phase = Waiting | Locked | Counted | Wrote | Closed

  datatype Transaction = Transaction(change: Change, phase: Phase)

  /** `roles` says which roles exist and are active; `locks` says which transaction holds a role's row. */
  datatype Store = Store(
    roles: map<string, bool>,
    assignments: map<Pair, bool>,
    locks: map<string, nat>,
    txs: seq<Transaction>,
    log: seq<Change>)

  /** A tenant as provisioned: the administrator role is active and held by the initial administrator. */
  function Provisioned(roles: map<string, bool>, administrator: string): Store {
    Store(roles[ADMINISTRATOR := true], map[Pair(administrator, ADMINISTRATOR) := true], map[], [], [])
  }

  datatype Step = Begin(change: Change) | Lock(tx: nat) | Count(tx: nat) | Write(tx: nat) | Commit(tx: nat) | Abort(tx: nat)

  predicate Active(assignments: map<Pair, bool>, actor: string, role: string) {
    Pair(actor, role) in assignments && assignments[Pair(actor, role)]
  }

  function Holders(assignments: map<Pair, bool>, role: string): set<string> {
    set p | p in assignments && p.role == role && assignments[p] :: p.actor
  }

  function Put(s: Store, tx: nat, phase: Phase): Store
    requires tx < |s.txs|
  {
    s.(txs := s.txs[tx := s.txs[tx].(phase := phase)])
  }

  /** The end of a transaction releases the role row it holds. */
  function Close(s: Store, tx: nat): Store
    requires tx < |s.txs|
  {
    var role := s.txs[tx].change.role;
    var locks := if role in s.locks && s.locks[role] == tx then s.locks - {role} else s.locks;
    Put(s, tx, Closed).(locks := locks)
  }

  /** Revoking the administrator role needs the count first. */
  predicate NeedsCount(change: Change) {
    change.kind.Revoked? && change.role == ADMINISTRATOR
  }

  predicate MayWrite(t: Transaction) {
    if NeedsCount(t.change) then t.phase.Counted? else t.phase.Locked?
  }

  /** An assignment must be new or revoked, a revocation must meet an active assignment. */
  predicate Effective(assignments: map<Pair, bool>, change: Change) {
    Active(assignments, change.target, change.role) <==> change.kind.Revoked?
  }

  function Applied(assignments: map<Pair, bool>, change: Change): map<Pair, bool> {
    assignments[Pair(change.target, change.role) := change.kind.Assigned?]
  }

  /** One statement; a step that is not enabled, or has to wait for the role row, changes nothing. */
  function Next(s: Store, step: Step): Store {
    if step.Begin? then
      if step.change.target == step.change.actor then s else s.(txs := s.txs + [Transaction(step.change, Waiting)])
    else if step.tx >= |s.txs| then s
    else StepOf(s, step, s.txs[step.tx])
  }

  function StepOf(s: Store, step: Step, t: Transaction): Store
    requires !step.Begin? && step.tx < |s.txs|
  {
    match step
    case Lock(tx) =>
      if !t.phase.Waiting? || t.change.role in s.locks then s
      else if t.change.role !in s.roles || !s.roles[t.change.role] then Close(s, tx)
      else Put(s, tx, Locked).(locks := s.locks[t.change.role := tx])
    case Count(tx) =>
      if !t.phase.Locked? || !NeedsCount(t.change) then s
      else if |Holders(s.assignments, t.change.role)| <= 1 then Close(s, tx)
      else Put(s, tx, Counted)
    case Write(tx) =>
      if !MayWrite(t) then s
      else if Effective(s.assignments, t.change) then Put(s, tx, Wrote)
      else Close(s, tx)
    case Commit(tx) =>
      if !t.phase.Wrote? then s
      else Close(s, tx).(assignments := Applied(s.assignments, t.change), log := s.log + [t.change])
    case Abort(tx) =>
      if t.phase.Closed? then s else Close(s, tx)
  }

  function Exec(s: Store, steps: seq<Step>): Store {
    if steps == [] then s else Next(Exec(s, steps[..|steps| - 1]), steps[|steps| - 1])
  }

  // ----- The invariant -----

  predicate HoldsRow(s: Store, tx: nat)
    requires tx < |s.txs|
  {
    s.txs[tx].change.role in s.locks && s.locks[s.txs[tx].change.role] == tx
  }

  /** What a transaction knows stays true because nobody else can change its role meanwhile. */
  predicate TransactionHolds(s: Store, tx: nat)
    requires tx < |s.txs|
  {
    var t := s.txs[tx];
    && t.change.actor != t.change.target
    && (t.phase in {Locked, Counted, Wrote} ==> HoldsRow(s, tx))
    && (t.phase.Wrote? ==> Effective(s.assignments, t.change))
    && (NeedsCount(t.change) && t.phase in {Counted, Wrote} ==> |Holders(s.assignments, ADMINISTRATOR)| >= 2)
  }

  function Replayed(initial: map<Pair, bool>, log: seq<Change>): map<Pair, bool> {
    if log == [] then initial else Applied(Replayed(initial, log[..|log| - 1]), log[|log| - 1])
  }

  /** Every committed change was by somebody else and changed something. */
  predicate LogHolds(initial: map<Pair, bool>, log: seq<Change>) {
    forall k :: 0 <= k < |log| ==> log[k].actor != log[k].target && Effective(Replayed(initial, log[..k]), log[k])
  }

  ghost predicate Inv(initial: map<Pair, bool>, s: Store) {
    && Holders(s.assignments, ADMINISTRATOR) != {}
    && s.assignments == Replayed(initial, s.log) && LogHolds(initial, s.log)
    && forall tx :: 0 <= tx < |s.txs| ==> TransactionHolds(s, tx)
  }

  // ----- Holders -----

  lemma HoldersAfter(assignments: map<Pair, bool>, change: Change, role: string)
    ensures Holders(Applied(assignments, change), role) ==
      if change.role != role then Holders(assignments, role)
      else if change.kind.Assigned? then Holders(assignments, role) + {change.target}
      else Holders(assignments, role) - {change.target}
  {
    var after := Applied(assignments, change);
    forall actor
      ensures actor in Holders(after, role) <==> Active(after, actor, role)
      ensures actor in Holders(assignments, role) <==> Active(assignments, actor, role)
    {
      HolderIsActive(after, actor, role);
      HolderIsActive(assignments, actor, role);
    }
  }

  lemma HolderIsActive(assignments: map<Pair, bool>, actor: string, role: string)
    ensures actor in Holders(assignments, role) <==> Active(assignments, actor, role)
  {
    if Active(assignments, actor, role) {
      assert Pair(actor, role) in assignments;
    }
  }

  /** A commit leaves an administrator: either it does not revoke one, or there were two. */
  lemma AdministratorStays(s: Store, tx: nat)
    requires tx < |s.txs| && TransactionHolds(s, tx) && s.txs[tx].phase.Wrote? && Holders(s.assignments, ADMINISTRATOR) != {}
    ensures Holders(Applied(s.assignments, s.txs[tx].change), ADMINISTRATOR) != {}
  {
    var change := s.txs[tx].change;
    HoldersAfter(s.assignments, change, ADMINISTRATOR);
    if NeedsCount(change) {
      var holders := Holders(s.assignments, ADMINISTRATOR);
      if holders - {change.target} == {} {
        assert holders <= {change.target};
        SubsetOfOne(holders, change.target);
      }
    } else if change.role == ADMINISTRATOR {
      assert change.target in Holders(s.assignments, ADMINISTRATOR) + {change.target};
    }
  }

  lemma SubsetOfOne(a: set<string>, x: string)
    requires a <= {x}
    ensures |a| <= 1
  {
    assert a == {} || a == {x};
  }

  // ----- Every step keeps the invariant -----

  /** Two transactions never hold the same role row. */
  lemma OthersKept(s: Store, r: Store, tx: nat, u: nat)
    requires tx < |s.txs| == |r.txs| && u < |s.txs| && u != tx && r.txs[u] == s.txs[u] && TransactionHolds(s, u)
    requires HoldsRow(s, u) ==> HoldsRow(r, u)
    requires r.assignments == s.assignments
    ensures TransactionHolds(r, u)
  {
  }

  lemma QuietStep(initial: map<Pair, bool>, s: Store, r: Store, tx: nat)
    requires Inv(initial, s) && tx < |s.txs| == |r.txs| && r.assignments == s.assignments && r.log == s.log
    requires forall u :: 0 <= u < |s.txs| && u != tx ==> r.txs[u] == s.txs[u] && (HoldsRow(s, u) ==> HoldsRow(r, u))
    requires TransactionHolds(r, tx)
    ensures Inv(initial, r)
  {
    forall u | 0 <= u < |r.txs|
      ensures TransactionHolds(r, u)
    {
      if u != tx {
        OthersKept(s, r, tx, u);
      }
    }
  }

  lemma CloseKeeps(initial: map<Pair, bool>, s: Store, tx: nat)
    requires Inv(initial, s) && tx < |s.txs|
    ensures Inv(initial, Close(s, tx))
  {
    assert TransactionHolds(s, tx);
    QuietStep(initial, s, Close(s, tx), tx);
  }

  lemma StatementKeeps(initial: map<Pair, bool>, s: Store, step: Step)
    requires Inv(initial, s) && !step.Begin? && !step.Commit? && step.tx < |s.txs|
    ensures Inv(initial, StepOf(s, step, s.txs[step.tx]))
  {
    var r := StepOf(s, step, s.txs[step.tx]);
    assert TransactionHolds(s, step.tx);
    if r == Close(s, step.tx) {
      CloseKeeps(initial, s, step.tx);
    } else if r != s {
      QuietStep(initial, s, r, step.tx);
    }
  }

  lemma LogGrows(initial: map<Pair, bool>, log: seq<Change>, change: Change)
    requires LogHolds(initial, log) && change.actor != change.target && Effective(Replayed(initial, log), change)
    ensures LogHolds(initial, log + [change])
    ensures Replayed(initial, log + [change]) == Applied(Replayed(initial, log), change)
  {
    var longer := log + [change];
    assert longer[..|log|] == log;
    forall k | 0 <= k < |longer|
      ensures longer[k].actor != longer[k].target && Effective(Replayed(initial, longer[..k]), longer[k])
    {
      assert k < |log| ==> longer[..k] == log[..k];
    }
  }

  /** Two transactions past the lock are about different roles. */
  lemma DifferentRoles(s: Store, tx: nat, u: nat)
    requires tx < |s.txs| && u < |s.txs| && u != tx && HoldsRow(s, tx) && HoldsRow(s, u)
    ensures s.txs[tx].change.role != s.txs[u].change.role
  {
  }

  /** A change to one role leaves what is known about another. */
  lemma OtherRoleUnchanged(assignments: map<Pair, bool>, change: Change, other: Change)
    requires change.role != other.role
    ensures Effective(Applied(assignments, change), other) <==> Effective(assignments, other)
    ensures Holders(Applied(assignments, change), other.role) == Holders(assignments, other.role)
  {
    HoldersAfter(assignments, change, other.role);
  }

  lemma CommitLeavesOthers(s: Store, tx: nat, u: nat)
    requires tx < |s.txs| && u < |s.txs| && u != tx && TransactionHolds(s, tx) && TransactionHolds(s, u) && s.txs[tx].phase.Wrote?
    ensures TransactionHolds(StepOf(s, Commit(tx), s.txs[tx]), u)
  {
    if s.txs[u].phase in {Locked, Counted, Wrote} {
      DifferentRoles(s, tx, u);
      OtherRoleUnchanged(s.assignments, s.txs[tx].change, s.txs[u].change);
    }
  }

  lemma CommitKeeps(initial: map<Pair, bool>, s: Store, tx: nat)
    requires Inv(initial, s) && tx < |s.txs| && s.txs[tx].phase.Wrote?
    ensures Inv(initial, StepOf(s, Commit(tx), s.txs[tx]))
  {
    var r := StepOf(s, Commit(tx), s.txs[tx]);
    assert TransactionHolds(s, tx);
    AdministratorStays(s, tx);
    LogGrows(initial, s.log, s.txs[tx].change);
    forall u | 0 <= u < |r.txs|
      ensures TransactionHolds(r, u)
    {
      if u != tx {
        CommitLeavesOthers(s, tx, u);
      }
    }
  }

  lemma BeginKeeps(initial: map<Pair, bool>, s: Store, change: Change)
    requires Inv(initial, s)
    ensures Inv(initial, Next(s, Begin(change)))
  {
    var r := Next(s, Begin(change));
    forall u | 0 <= u < |r.txs|
      ensures TransactionHolds(r, u)
    {
      if u < |s.txs| {
        assert TransactionHolds(s, u);
      }
    }
  }

  lemma InvStep(initial: map<Pair, bool>, s: Store, step: Step)
    requires Inv(initial, s)
    ensures Inv(initial, Next(s, step))
  {
    if step.Begin? {
      BeginKeeps(initial, s, step.change);
    } else if step.tx < |s.txs| {
      if step.Commit? {
        if s.txs[step.tx].phase.Wrote? {
          CommitKeeps(initial, s, step.tx);
        }
      } else {
        StatementKeeps(initial, s, step);
      }
    }
  }

  lemma {:induction false} InvAlways(initial: map<Pair, bool>, s: Store, steps: seq<Step>)
    requires Inv(initial, s)
    ensures Inv(initial, Exec(s, steps))
  {
    if steps != [] {
      InvAlways(initial, s, steps[..|steps| - 1]);
      InvStep(initial, Exec(s, steps[..|steps| - 1]), steps[|steps| - 1]);
    }
  }

  // ----- The main results, for every interleaving from a provisioned tenant -----

  lemma ProvisionedHolds(roles: map<string, bool>, administrator: string)
    ensures Inv(map[Pair(administrator, ADMINISTRATOR) := true], Provisioned(roles, administrator))
  {
    HolderIsActive(map[Pair(administrator, ADMINISTRATOR) := true], administrator, ADMINISTRATOR);
  }

  /** Every committed state has an active administrator. */
  lemma SomeAdministratorAlways(roles: map<string, bool>, administrator: string, steps: seq<Step>)
    ensures Holders(Exec(Provisioned(roles, administrator), steps).assignments, ADMINISTRATOR) != {}
  {
    ProvisionedHolds(roles, administrator);
    InvAlways(map[Pair(administrator, ADMINISTRATOR) := true], Provisioned(roles, administrator), steps);
  }

  /**
   The committed assignments are what the committed changes made of the initial one, in order; nobody
   changed their own role, and no change was idle.
   */
  lemma AssignmentsReplayTheLog(roles: map<string, bool>, administrator: string, steps: seq<Step>)
    ensures var s := Exec(Provisioned(roles, administrator), steps);
      var initial := map[Pair(administrator, ADMINISTRATOR) := true];
      s.assignments == Replayed(initial, s.log) && LogHolds(initial, s.log)
  {
    ProvisionedHolds(roles, administrator);
    InvAlways(map[Pair(administrator, ADMINISTRATOR) := true], Provisioned(roles, administrator), steps);
  }

  /** At every point of the committed history there was an administrator, not only at the end. */
  lemma {:induction false} AdministratorAtEveryPoint(roles: map<string, bool>, administrator: string, steps: seq<Step>, k: nat)
    requires k <= |Exec(Provisioned(roles, administrator), steps).log|
    ensures var s := Exec(Provisioned(roles, administrator), steps);
      Holders(Replayed(map[Pair(administrator, ADMINISTRATOR) := true], s.log[..k]), ADMINISTRATOR) != {}
    decreases |steps|
  {
    var start := Provisioned(roles, administrator);
    var s := Exec(start, steps);
    if k == |s.log| {
      SomeAdministratorAlways(roles, administrator, steps);
      AssignmentsReplayTheLog(roles, administrator, steps);
      assert s.log[..k] == s.log;
    } else {
      LogOnlyGrows(Exec(start, steps[..|steps| - 1]), steps[|steps| - 1], k);
      AdministratorAtEveryPoint(roles, administrator, steps[..|steps| - 1], k);
    }
  }

  lemma LogOnlyGrows(s: Store, step: Step, k: nat)
    requires k < |Next(s, step).log|
    ensures k <= |s.log| && Next(s, step).log[..k] == s.log[..k]
  {
  }
}
