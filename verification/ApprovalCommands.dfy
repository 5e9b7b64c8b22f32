/** The approval handlers as transactions on the approval row, and the history of a request under concurrent commands. */
module ApprovalCommands {
  import opened Wrappers
  import opened Approval
  import VersionChain
  import opened VersionedRow

  /** What the handlers do; nothing runs the expiry of a request. */
  datatype Command =
    | ProposeAs(id: string, target: Target, policy: Policy, maker: string, now: int)
    | DecideAt(input: Input, now: int)
    | WithdrawBy(actor: string, expectedVersion: int, now: int)

  // ----- What the handlers record -----

  datatype EventType = Requested | WasDecided | WasCancelled

  /** The event as it is appended to the outbox. */
  datatype Envelope = Envelope(
    eventType: EventType,
    aggregateId: string,
    aggregateVersion: int,
    occurredAt: int,
    actionType: string,
    status: Status,
    maker: string)

  datatype Action = ApprovalRequested | ApprovalGiven | RejectionGiven | ApprovalCancelled

  datatype Details =
    | Proposed(actionType: string, targetId: string)
    | DecisionTaken(kind: Kind, resultingStatus: Status, previousVersion: int)
    | Withdrawn(previousVersion: int)

  datatype Fact = Fact(action: Action, targetId: string, occurredAt: int, details: Details, status: Status, version: int)

  type Recording = VersionChain.Decision<Request, Envelope, Fact>

  function Record(r: Request, action: Action, eventType: EventType, now: int, details: Details): Recording {
    VersionChain.Decision(
      r, Envelope(eventType, r.id, r.version, now, r.target.actionType, r.status, r.maker), Fact(action, r.id, now, details, r.status, r.version))
  }

  // ----- As a versioned aggregate -----

  function ApplyCommand(current: Option<Request>, command: Command): Option<Recording> {
    match command
    case ProposeAs(id, target, policy, maker, now) =>
      var next := Propose(id, target, policy, maker, now);
      if current.None? && next.Ok? then
        Some(Record(next.value, ApprovalRequested, Requested, now, Proposed(target.actionType, target.targetId)))
      else None
    case DecideAt(input, now) =>
      if current.None? then None
      else
        var next := Decide(current.value, input, now);
        if next.Err? then None
        else
          Some(Record(next.value, if input.kind.Approve? then ApprovalGiven else RejectionGiven, WasDecided, now,
                      DecisionTaken(input.kind, next.value.status, current.value.version)))
    case WithdrawBy(actor, expectedVersion, now) =>
      if current.None? then None
      else
        var next := Cancel(current.value, actor, expectedVersion);
        if next.Err? then None
        else Some(Record(next.value, ApprovalCancelled, WasCancelled, now, Withdrawn(current.value.version)))
  }

  function ApprovalRules(): VersionChain.Rules<Request, Command, Envelope, Fact> {
    VersionChain.Rules((r: Request) => r.version, (e: Envelope) => e.aggregateVersion, (f: Fact) => f.version,
                       (current: Option<Request>, c: Command) => ApplyCommand(current, c))
  }

  type ApprovalStore = VersionChain.Store<Request, Envelope, Fact>

  type ApprovalStep = VersionChain.Step<Command>

  lemma ApprovalsCountVersions()
    ensures VersionChain.CountsVersions(ApprovalRules())
  {
    forall before, c | ApprovalRules().apply(before, c).Some?
      ensures VersionChain.Carries(ApprovalRules(), ApprovalRules().apply(before, c).value,
                                   if before.None? then 1 else before.value.version + 1)
    {
      assert ApprovalRules().apply(before, c) == ApplyCommand(before, c);
    }
  }

  lemma CommandsKeepSound(current: Option<Request>, c: Command)
    requires ApplyCommand(current, c).Some? && (current.Some? ==> Sound(current.value))
    ensures Sound(ApplyCommand(current, c).value.next)
  {
    match c
    case ProposeAs(id, target, policy, maker, now) => ProposalIsSound(id, target, policy, maker, now);
    case DecideAt(input, now) => DecideKeeps(current.value, input, now);
    case WithdrawBy(actor, expectedVersion, _) => ApplyKeeps(current.value, CancelBy(actor, expectedVersion));
  }

  /** Under every interleaving of commands, every committed snapshot of a request keeps the approval rules. */
  lemma EveryCommittedRequestIsSound(steps: seq<ApprovalStep>, i: nat)
    requires i < |VersionChain.Exec(ApprovalRules(), steps).history|
    ensures Sound(VersionChain.Exec(ApprovalRules(), steps).history[i])
    ensures var r := VersionChain.Exec(ApprovalRules(), steps).history[i];
      forall j :: 0 <= j < |r.decisions| ==> r.decisions[j].decidedAt < r.expiresAt
  {
    ApprovalsCountVersions();
    VersionChain.HistoryIsAChain(ApprovalRules(), steps);
    forall current: Option<Request>, c: Command | ApplyCommand(current, c).Some? && (current.Some? ==> Sound(current.value))
      ensures Sound(ApplyCommand(current, c).value.next)
    {
      CommandsKeepSound(current, c);
    }
    VersionChain.HistoryKeeps(ApprovalRules(), VersionChain.Exec(ApprovalRules(), steps), (r: Request) => Sound(r), i);
  }

  // ----- What events and facts tell -----

  /** Event and fact tell the snapshot they were committed with. */
  predicate Tells(event: Envelope, fact: Fact, r: Request) {
    && event.status == fact.status == r.status && event.aggregateVersion == fact.version == r.version
    && event.aggregateId == fact.targetId == r.id && event.maker == r.maker && event.actionType == r.target.actionType
    && event.occurredAt == fact.occurredAt
  }

  /** Exactly the decision events add a decision, and the fact beside them names its kind and outcome. */
  predicate TellsStep(event: Envelope, fact: Fact, before: Option<Request>, r: Request) {
    match event.eventType
    case Requested =>
      && before.None? && r.decisions == [] && r.status.Pending? && event.occurredAt == r.createdAt
      && fact.action.ApprovalRequested? && fact.details == Proposed(r.target.actionType, r.target.targetId)
    case WasDecided =>
      && before.Some? && before.value.status.Pending? && |r.decisions| == |before.value.decisions| + 1
      && r.decisions[..|r.decisions| - 1] == before.value.decisions && event.occurredAt == r.decisions[|r.decisions| - 1].decidedAt
      && fact.details == DecisionTaken(r.decisions[|r.decisions| - 1].kind, r.status, before.value.version)
      && fact.action == (if r.decisions[|r.decisions| - 1].kind.Approve? then ApprovalGiven else RejectionGiven)
    case WasCancelled =>
      && before.Some? && before.value.status.Pending? && r.decisions == before.value.decisions && r.status.Cancelled?
      && fact.action.ApprovalCancelled? && fact.details == Withdrawn(before.value.version)
  }

  lemma FollowsTells(before: Option<Request>, d: Recording)
    requires VersionChain.Follows(ApprovalRules(), before, d)
    ensures Tells(d.event, d.fact, d.next) && TellsStep(d.event, d.fact, before, d.next)
  {
    var c :| ApprovalRules().apply(before, c) == Some(d);
    assert ApplyCommand(before, c) == Some(d);
    if c.DecideAt? {
      var made := DecisionMade(before.value, c.input, c.now);
    }
  }

  /** The time that event and fact carry is the clock reading of their command. */
  lemma RecordedWhenMade(current: Option<Request>, c: Command)
    requires ApplyCommand(current, c).Some?
    ensures ApplyCommand(current, c).value.event.occurredAt == c.now && ApplyCommand(current, c).value.fact.occurredAt == c.now
  {
  }

  lemma TellsAt(s: ApprovalStore, i: nat)
    requires VersionChain.Linked(ApprovalRules(), s) && i < |s.history|
    ensures Tells(s.outbox[i].event, s.audit[i], s.history[i])
    ensures TellsStep(s.outbox[i].event, s.audit[i], if i == 0 then None else Some(s.history[i - 1]), s.history[i])
  {
    if i == 0 {
      VersionChain.LinkedFirst(ApprovalRules(), s);
      FollowsTells(None, VersionChain.Decision(s.history[0], s.outbox[0].event, s.audit[0]));
    } else {
      VersionChain.LinkedTo(ApprovalRules(), s, i);
      FollowsTells(Some(s.history[i - 1]), VersionChain.Decision(s.history[i], s.outbox[i].event, s.audit[i]));
    }
  }

  /** Every event and every fact tells the status and version committed with it, and the last ones those of the row. */
  lemma EventsTellTheRequest(steps: seq<ApprovalStep>)
    ensures var s := VersionChain.Exec(ApprovalRules(), steps);
      && |s.outbox| == |s.audit| == |s.history|
      && (forall i :: 0 <= i < |s.outbox| ==> Tells(s.outbox[i].event, s.audit[i], s.history[i]))
      && (if s.committed.None? then s.outbox == []
          else s.outbox != [] && Tells(s.outbox[|s.outbox| - 1].event, s.audit[|s.audit| - 1], s.committed.value))
  {
    ApprovalsCountVersions();
    VersionChain.HistoryIsAChain(ApprovalRules(), steps);
    var s := VersionChain.Exec(ApprovalRules(), steps);
    forall i | 0 <= i < |s.outbox|
      ensures Tells(s.outbox[i].event, s.audit[i], s.history[i])
    {
      TellsAt(s, i);
    }
  }

  lemma OnlyPendingIsFollowed(s: ApprovalStore, i: nat)
    requires VersionChain.Linked(ApprovalRules(), s) && i + 1 < |s.history|
    ensures s.history[i].status.Pending?
  {
    TellsAt(s, i + 1);
  }

  lemma SettledIsLast(s: ApprovalStore, i: nat)
    requires VersionChain.Linked(ApprovalRules(), s) && i < |s.outbox| && !s.outbox[i].event.status.Pending?
    ensures i == |s.outbox| - 1 && s.committed == Some(s.history[i]) && s.history[i].status == s.outbox[i].event.status
  {
    TellsAt(s, i);
    if i + 1 < |s.history| {
      OnlyPendingIsFollowed(s, i);
    }
  }

  /** An event that tells a settled status is the last of its request: a request is settled once and announced once. */
  lemma SettledIsFinal(steps: seq<ApprovalStep>, i: nat)
    requires i < |VersionChain.Exec(ApprovalRules(), steps).outbox|
    requires !VersionChain.Exec(ApprovalRules(), steps).outbox[i].event.status.Pending?
    ensures var s := VersionChain.Exec(ApprovalRules(), steps);
      i == |s.outbox| - 1 && s.committed.Some? && s.committed.value.status == s.outbox[i].event.status
  {
    ApprovalsCountVersions();
    VersionChain.HistoryIsAChain(ApprovalRules(), steps);
    SettledIsLast(VersionChain.Exec(ApprovalRules(), steps), i);
  }

  function DecisionEvents(outbox: seq<VersionChain.Event<Envelope>>): nat {
    if outbox == [] then 0
    else DecisionEvents(outbox[..|outbox| - 1]) + if outbox[|outbox| - 1].event.eventType.WasDecided? then 1 else 0
  }

  lemma {:induction false} DecisionsNumber(s: ApprovalStore, n: nat)
    requires VersionChain.Linked(ApprovalRules(), s) && 0 < n <= |s.history|
    ensures |s.history[n - 1].decisions| == DecisionEvents(s.outbox[..n])
  {
    TellsAt(s, n - 1);
    assert s.outbox[..n][..n - 1] == s.outbox[..n - 1];
    if n > 1 {
      DecisionsNumber(s, n - 1);
    } else {
      assert s.outbox[..0] == [];
    }
  }

  /** No decision is lost and none is announced twice: the decision events number the stored decisions. */
  lemma EveryDecisionIsAnnounced(steps: seq<ApprovalStep>)
    ensures var s := VersionChain.Exec(ApprovalRules(), steps);
      s.committed.Some? ==> |s.committed.value.decisions| == DecisionEvents(s.outbox)
  {
    ApprovalsCountVersions();
    VersionChain.HistoryIsAChain(ApprovalRules(), steps);
    var s := VersionChain.Exec(ApprovalRules(), steps);
    if s.committed.Some? {
      DecisionsNumber(s, |s.history|);
      assert s.outbox[..|s.history|] == s.outbox;
    }
  }

  // ----- The handlers -----

  datatype Failure = NotFound | Denied(problem: Problem) | Conflict | Interrupted | Unacknowledged

  /** Which of the requirements' permissions the actor holds, in policy order. */
  function Held(requirements: seq<Requirement>, holds: string -> bool): seq<string> {
    if requirements == [] then []
    else
      var last := requirements[|requirements| - 1].permission;
      Held(requirements[..|requirements| - 1], holds) + if holds(last) then [last] else []
  }

  /** The decision command of an approver, with the permissions held for the requirements of the request. */
  function DecisionOn(r: Request, approver: string, kind: Kind, expectedVersion: int, target: Target, holds: string -> bool, now: int): Command {
    DecideAt(Input(approver, kind, expectedVersion, target, Held(r.requirements, holds)), now)
  }

  /** The transaction decided the request last, with the permissions held when it did. */
  predicate DecidedLast(rules: VersionChain.Rules<Request, Command, Envelope, Fact>, s: ApprovalStore, tx: nat,
                        approver: string, kind: Kind, expectedVersion: int, target: Target, holds: string -> bool, now: int)
  {
    |s.history| >= 2 && AppliedLast(rules, s, tx, DecisionOn(s.history[|s.history| - 2], approver, kind, expectedVersion, target, holds, now))
  }

  /** What the domain says. */
  function Verdict(r: Request, command: Command): Result<Request, Failure>
    requires !command.ProposeAs?
  {
    var next := if command.DecideAt? then Decide(r, command.input, command.now) else Cancel(r, command.actor, command.expectedVersion);
    match next
    case Ok(changed) => Ok(changed)
    case Err(problem) => Err(Denied(problem))
  }

  /** The domain accepts exactly what the rules apply. */
  predicate Agrees(verdict: Result<Request, Failure>, decision: Option<Recording>) {
    if decision.None? then verdict.Err? else verdict == Ok(decision.value.next)
  }

  lemma VerdictAgrees(r: Request, command: Command)
    requires !command.ProposeAs?
    ensures Agrees(Verdict(r, command), ApprovalRules().apply(Some(r), command))
  {
    assert ApprovalRules().apply(Some(r), command) == ApplyCommand(Some(r), command);
  }

  /** A change took effect: its caller was told so, or was told of an error after the commit. */
  predicate Changed(outcome: Result<Request, Failure>) {
    outcome.Ok? || outcome == Err(Failure.Unacknowledged)
  }

  class Commands {
    const rows: Row<Request, Command, Envelope, Fact>

    ghost predicate Valid()
      reads this, rows
    {
      rows.Valid() && rows.rules == ApprovalRules()
    }

    constructor (rows: Row<Request, Command, Envelope, Fact>)
      requires rows.Valid() && rows.rules == ApprovalRules()
      ensures Valid() && this.rows == rows
    {
      this.rows := rows;
    }

    /** Permissions are evaluated now, against the request loaded now. */
    method HeldPermissions(requirements: seq<Requirement>, holds: string -> bool) returns (permissions: seq<string>)
      ensures permissions == Held(requirements, holds)
    {
      permissions := [];
      for i := 0 to |requirements|
        invariant permissions == Held(requirements[..i], holds)
      {
        assert requirements[..i + 1][..i] == requirements[..i];
        if holds(requirements[i].permission) {
          permissions := permissions + [requirements[i].permission];
        }
      }
      assert requirements[..|requirements|] == requirements;
    }

    /** The proposal, its audit fact and its event are committed in one transaction, or none of them. */
    method ProposeApproval(id: string, target: Target, policy: Policy, maker: string, now: int, around: Surroundings<Command>)
      returns (outcome: Result<Request, Failure>, ghost trace: seq<ApprovalStep>)
      requires Valid() && SurroundedByOthers(around, |rows.txs|)
      modifies rows
      ensures Valid() && Leads(rows.rules, old(rows.State()), trace, rows.State())
      ensures CommittedBy(rows.outbox, |old(rows.txs)|) <==> Changed(outcome)
      ensures Changed(outcome) ==>
        && ApplyCommand(None, ProposeAs(id, target, policy, maker, now)).Some? && |rows.history| == 1 && Sound(rows.history[0])
        && CommittedAfter(rows.State(), |old(rows.txs)|, None, ApplyCommand(None, ProposeAs(id, target, policy, maker, now)).value)
      ensures outcome.Ok? ==> Propose(id, target, policy, maker, now) == Ok(outcome.value) && rows.committed == Some(outcome.value)
      ensures Propose(id, target, policy, maker, now).Err? ==> outcome == Err(Denied(Propose(id, target, policy, maker, now).error))
      ensures Undisturbed(around, old(rows.writer)) && old(rows.committed).None? && Propose(id, target, policy, maker, now).Ok? ==> outcome.Ok?
    {
      var proposed := Propose(id, target, policy, maker, now);
      trace := [];
      if proposed.Err? {
        NothingYet(rows.State());
        return Err(Denied(proposed.error)), trace;
      }
      ProposalIsSound(id, target, policy, maker, now);
      var ending;
      ending, trace := rows.Create(ProposeAs(id, target, policy, maker, now), around);
      match ending
      case Done => outcome := Ok(proposed.value);
      case Conflict => outcome := Err(Failure.Conflict);
      case Unacknowledged => outcome := Err(Failure.Unacknowledged);
      case _ => outcome := Err(Failure.Interrupted);
    }

    /**
     Loads, collects the permissions, decides, and commits the decision with its audit fact and event.
     A decision that takes effect follows directly on the snapshot it was made on, whatever others did.
     */
    method DecideApproval(approver: string, kind: Kind, expectedVersion: int, target: Target, holds: string -> bool, now: int,
                          around: Surroundings<Command>)
      returns (outcome: Result<Request, Failure>, ghost trace: seq<ApprovalStep>)
      requires Valid() && SurroundedByOthers(around, |rows.txs|)
      modifies rows
      ensures Valid() && Leads(rows.rules, old(rows.State()), trace, rows.State())
      ensures CommittedBy(rows.outbox, |old(rows.txs)|) <==> Changed(outcome)
      ensures Changed(outcome) ==>
        DecidedLast(rows.rules, rows.State(), |old(rows.txs)|, approver, kind, expectedVersion, target, holds, now)
      ensures outcome.Ok? ==> rows.committed == Some(outcome.value)
      ensures Undisturbed(around, old(rows.writer)) && old(rows.committed).Some? ==>
        var r := old(rows.committed).value;
        outcome == Verdict(r, DecisionOn(r, approver, kind, expectedVersion, target, holds, now))
    {
      ghost var start, more := rows.State(), [];
      var tx, loaded;
      tx, loaded, trace := rows.Open(around.beforeLoad);
      if loaded.None? {
        return Err(Failure.NotFound), trace;
      }
      ghost var s := rows.State();
      outcome, more := DecideLoaded(tx, approver, kind, expectedVersion, target, holds, now, around);
      trace := Join(rows.rules, start, trace, s, more, rows.State());
    }

    /** Collects the permissions for the request loaded, decides and settles. */
    method DecideLoaded(tx: nat, approver: string, kind: Kind, expectedVersion: int, target: Target, holds: string -> bool, now: int,
                        around: Surroundings<Command>)
      returns (outcome: Result<Request, Failure>, ghost trace: seq<ApprovalStep>)
      requires Valid() && tx < |rows.txs| && rows.txs[tx].Loaded? && rows.writer != Some(tx) && SurroundedByOthers(around, tx)
      requires !CommittedBy(rows.outbox, tx)
      modifies rows
      ensures Valid() && Leads(rows.rules, old(rows.State()), trace, rows.State())
      ensures CommittedBy(rows.outbox, tx) <==> Changed(outcome)
      ensures Changed(outcome) ==> DecidedLast(rows.rules, rows.State(), tx, approver, kind, expectedVersion, target, holds, now)
      ensures outcome.Ok? ==> rows.committed == Some(outcome.value)
      ensures Undisturbed(around, old(rows.writer)) && old(rows.committed) == Some(old(rows.txs)[tx].snapshot) ==>
        var r := old(rows.txs)[tx].snapshot;
        outcome == Verdict(r, DecisionOn(r, approver, kind, expectedVersion, target, holds, now))
    {
      var r := rows.txs[tx].snapshot;
      var permissions := HeldPermissions(r.requirements, holds);
      var command := DecideAt(Input(approver, kind, expectedVersion, target, permissions), now);
      VerdictAgrees(r, command);
      outcome, trace := Settle(tx, command, Verdict(r, command), around);
    }

    method CancelApproval(actor: string, expectedVersion: int, now: int, around: Surroundings<Command>)
      returns (outcome: Result<Request, Failure>, ghost trace: seq<ApprovalStep>)
      requires Valid() && SurroundedByOthers(around, |rows.txs|)
      modifies rows
      ensures Valid() && Leads(rows.rules, old(rows.State()), trace, rows.State())
      ensures CommittedBy(rows.outbox, |old(rows.txs)|) <==> Changed(outcome)
      ensures Changed(outcome) ==> AppliedLast(rows.rules, rows.State(), |old(rows.txs)|, WithdrawBy(actor, expectedVersion, now))
      ensures outcome.Ok? ==> rows.committed == Some(outcome.value)
      ensures Undisturbed(around, old(rows.writer)) && old(rows.committed).Some? ==>
        outcome == Verdict(old(rows.committed).value, WithdrawBy(actor, expectedVersion, now))
    {
      ghost var start, more := rows.State(), [];
      var tx, loaded;
      tx, loaded, trace := rows.Open(around.beforeLoad);
      if loaded.None? {
        return Err(Failure.NotFound), trace;
      }
      ghost var s := rows.State();
      VerdictAgrees(loaded.value, WithdrawBy(actor, expectedVersion, now));
      outcome, more := Settle(tx, WithdrawBy(actor, expectedVersion, now), Verdict(loaded.value, WithdrawBy(actor, expectedVersion, now)), around);
      trace := Join(rows.rules, start, trace, s, more, rows.State());
    }

    /** The second half of both handlers: the domain's verdict, then update, record and commit. */
    method Settle(tx: nat, command: Command, verdict: Result<Request, Failure>, around: Surroundings<Command>)
      returns (outcome: Result<Request, Failure>, ghost trace: seq<ApprovalStep>)
      requires rows.Valid() && tx < |rows.txs| && rows.txs[tx].Loaded? && rows.writer != Some(tx) && SurroundedByOthers(around, tx)
      requires !CommittedBy(rows.outbox, tx) && Agrees(verdict, rows.rules.apply(Some(rows.txs[tx].snapshot), command))
      requires verdict != Err(Failure.Unacknowledged)
      modifies rows
      ensures rows.Valid() && Leads(rows.rules, old(rows.State()), trace, rows.State())
      ensures CommittedBy(rows.outbox, tx) <==> Changed(outcome)
      ensures Changed(outcome) ==>
        AppliedLast(rows.rules, rows.State(), tx, command) && rows.history[|rows.history| - 2] == old(rows.txs)[tx].snapshot
      ensures outcome.Ok? ==> rows.committed == Some(outcome.value)
      ensures Undisturbed(around, old(rows.writer)) && old(rows.committed) == Some(old(rows.txs)[tx].snapshot) ==> outcome == verdict
    {
      var ending;
      ending, trace := rows.Settle(tx, command, around);
      match ending
      case Done => outcome := Ok(rows.committed.value);
      case Refused => outcome := verdict;
      case Conflict => outcome := Err(Failure.Conflict);
      case Unacknowledged => outcome := Err(Failure.Unacknowledged);
      case Interrupted => outcome := Err(Failure.Interrupted);
    }
  }

  /** A transaction that has not begun has committed nothing. */
  lemma NothingYet(s: ApprovalStore)
    requires VersionChain.CountsVersions(ApprovalRules()) && VersionChain.Reachable(ApprovalRules(), s)
    ensures !CommittedBy(s.outbox, |s.txs|) && Leads(ApprovalRules(), s, [], s)
  {
    VersionChain.ReachableHolds(ApprovalRules(), s);
  }
}
