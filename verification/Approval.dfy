/**
 Maker-checker approvals: proposals, decisions with named approver requirements and greedy crediting,
 cancellation and expiry, and what holds in every run from a proposal.
 */
module Approval {
  import opened Wrappers
  import opened Blanks

  datatype Requirement = Requirement(permission: string, count: int)

  datatype Policy = Policy(actionType: string, requiredApprovals: int, separationOfDuties: bool, expiresAfterSeconds: int, requirements: seq<Requirement>)

  datatype Target = Target(actionType: string, targetType: string, targetId: string, targetVersion: int)

  datatype Kind = Approve | Reject

  datatype Decision = Decision(actor: string, kind: Kind, decidedAt: int, credited: Option<string>)

  datatype Status = Pending | Approved | Rejected | Expired | Cancelled

  datatype Request = Request(
    id: string,
    target: Target,
    maker: string,
    requiredApprovals: int,
    separationOfDuties: bool,
    requirements: seq<Requirement>,
    status: Status,
    decisions: seq<Decision>,
    version: int,
    createdAt: int,
    expiresAt: int)

  datatype Problem =
    | BlankField
    | InvalidTargetVersion
    | InvalidPolicy
    | InvalidRequirements
    | TargetMismatch
    | VersionConflict
    | NotPending
    | HasExpired
    | NotExpired
    | MakerDecides
    | SecondDecision
    | NotEligible
    | NotTheMaker

  // ----- Proposing -----

  predicate DistinctPermissions(requirements: seq<Requirement>) {
    forall i, j :: 0 <= i < j < |requirements| ==> requirements[i].permission != requirements[j].permission
  }

  predicate ValidRequirements(requirements: seq<Requirement>) {
    && DistinctPermissions(requirements)
    && forall i :: 0 <= i < |requirements| ==> !Blank(requirements[i].permission) && requirements[i].count >= 1
  }

  function TotalCount(requirements: seq<Requirement>): int {
    if requirements == [] then 0 else TotalCount(requirements[..|requirements| - 1]) + requirements[|requirements| - 1].count
  }

  function Propose(id: string, target: Target, policy: Policy, maker: string, now: int): Result<Request, Problem> {
    if Blank(id) || Blank(target.actionType) || Blank(target.targetType) || Blank(target.targetId) then Err(BlankField)
    else if target.actionType != policy.actionType then Err(TargetMismatch)
    else if target.targetVersion < 1 then Err(InvalidTargetVersion)
    else if policy.requiredApprovals < 1 || policy.expiresAfterSeconds <= 0 then Err(InvalidPolicy)
    else if !ValidRequirements(policy.requirements) then Err(InvalidRequirements)
    else
      Ok(Request(id, target, maker,
                 if policy.requirements == [] then policy.requiredApprovals else TotalCount(policy.requirements),
                 policy.separationOfDuties, policy.requirements, Pending, [], 1, now, now + policy.expiresAfterSeconds * 1000))
  }

  // ----- Deciding -----

  datatype Input = Input(approver: string, kind: Kind, expectedVersion: int, target: Target, permissions: seq<string>)

  function AssertPending(request: Request, expectedVersion: int): Option<Problem> {
    if request.version != expectedVersion then Some(VersionConflict)
    else if request.status != Pending then Some(NotPending)
    else None
  }

  predicate HasDecided(decisions: seq<Decision>, actor: string) {
    exists i :: 0 <= i < |decisions| && decisions[i].actor == actor
  }

  predicate CountsFor(d: Decision, permission: string) {
    d.kind.Approve? && d.credited == Some(permission)
  }

  function CreditedCount(decisions: seq<Decision>, permission: string): nat {
    if decisions == [] then 0
    else CreditedCount(decisions[..|decisions| - 1], permission) + if CountsFor(decisions[|decisions| - 1], permission) then 1 else 0
  }

  function Approvals(decisions: seq<Decision>): nat {
    if decisions == [] then 0
    else Approvals(decisions[..|decisions| - 1]) + if decisions[|decisions| - 1].kind.Approve? then 1 else 0
  }

  /** The requirements the approver holds, in policy order. */
  function Eligible(requirements: seq<Requirement>, permissions: seq<string>): seq<Requirement> {
    if requirements == [] then []
    else if requirements[0].permission in permissions then [requirements[0]] + Eligible(requirements[1..], permissions)
    else Eligible(requirements[1..], permissions)
  }

  /** The first requirement among these that is not yet met. */
  function FirstUnmet(eligible: seq<Requirement>, decisions: seq<Decision>): Option<Requirement> {
    if eligible == [] then None
    else if CreditedCount(decisions, eligible[0].permission) < eligible[0].count then Some(eligible[0])
    else FirstUnmet(eligible[1..], decisions)
  }

  function CreditFor(request: Request, kind: Kind, permissions: seq<string>): Result<Option<string>, Problem> {
    if request.requirements == [] then Ok(None)
    else
      var eligible := Eligible(request.requirements, permissions);
      if eligible == [] then Err(NotEligible)
      else if kind.Reject? then Ok(Some(eligible[0].permission))
      else
        var unmet := FirstUnmet(eligible, request.decisions);
        if unmet.None? then Err(NotEligible) else Ok(Some(unmet.value.permission))
  }

  predicate Met(requirement: Requirement, decisions: seq<Decision>) {
    CreditedCount(decisions, requirement.permission) >= requirement.count
  }

  predicate Satisfied(request: Request, decisions: seq<Decision>) {
    if request.requirements == [] then Approvals(decisions) >= request.requiredApprovals
    else forall i :: 0 <= i < |request.requirements| ==> Met(request.requirements[i], decisions)
  }

  function Decide(request: Request, input: Input, now: int): Result<Request, Problem> {
    var pending := AssertPending(request, input.expectedVersion);
    if pending.Some? then Err(pending.value)
    else if now >= request.expiresAt then Err(HasExpired)
    else if input.target != request.target then Err(TargetMismatch)
    else if request.separationOfDuties && input.approver == request.maker then Err(MakerDecides)
    else if HasDecided(request.decisions, input.approver) then Err(SecondDecision)
    else
      var credited := CreditFor(request, input.kind, input.permissions);
      if credited.Err? then Err(credited.error)
      else
        var decisions := request.decisions + [Decision(input.approver, input.kind, now, credited.value)];
        var status := if input.kind.Reject? then Rejected else if Satisfied(request, decisions) then Approved else Pending;
        Ok(request.(decisions := decisions, status := status, version := request.version + 1))
  }

  function Cancel(request: Request, actor: string, expectedVersion: int): Result<Request, Problem> {
    var pending := AssertPending(request, expectedVersion);
    if pending.Some? then Err(pending.value)
    else if actor != request.maker then Err(NotTheMaker)
    else Ok(request.(status := Cancelled, version := request.version + 1))
  }

  function Expire(request: Request, expectedVersion: int, now: int): Result<Request, Problem> {
    var pending := AssertPending(request, expectedVersion);
    if pending.Some? then Err(pending.value)
    else if now < request.expiresAt then Err(NotExpired)
    else Ok(request.(status := Expired, version := request.version + 1))
  }

  datatype Command = DecideWith(input: Input, now: int) | CancelBy(actor: string, expectedVersion: int) | ExpireAt(expectedVersion: int, now: int)

  function Apply(request: Request, command: Command): Result<Request, Problem> {
    match command
    case DecideWith(input, now) => Decide(request, input, now)
    case CancelBy(actor, expectedVersion) => Cancel(request, actor, expectedVersion)
    case ExpireAt(expectedVersion, now) => Expire(request, expectedVersion, now)
  }

  // ----- Runs -----

  /** A request and, for every decision on it, the command that made it. */
  datatype Run = Run(request: Request, inputs: seq<Input>)

  function Step(run: Run, command: Command): Run {
    var next := Apply(run.request, command);
    if next.Err? then run
    else Run(next.value, if command.DecideWith? then run.inputs + [command.input] else run.inputs)
  }

  function Exec(run: Run, commands: seq<Command>): Run {
    if commands == [] then run else Step(Exec(run, commands[..|commands| - 1]), commands[|commands| - 1])
  }

  // ----- What every run keeps -----

  predicate SoundRequirements(r: Request) {
    && ValidRequirements(r.requirements)
    && r.requiredApprovals >= 1
    && (r.requirements != [] ==> r.requiredApprovals == TotalCount(r.requirements))
  }

  /** Nobody decides twice, and under separation of duties the maker does not decide. */
  predicate DistinctDeciders(r: Request) {
    && (forall i, j :: 0 <= i < j < |r.decisions| ==> r.decisions[i].actor != r.decisions[j].actor)
    && (r.separationOfDuties ==> forall i :: 0 <= i < |r.decisions| ==> r.decisions[i].actor != r.maker)
  }

  predicate Requires(requirements: seq<Requirement>, permission: string) {
    exists i :: 0 <= i < |requirements| && requirements[i].permission == permission
  }

  /** Credits name a requirement, or nothing when there are none. */
  predicate CreditsNamed(requirements: seq<Requirement>, decisions: seq<Decision>) {
    forall i :: 0 <= i < |decisions| ==>
      if requirements == [] then decisions[i].credited.None?
      else decisions[i].credited.Some? && Requires(requirements, decisions[i].credited.value)
  }

  /** No requirement is credited more often than it asks for. */
  predicate CreditsBounded(requirements: seq<Requirement>, decisions: seq<Decision>) {
    forall i :: 0 <= i < |requirements| ==> CreditedCount(decisions, requirements[i].permission) <= requirements[i].count
  }

  /** A rejection settles a request, so all decisions but the last of a rejected one approve. */
  predicate StatusFits(r: Request) {
    var last := |r.decisions| - 1;
    if r.status.Rejected? then
      last >= 0 && r.decisions[last].kind.Reject? && Approvals(r.decisions) == last
      && !Satisfied(r, r.decisions[..last])
    else
      Approvals(r.decisions) == |r.decisions| && (r.status.Approved? <==> Satisfied(r, r.decisions))
  }

  predicate VersionFits(r: Request) {
    r.version == 1 + |r.decisions| + if r.status.Cancelled? || r.status.Expired? then 1 else 0
  }

  /** Every decision was made before the request expired. */
  predicate DecidedInTime(r: Request) {
    forall i :: 0 <= i < |r.decisions| ==> r.decisions[i].decidedAt < r.expiresAt
  }

  /** Approvals never exceed what is required. */
  predicate Sound(r: Request) {
    && DecidedInTime(r) && SoundRequirements(r) && DistinctDeciders(r) && CreditsNamed(r.requirements, r.decisions)
    && CreditsBounded(r.requirements, r.decisions) && StatusFits(r) && VersionFits(r)
    && Approvals(r.decisions) <= r.requiredApprovals
  }

  /** Each decision is by the actor of its command, credited with a permission that actor held then. */
  predicate Evidenced(run: Run) {
    && |run.inputs| == |run.request.decisions|
    && forall i :: 0 <= i < |run.inputs| ==>
         && run.inputs[i].approver == run.request.decisions[i].actor
         && run.inputs[i].kind == run.request.decisions[i].kind
         && (run.request.decisions[i].credited.Some? ==> run.request.decisions[i].credited.value in run.inputs[i].permissions)
  }

  // ----- Counting credits -----

  function CreditSum(requirements: seq<Requirement>, decisions: seq<Decision>): nat {
    if requirements == [] then 0
    else CreditSum(requirements[..|requirements| - 1], decisions) + CreditedCount(decisions, requirements[|requirements| - 1].permission)
  }

  lemma CreditedCountStep(decisions: seq<Decision>, d: Decision, permission: string)
    ensures CreditedCount(decisions + [d], permission) == CreditedCount(decisions, permission) + if CountsFor(d, permission) then 1 else 0
    ensures Approvals(decisions + [d]) == Approvals(decisions) + if d.kind.Approve? then 1 else 0
  {
    assert (decisions + [d])[..|decisions|] == decisions;
  }

  lemma RequiresSplit(requirements: seq<Requirement>, permission: string)
    requires requirements != []
    ensures Requires(requirements, permission) <==>
      Requires(requirements[..|requirements| - 1], permission) || requirements[|requirements| - 1].permission == permission
  {
    var front := requirements[..|requirements| - 1];
    if Requires(front, permission) {
      var i :| 0 <= i < |front| && front[i].permission == permission;
      assert requirements[i].permission == permission;
    }
    if Requires(requirements, permission) {
      var i :| 0 <= i < |requirements| && requirements[i].permission == permission;
      assert i < |front| ==> front[i].permission == permission;
    }
  }

  /** A decision adds one to exactly the requirement it is credited to. */
  lemma {:induction false} CreditSumStep(requirements: seq<Requirement>, decisions: seq<Decision>, d: Decision)
    requires DistinctPermissions(requirements)
    ensures CreditSum(requirements, decisions + [d]) == CreditSum(requirements, decisions)
      + if d.kind.Approve? && d.credited.Some? && Requires(requirements, d.credited.value) then 1 else 0
  {
    if requirements != [] {
      var front, last := requirements[..|requirements| - 1], requirements[|requirements| - 1];
      CreditSumStep(front, decisions, d);
      CreditedCountStep(decisions, d, last.permission);
      if d.credited.Some? {
        RequiresSplit(requirements, d.credited.value);
      }
    }
  }

  /** With named requirements, the credits account for every approval. */
  lemma {:induction false} CreditsAreApprovals(requirements: seq<Requirement>, decisions: seq<Decision>)
    requires DistinctPermissions(requirements) && requirements != [] && CreditsNamed(requirements, decisions)
    ensures CreditSum(requirements, decisions) == Approvals(decisions)
  {
    if decisions == [] {
      NoCredits(requirements);
    } else {
      var front, last := decisions[..|decisions| - 1], decisions[|decisions| - 1];
      assert decisions == front + [last];
      CreditsAreApprovals(requirements, front);
      CreditSumStep(requirements, front, last);
    }
  }

  lemma {:induction false} NoCredits(requirements: seq<Requirement>)
    ensures CreditSum(requirements, []) == 0
  {
    if requirements != [] {
      NoCredits(requirements[..|requirements| - 1]);
    }
  }

  /** Within their bounds, the credits reach the total exactly when every requirement is met. */
  lemma {:induction false} AllMetIffTotal(requirements: seq<Requirement>, decisions: seq<Decision>)
    requires CreditsBounded(requirements, decisions)
    ensures CreditSum(requirements, decisions) <= TotalCount(requirements)
    ensures CreditSum(requirements, decisions) == TotalCount(requirements) <==>
      forall i :: 0 <= i < |requirements| ==> Met(requirements[i], decisions)
  {
    if requirements != [] {
      var front, last := requirements[..|requirements| - 1], requirements[|requirements| - 1];
      AllMetIffTotal(front, decisions);
      assert last == requirements[|requirements| - 1];
      assert forall i :: 0 <= i < |front| ==> front[i] == requirements[i];
      assert CreditedCount(decisions, last.permission) <= last.count;
    }
  }

  /** Every requirement is met exactly when the approvals number what is required, and they never exceed it. */
  lemma SatisfiedIffCount(r: Request, decisions: seq<Decision>)
    requires SoundRequirements(r) && CreditsNamed(r.requirements, decisions) && CreditsBounded(r.requirements, decisions)
    requires r.requirements == [] ==> Approvals(decisions) <= r.requiredApprovals
    ensures Approvals(decisions) <= r.requiredApprovals
    ensures Satisfied(r, decisions) <==> Approvals(decisions) == r.requiredApprovals
  {
    if r.requirements != [] {
      CreditsAreApprovals(r.requirements, decisions);
      AllMetIffTotal(r.requirements, decisions);
    }
  }

  // ----- Crediting -----

  lemma {:induction false} EligibleMembers(requirements: seq<Requirement>, permissions: seq<string>)
    ensures forall q :: q in Eligible(requirements, permissions) <==> q in requirements && q.permission in permissions
  {
    if requirements != [] {
      EligibleMembers(requirements[1..], permissions);
      assert forall q :: q in requirements <==> q == requirements[0] || q in requirements[1..];
    }
  }

  lemma {:induction false} FirstUnmetIsUnmet(eligible: seq<Requirement>, decisions: seq<Decision>)
    ensures FirstUnmet(eligible, decisions).Some? ==>
      FirstUnmet(eligible, decisions).value in eligible && !Met(FirstUnmet(eligible, decisions).value, decisions)
    ensures FirstUnmet(eligible, decisions).None? ==> forall q :: q in eligible ==> Met(q, decisions)
  {
    if eligible != [] {
      FirstUnmetIsUnmet(eligible[1..], decisions);
      assert forall q :: q in eligible <==> q == eligible[0] || q in eligible[1..];
    }
  }

  /** The approver holds the permission of a requirement not yet met. */
  predicate HoldsUnmet(request: Request, permissions: seq<string>) {
    exists q :: q in request.requirements && q.permission in permissions && !Met(q, request.decisions)
  }

  /** An approval is credited exactly when its approver holds an unmet requirement, and then to one of those. */
  lemma ApprovalCredit(request: Request, permissions: seq<string>)
    ensures var credit := CreditFor(request, Approve, permissions);
      && (credit.Ok? <==> request.requirements == [] || HoldsUnmet(request, permissions))
      && (credit.Ok? && request.requirements != [] ==>
            && credit.value.Some? && credit.value.value in permissions
            && exists i :: 0 <= i < |request.requirements| && request.requirements[i].permission == credit.value.value
                 && !Met(request.requirements[i], request.decisions))
      && (request.requirements == [] ==> credit == Ok(None))
  {
    if request.requirements != [] {
      var eligible := Eligible(request.requirements, permissions);
      EligibleMembers(request.requirements, permissions);
      FirstUnmetIsUnmet(eligible, request.decisions);
    }
  }

  lemma AnyCredit(request: Request, kind: Kind, permissions: seq<string>)
    requires CreditFor(request, kind, permissions).Ok?
    ensures var credit := CreditFor(request, kind, permissions).value;
      && (credit.Some? ==> credit.value in permissions && Requires(request.requirements, credit.value))
      && (credit.None? <==> request.requirements == [])
  {
    var eligible := Eligible(request.requirements, permissions);
    EligibleMembers(request.requirements, permissions);
    FirstUnmetIsUnmet(eligible, request.decisions);
    if request.requirements != [] {
      var permission := CreditFor(request, kind, permissions).value.value;
      var chosen :| chosen in eligible && chosen.permission == permission;
      var i :| 0 <= i < |request.requirements| && request.requirements[i] == chosen;
      assert request.requirements[i].permission == permission;
    }
  }

  // ----- One decision keeps everything -----

  lemma BoundsKept(request: Request, d: Decision, permissions: seq<string>)
    requires SoundRequirements(request) && CreditsBounded(request.requirements, request.decisions)
    requires CreditFor(request, d.kind, permissions) == Ok(d.credited)
    ensures CreditsBounded(request.requirements, request.decisions + [d])
  {
    var requirements := request.requirements;
    ApprovalCredit(request, permissions);
    forall i | 0 <= i < |requirements|
      ensures CreditedCount(request.decisions + [d], requirements[i].permission) <= requirements[i].count
    {
      CreditedCountStep(request.decisions, d, requirements[i].permission);
      if CountsFor(d, requirements[i].permission) {
        var j :| 0 <= j < |requirements| && requirements[j].permission == d.credited.value && !Met(requirements[j], request.decisions);
        assert i == j;
      }
    }
  }

  lemma NamedKept(request: Request, d: Decision, permissions: seq<string>)
    requires CreditsNamed(request.requirements, request.decisions) && CreditFor(request, d.kind, permissions) == Ok(d.credited)
    ensures CreditsNamed(request.requirements, request.decisions + [d])
  {
    AnyCredit(request, d.kind, permissions);
  }

  lemma DecidersKept(request: Request, d: Decision)
    requires DistinctDeciders(request) && !HasDecided(request.decisions, d.actor)
    requires request.separationOfDuties ==> d.actor != request.maker
    ensures DistinctDeciders(request.(decisions := request.decisions + [d]))
  {
  }

  /** While a request is pending there is room for one more approval. */
  lemma PendingHasRoom(r: Request)
    requires Sound(r) && r.status.Pending?
    ensures Approvals(r.decisions) < r.requiredApprovals && !Satisfied(r, r.decisions)
  {
    SatisfiedIffCount(r, r.decisions);
  }

  /** The request with one more decision. */
  function Decided(request: Request, d: Decision, status: Status): Request {
    request.(decisions := request.decisions + [d], status := status, version := request.version + 1)
  }

  function StatusAfter(request: Request, d: Decision): Status {
    if d.kind.Reject? then Rejected else if Satisfied(request, request.decisions + [d]) then Approved else Pending
  }

  /** What an accepted decision is. */
  lemma DecisionMade(request: Request, input: Input, now: int) returns (d: Decision)
    requires Decide(request, input, now).Ok?
    ensures Decide(request, input, now).value == Decided(request, d, StatusAfter(request, d))
    ensures d.actor == input.approver && d.kind == input.kind && CreditFor(request, d.kind, input.permissions) == Ok(d.credited)
    ensures request.status.Pending? && !HasDecided(request.decisions, d.actor)
    ensures request.separationOfDuties ==> d.actor != request.maker
    ensures d.decidedAt == now < request.expiresAt
  {
    d := Decision(input.approver, input.kind, now, CreditFor(request, input.kind, input.permissions).value);
  }

  lemma StatusKept(request: Request, d: Decision)
    requires StatusFits(request) && request.status.Pending?
    ensures StatusFits(Decided(request, d, StatusAfter(request, d)))
  {
    var next := Decided(request, d, StatusAfter(request, d));
    assert next.decisions[..|request.decisions|] == request.decisions;
    CreditedCountStep(request.decisions, d, "");
  }

  lemma TimeKept(request: Request, d: Decision)
    requires DecidedInTime(request) && d.decidedAt < request.expiresAt
    ensures DecidedInTime(request.(decisions := request.decisions + [d]))
  {
  }

  lemma CountKept(request: Request, d: Decision)
    requires Sound(request) && request.status.Pending?
    ensures Approvals(request.decisions + [d]) <= request.requiredApprovals
  {
    PendingHasRoom(request);
    CreditedCountStep(request.decisions, d, "");
  }

  lemma AllKept(request: Request, d: Decision, next: Request)
    requires Sound(request) && request.status.Pending? && next == Decided(request, d, next.status) && !next.status.Cancelled? && !next.status.Expired?
    requires DecidedInTime(request.(decisions := next.decisions)) && DistinctDeciders(request.(decisions := next.decisions))
    requires CreditsNamed(request.requirements, next.decisions) && CreditsBounded(request.requirements, next.decisions)
    requires StatusFits(next) && Approvals(next.decisions) <= request.requiredApprovals
    ensures Sound(next)
  {
  }

  /** A decision as an accepted command makes it keeps every rule. */
  lemma DecidedKeeps(request: Request, d: Decision, permissions: seq<string>)
    requires Sound(request) && request.status.Pending? && CreditFor(request, d.kind, permissions) == Ok(d.credited)
    requires !HasDecided(request.decisions, d.actor) && (request.separationOfDuties ==> d.actor != request.maker)
    requires d.decidedAt < request.expiresAt
    ensures Sound(Decided(request, d, StatusAfter(request, d)))
  {
    BoundsKept(request, d, permissions);
    NamedKept(request, d, permissions);
    DecidersKept(request, d);
    TimeKept(request, d);
    StatusKept(request, d);
    CountKept(request, d);
    AllKept(request, d, Decided(request, d, StatusAfter(request, d)));
  }

  lemma DecideKeeps(request: Request, input: Input, now: int)
    requires Sound(request) && Decide(request, input, now).Ok?
    ensures Sound(Decide(request, input, now).value)
  {
    var d := DecisionMade(request, input, now);
    DecidedKeeps(request, d, input.permissions);
  }

  lemma ApplyKeeps(request: Request, command: Command)
    requires Sound(request) && Apply(request, command).Ok?
    ensures Sound(Apply(request, command).value)
  {
    if command.DecideWith? {
      DecideKeeps(request, command.input, command.now);
    }
  }

  lemma {:induction false} TotalCountPositive(requirements: seq<Requirement>)
    requires requirements != [] && forall i :: 0 <= i < |requirements| ==> requirements[i].count >= 1
    ensures TotalCount(requirements) >= 1
  {
    if |requirements| > 1 {
      TotalCountPositive(requirements[..|requirements| - 1]);
    } else {
      assert requirements[..0] == [];
    }
  }

  lemma ProposalIsSound(id: string, target: Target, policy: Policy, maker: string, now: int)
    requires Propose(id, target, policy, maker, now).Ok?
    ensures Sound(Propose(id, target, policy, maker, now).value)
  {
    var r := Propose(id, target, policy, maker, now).value;
    if policy.requirements != [] {
      TotalCountPositive(policy.requirements);
    }
    SatisfiedIffCount(r, []);
  }

  lemma EvidenceKept(run: Run, input: Input, now: int)
    requires Evidenced(run) && Decide(run.request, input, now).Ok?
    ensures Evidenced(Run(Decide(run.request, input, now).value, run.inputs + [input]))
  {
    var d := DecisionMade(run.request, input, now);
    AnyCredit(run.request, input.kind, input.permissions);
  }

  // ----- The main results, for every run from a proposal -----

  /** The terms of a proposal never change. */
  predicate SameTerms(a: Request, b: Request) {
    a.(status := b.status, decisions := b.decisions, version := b.version) == b
  }

  lemma ApplySameTerms(request: Request, command: Command)
    requires Apply(request, command).Ok?
    ensures SameTerms(request, Apply(request, command).value)
  {
    if command.DecideWith? {
      var d := DecisionMade(request, command.input, command.now);
    }
  }

  ghost predicate Proper(proposal: Request, run: Run) {
    Sound(run.request) && Evidenced(run) && SameTerms(proposal, run.request)
  }

  lemma TermsTransitive(a: Request, b: Request, c: Request)
    requires SameTerms(a, b) && SameTerms(b, c)
    ensures SameTerms(a, c)
  {
  }

  lemma EvidenceCarries(run: Run, next: Request)
    requires Evidenced(run) && next.decisions == run.request.decisions
    ensures Evidenced(Run(next, run.inputs))
  {
  }

  lemma EvidenceStep(run: Run, command: Command)
    requires Evidenced(run) && Apply(run.request, command).Ok?
    ensures Evidenced(Step(run, command))
  {
    match command
    case DecideWith(input, now) => EvidenceKept(run, input, now);
    case CancelBy(actor, expectedVersion) => EvidenceCarries(run, Cancel(run.request, actor, expectedVersion).value);
    case ExpireAt(expectedVersion, now) => EvidenceCarries(run, Expire(run.request, expectedVersion, now).value);
  }

  lemma SoundStep(run: Run, command: Command)
    requires Sound(run.request) && Apply(run.request, command).Ok?
    ensures Sound(Step(run, command).request) && SameTerms(run.request, Step(run, command).request)
  {
    ApplyKeeps(run.request, command);
    ApplySameTerms(run.request, command);
  }

  lemma StepKeeps(proposal: Request, run: Run, command: Command)
    requires Proper(proposal, run)
    ensures Proper(proposal, Step(run, command))
  {
    if Apply(run.request, command).Ok? {
      SoundStep(run, command);
      EvidenceStep(run, command);
      TermsTransitive(proposal, run.request, Step(run, command).request);
    }
  }

  lemma {:induction false} RunIsSound(proposal: Request, commands: seq<Command>)
    requires Sound(proposal) && proposal.decisions == []
    ensures Proper(proposal, Exec(Run(proposal, []), commands))
  {
    if commands != [] {
      var front := commands[..|commands| - 1];
      RunIsSound(proposal, front);
      StepKeeps(proposal, Exec(Run(proposal, []), front), commands[|commands| - 1]);
    }
  }

  /** Deciders are distinct, and under separation of duties none is the maker. */
  lemma DecidersAreDistinct(proposal: Request, commands: seq<Command>)
    requires Sound(proposal) && proposal.decisions == []
    ensures var r := Exec(Run(proposal, []), commands).request;
      && (forall i, j :: 0 <= i < j < |r.decisions| ==> r.decisions[i].actor != r.decisions[j].actor)
      && (proposal.separationOfDuties ==> forall i :: 0 <= i < |r.decisions| ==> r.decisions[i].actor != proposal.maker)
  {
    RunIsSound(proposal, commands);
  }

  /** Every requirement is met exactly when there are as many approvals as required; no credit exceeds its requirement. */
  lemma MetIffRequiredCount(proposal: Request, commands: seq<Command>)
    requires Sound(proposal) && proposal.decisions == []
    ensures var r := Exec(Run(proposal, []), commands).request;
      && (Satisfied(r, r.decisions) <==> Approvals(r.decisions) == proposal.requiredApprovals)
      && forall i :: 0 <= i < |r.requirements| ==> CreditedCount(r.decisions, r.requirements[i].permission) <= r.requirements[i].count
  {
    RunIsSound(proposal, commands);
    var r := Exec(Run(proposal, []), commands).request;
    SatisfiedIffCount(r, r.decisions);
  }

  /** An approved request has exactly the required number of approvers, each credited with a permission held when deciding. */
  lemma ApprovedMeansApproved(proposal: Request, commands: seq<Command>)
    requires Sound(proposal) && proposal.decisions == []
    ensures var run := Exec(Run(proposal, []), commands);
      run.request.status.Approved? ==>
        && |run.request.decisions| == proposal.requiredApprovals == |run.inputs|
        && forall i :: 0 <= i < |run.inputs| ==>
             && run.request.decisions[i].kind.Approve?
             && run.request.decisions[i].actor == run.inputs[i].approver
             && (proposal.requirements != [] ==>
                   (run.request.decisions[i].credited.Some? && run.request.decisions[i].credited.value in run.inputs[i].permissions))
  {
    RunIsSound(proposal, commands);
    var run := Exec(Run(proposal, []), commands);
    if run.request.status.Approved? {
      SatisfiedIffCount(run.request, run.request.decisions);
      AllApprove(run.request.decisions);
    }
  }

  lemma {:induction false} AllApprove(decisions: seq<Decision>)
    ensures Approvals(decisions) <= |decisions|
    ensures Approvals(decisions) == |decisions| ==> forall i :: 0 <= i < |decisions| ==> decisions[i].kind.Approve?
  {
    if decisions != [] {
      AllApprove(decisions[..|decisions| - 1]);
      assert decisions == decisions[..|decisions| - 1] + [decisions[|decisions| - 1]];
    }
  }

  /** In every run, every stored decision was made before the request expired. */
  lemma DecisionsAreInTime(proposal: Request, commands: seq<Command>, i: nat)
    requires Sound(proposal) && proposal.decisions == [] && i < |Exec(Run(proposal, []), commands).request.decisions|
    ensures Exec(Run(proposal, []), commands).request.decisions[i].decidedAt < proposal.expiresAt
  {
    RunIsSound(proposal, commands);
  }

  /** How many approvals are still missing. */
  function Remaining(r: Request): int {
    r.requiredApprovals - Approvals(r.decisions)
  }

  /** Whoever has not decided, may decide, and holds an unmet requirement (or anyone, when there are none). */
  predicate MayApprove(r: Request, approver: string, permissions: seq<string>) {
    && !HasDecided(r.decisions, approver)
    && (r.separationOfDuties ==> approver != r.maker)
    && (r.requirements == [] || HoldsUnmet(r, permissions))
  }

  /** An accepted approval lowers what is missing by one, and settles the request when nothing is missing any more. */
  lemma ApprovalLowersRemaining(r: Request, input: Input, now: int)
    requires Sound(r) && input.kind.Approve? && Decide(r, input, now).Ok?
    ensures var next := Decide(r, input, now).value;
      Remaining(next) == Remaining(r) - 1 && (next.status.Approved? <==> Remaining(next) == 0)
  {
    var d := DecisionMade(r, input, now);
    CreditedCountStep(r.decisions, d, "");
    BoundsKept(r, d, input.permissions);
    NamedKept(r, d, input.permissions);
    PendingHasRoom(r);
    SatisfiedIffCount(r, r.decisions + [d]);
  }

  lemma ApprovalAccepted(r: Request, approver: string, permissions: seq<string>, now: int)
    requires r.status.Pending? && now < r.expiresAt
    ensures Decide(r, Input(approver, Approve, r.version, r.target, permissions), now).Ok? <==> MayApprove(r, approver, permissions)
  {
    ApprovalCredit(r, permissions);
  }

  /** A pending, unexpired request accepts an approval exactly from these, and each one lowers what is missing by one. */
  lemma PendingAcceptsApprover(r: Request, approver: string, permissions: seq<string>, now: int)
    requires Sound(r) && r.status.Pending? && now < r.expiresAt
    ensures var next := Decide(r, Input(approver, Approve, r.version, r.target, permissions), now);
      && (next.Ok? <==> MayApprove(r, approver, permissions))
      && (next.Ok? ==> Remaining(next.value) == Remaining(r) - 1)
  {
    var input := Input(approver, Approve, r.version, r.target, permissions);
    ApprovalAccepted(r, approver, permissions, now);
    if Decide(r, input, now).Ok? {
      ApprovalLowersRemaining(r, input, now);
    }
  }

  /** Settled requests accept nothing. */
  lemma SettledStays(r: Request, command: Command)
    requires !r.status.Pending?
    ensures Apply(r, command).Err?
  {
  }

  // ----- Any order of approvers -----

  /** Somebody who will approve at a given time, with the permissions held then. */
  datatype Approver = Approver(actor: string, permissions: seq<string>, at: int)

  /** One after the other approves, each on the request the one before left behind. */
  function ApproveAll(r: Request, order: seq<Approver>): Result<Request, Problem>
    decreases |order|
  {
    if order == [] then Ok(r)
    else
      var next := Decide(r, Input(order[0].actor, Approve, r.version, r.target, order[0].permissions), order[0].at);
      if next.Err? then next else ApproveAll(next.value, order[1..])
  }

  /** The order names each of the crowd once. */
  ghost predicate Arranges(order: seq<Approver>, crowd: set<Approver>) {
    && (forall a :: a in crowd <==> a in order)
    && (forall i, j :: 0 <= i < j < |order| ==> order[i] != order[j])
  }

  function Holders(crowd: set<Approver>, permission: string): set<Approver> {
    set a | a in crowd && permission in a.permissions
  }

  /** The approver holds the permission of exactly one requirement. */
  predicate HoldsOne(requirements: seq<Requirement>, permissions: seq<string>) {
    && (exists q :: q in requirements && q.permission in permissions)
    && (forall p, q :: p in requirements && q in requirements && p.permission in permissions && q.permission in permissions ==> p == q)
  }

  /** Different people who have not decided, may decide, are in time, and each hold exactly one requirement, if there are any. */
  predicate Crowd(r: Request, crowd: set<Approver>) {
    && (forall a, b :: a in crowd && b in crowd && a.actor == b.actor ==> a == b)
    && (forall a :: a in crowd ==> Eager(r, a))
  }

  predicate Eager(r: Request, a: Approver) {
    && a.at < r.expiresAt && !HasDecided(r.decisions, a.actor) && (r.separationOfDuties ==> a.actor != r.maker)
    && (r.requirements == [] || HoldsOne(r.requirements, a.permissions))
  }

  /** As many hold each requirement as it still misses; without requirements, as many come as are missing. */
  predicate Matches(r: Request, crowd: set<Approver>) {
    if r.requirements == [] then |crowd| == Remaining(r)
    else forall q :: q in r.requirements ==> MatchesOne(r, crowd, q)
  }

  predicate MatchesOne(r: Request, crowd: set<Approver>, q: Requirement) {
    |Holders(crowd, q.permission)| == q.count - CreditedCount(r.decisions, q.permission)
  }

  lemma HoldersWithout(crowd: set<Approver>, a: Approver, permission: string)
    requires a in crowd
    ensures |Holders(crowd, permission)| == |Holders(crowd - {a}, permission)| + if permission in a.permissions then 1 else 0
  {
    if permission in a.permissions {
      assert Holders(crowd, permission) == Holders(crowd - {a}, permission) + {a};
    } else {
      assert Holders(crowd, permission) == Holders(crowd - {a}, permission);
    }
  }

  lemma ArrangesRest(order: seq<Approver>, crowd: set<Approver>)
    requires Arranges(order, crowd) && order != []
    ensures Arranges(order[1..], crowd - {order[0]})
  {
  }

  lemma CrowdRest(r: Request, crowd: set<Approver>, a: Approver, next: Request, d: Decision)
    requires Crowd(r, crowd) && a in crowd && SameTerms(r, next) && next.decisions == r.decisions + [d] && d.actor == a.actor
    ensures Crowd(next, crowd - {a})
  {
  }

  /** The approval of somebody who holds one requirement is credited to that one. */
  lemma CreditedToTheOne(r: Request, a: Approver, credit: Option<string>, q: Requirement)
    requires r.requirements != [] && HoldsOne(r.requirements, a.permissions) && CreditFor(r, Approve, a.permissions) == Ok(credit)
    requires q in r.requirements && DistinctPermissions(r.requirements)
    ensures credit == Some(q.permission) <==> q.permission in a.permissions
  {
    ApprovalCredit(r, a.permissions);
    var i :| 0 <= i < |r.requirements| && r.requirements[i].permission == credit.value && !Met(r.requirements[i], r.decisions);
    assert r.requirements[i] in r.requirements;
  }

  lemma MatchesOneRest(r: Request, crowd: set<Approver>, a: Approver, next: Request, d: Decision, q: Requirement)
    requires a in crowd && next.decisions == r.decisions + [d] && d.kind.Approve?
    requires d.credited == Some(q.permission) <==> q.permission in a.permissions
    ensures MatchesOne(r, crowd, q) <==> MatchesOne(next, crowd - {a}, q)
  {
    HoldersWithout(crowd, a, q.permission);
    CreditedCountStep(r.decisions, d, q.permission);
  }

  /** An accepted approval takes one from what is missing and from who is left to come. */
  lemma MatchesRest(r: Request, crowd: set<Approver>, a: Approver, next: Request, d: Decision)
    requires SoundRequirements(r) && SameTerms(r, next) && a in crowd && Eager(r, a)
    requires next.decisions == r.decisions + [d] && d.kind.Approve? && CreditFor(r, Approve, a.permissions) == Ok(d.credited)
    ensures Matches(r, crowd) <==> Matches(next, crowd - {a})
  {
    CreditedCountStep(r.decisions, d, "");
    assert |crowd - {a}| == |crowd| - 1;
    forall q | q in r.requirements
      ensures MatchesOne(r, crowd, q) <==> MatchesOne(next, crowd - {a}, q)
    {
      CreditedToTheOne(r, a, d.credited, q);
      MatchesOneRest(r, crowd, a, next, d, q);
    }
  }

  lemma BoundedAt(r: Request, q: Requirement)
    requires Sound(r) && q in r.requirements
    ensures CreditedCount(r.decisions, q.permission) <= q.count
  {
  }

  /** Somebody whose requirement is met already is one too many. */
  lemma TooMany(r: Request, crowd: set<Approver>, a: Approver, q: Requirement)
    requires Sound(r) && a in crowd && q in r.requirements && q.permission in a.permissions && Met(q, r.decisions)
    ensures !Matches(r, crowd)
  {
    BoundedAt(r, q);
    HoldersWithout(crowd, a, q.permission);
    assert !MatchesOne(r, crowd, q);
  }

  /** When everything is met, nobody else is needed, and a crowd matches exactly when it is empty. */
  lemma NobodyMissing(r: Request, crowd: set<Approver>)
    requires Sound(r) && Satisfied(r, r.decisions)
    requires r.requirements == [] || forall a :: a in crowd ==> HoldsOne(r.requirements, a.permissions)
    ensures Matches(r, crowd) <==> crowd == {}
  {
    SatisfiedIffCount(r, r.decisions);
    if crowd == {} {
      forall q | q in r.requirements
        ensures MatchesOne(r, crowd, q)
      {
        BoundedAt(r, q);
        var i :| 0 <= i < |r.requirements| && r.requirements[i] == q;
        assert Met(r.requirements[i], r.decisions);
        assert Holders(crowd, q.permission) == {};
      }
    } else if r.requirements != [] {
      var a :| a in crowd;
      var q :| q in r.requirements && q.permission in a.permissions;
      var i :| 0 <= i < |r.requirements| && r.requirements[i] == q;
      assert Met(r.requirements[i], r.decisions);
      TooMany(r, crowd, a, q);
    }
  }

  /** While a request is pending, somebody is missing. */
  lemma SomebodyMissing(r: Request)
    requires Sound(r) && r.status.Pending?
    ensures !Matches(r, {})
  {
    PendingHasRoom(r);
    if r.requirements != [] {
      var i :| 0 <= i < |r.requirements| && !Met(r.requirements[i], r.decisions);
      assert Holders({}, r.requirements[i].permission) == {};
      assert !MatchesOne(r, {}, r.requirements[i]);
    }
  }

  /** The first of the crowd is accepted, unless its requirement is met already. */
  lemma FirstRefused(r: Request, crowd: set<Approver>, a: Approver)
    requires Sound(r) && r.status.Pending? && a in crowd && Eager(r, a)
    requires Decide(r, Input(a.actor, Approve, r.version, r.target, a.permissions), a.at).Err?
    ensures !Matches(r, crowd)
  {
    ApprovalAccepted(r, a.actor, a.permissions, a.at);
    var q :| q in r.requirements && q.permission in a.permissions;
    assert Met(q, r.decisions);
    TooMany(r, crowd, a, q);
  }

  predicate EndsApproved(outcome: Result<Request, Problem>) {
    outcome.Ok? && outcome.value.status.Approved?
  }

  /** What an accepted approval leaves behind. */
  lemma AfterApproval(r: Request, input: Input, now: int) returns (d: Decision, next: Request)
    requires Sound(r) && input.kind.Approve? && Decide(r, input, now).Ok?
    ensures next == Decide(r, input, now).value && next.decisions == r.decisions + [d] && SameTerms(r, next)
    ensures d.actor == input.approver && d.kind.Approve? && CreditFor(r, Approve, input.permissions) == Ok(d.credited)
    ensures next.status.Pending? || (next.status.Approved? && Satisfied(next, next.decisions))
  {
    d := DecisionMade(r, input, now);
    next := Decided(r, d, StatusAfter(r, d));
    ApplySameTerms(r, DecideWith(input, now));
  }

  /** An accepted approver leaves the request pending or satisfied, with the rest of the crowd to match. */
  lemma FirstAccepted(r: Request, crowd: set<Approver>, a: Approver, next: Request)
    requires Sound(r) && r.status.Pending? && Crowd(r, crowd) && a in crowd
    requires Decide(r, Input(a.actor, Approve, r.version, r.target, a.permissions), a.at) == Ok(next)
    ensures Crowd(next, crowd - {a}) && (Matches(r, crowd) <==> Matches(next, crowd - {a}))
    ensures next.status.Pending? || (next.status.Approved? && Satisfied(next, next.decisions))
  {
    var d, after := AfterApproval(r, Input(a.actor, Approve, r.version, r.target, a.permissions), a.at);
    MatchesRest(r, crowd, a, next, d);
    CrowdRest(r, crowd, a, next, d);
  }

  /** What is left of a crowd once everything is met. */
  lemma RestAfterApproval(r: Request, crowd: set<Approver>, order: seq<Approver>)
    requires Sound(r) && r.status.Approved? && Satisfied(r, r.decisions) && Crowd(r, crowd) && Arranges(order, crowd)
    ensures EndsApproved(ApproveAll(r, order)) <==> Matches(r, crowd)
  {
    NobodyMissing(r, crowd);
    if order != [] {
      assert order[0] in crowd;
    }
  }

  /**
   In whatever order such a crowd comes, everybody is accepted and the request ends approved exactly when
   for each requirement as many hold it as it still misses.
   */
  lemma {:induction false} CrowdInAnyOrder(r: Request, crowd: set<Approver>, order: seq<Approver>)
    requires Sound(r) && r.status.Pending? && Crowd(r, crowd) && Arranges(order, crowd)
    ensures EndsApproved(ApproveAll(r, order)) <==> Matches(r, crowd)
    decreases |order|
  {
    if order == [] {
      assert crowd == {};
      SomebodyMissing(r);
      return;
    }
    var a := order[0];
    assert a in crowd;
    var next := Decide(r, Input(a.actor, Approve, r.version, r.target, a.permissions), a.at);
    if next.Err? {
      FirstRefused(r, crowd, a);
      return;
    }
    DecideKeeps(r, Input(a.actor, Approve, r.version, r.target, a.permissions), a.at);
    FirstAccepted(r, crowd, a, next.value);
    ArrangesRest(order, crowd);
    if next.value.status.Pending? {
      CrowdInAnyOrder(next.value, crowd - {a}, order[1..]);
    } else {
      RestAfterApproval(next.value, crowd - {a}, order[1..]);
    }
  }

  const PRODUCT := Requirement("P", 1)
  const FINANCE := Requirement("F", 1)

  /** One requirement each of Product and Finance. */
  const PRICING := Request("a", Target("t", "t", "t", 1), "maker", 2, true, [PRODUCT, FINANCE], Pending, [], 1, 0, 100)

  lemma HolderOfBothTakesProduct()
    ensures Decide(PRICING, Input("both", Approve, 1, PRICING.target, ["P", "F"]), 1)
      == Ok(Decided(PRICING, Decision("both", Approve, 1, Some("P")), Pending))
  {
    var d := Decision("both", Approve, 1, Some("P"));
    assert PRICING.requirements[0] == PRODUCT && PRICING.requirements[1] == FINANCE;
    assert Eligible([PRODUCT, FINANCE], ["P", "F"])[0] == PRODUCT;
    CreditedCountStep([], d, "F");
    assert "P"[0] != "F"[0];
    assert !Met(FINANCE, [d]) by {
      assert [] + [d] == [d];
    }
    assert PRICING.decisions + [d] == [d];
  }

  lemma HolderOfOneTakesProduct()
    ensures Decide(PRICING, Input("one", Approve, 1, PRICING.target, ["P"]), 1)
      == Ok(Decided(PRICING, Decision("one", Approve, 1, Some("P")), Pending))
  {
    var d := Decision("one", Approve, 1, Some("P"));
    assert PRICING.requirements[0] == PRODUCT && PRICING.requirements[1] == FINANCE;
    assert Eligible([PRODUCT, FINANCE], ["P"])[0] == PRODUCT;
    CreditedCountStep([], d, "F");
    assert "P"[0] != "F"[0];
    assert !Met(FINANCE, [d]) by {
      assert [] + [d] == [d];
    }
    assert PRICING.decisions + [d] == [d];
  }

  lemma PricingTotal()
    ensures TotalCount(PRICING.requirements) == 2
  {
    assert [PRODUCT, FINANCE][..1] == [PRODUCT] && [PRODUCT][..0] == [];
    assert TotalCount([PRODUCT]) == 1;
  }

  lemma LettersShow(text: string)
    requires text != "" && 'A' <= text[0] <= 'Z'
    ensures !Blank(text)
  {
    assert !WhiteSpace(text[0]);
  }

  lemma PricingValid()
    ensures ValidRequirements(PRICING.requirements)
  {
    LettersShow(PRODUCT.permission);
    LettersShow(FINANCE.permission);
    assert PRODUCT.permission[0] != FINANCE.permission[0];
    assert PRICING.requirements == [PRODUCT, FINANCE];
  }

  lemma PricingRequirements()
    ensures SoundRequirements(PRICING)
  {
    PricingTotal();
    PricingValid();
  }

  lemma PricingIsSound()
    ensures Sound(PRICING)
  {
    PricingRequirements();
    SatisfiedIffCount(PRICING, []);
  }

  lemma OneDecision(d: Decision, permission: string, actor: string)
    requires d.credited != Some(permission) && d.actor != actor
    ensures CreditedCount([d], permission) == 0 && !HasDecided([d], actor)
  {
    CreditedCountStep([], d, permission);
    assert [] + [d] == [d];
  }

  lemma MayFollow(r: Request, d: Decision, q: Requirement, approver: string, permissions: seq<string>)
    requires r.decisions == [d] && q in r.requirements && q.permission in permissions && q.count >= 1
    requires d.credited != Some(q.permission) && d.actor != approver && r.maker != approver
    ensures MayApprove(r, approver, permissions)
  {
    OneDecision(d, q.permission, approver);
    assert !Met(q, r.decisions);
  }

  lemma HolderOfBothCompletes()
    ensures var first := Decided(PRICING, Decision("one", Approve, 1, Some("P")), Pending);
      EndsApproved(Decide(first, Input("both", Approve, 2, PRICING.target, ["P", "F"]), 2))
  {
    PricingIsSound();
    HolderOfOneTakesProduct();
    var one := Input("one", Approve, 1, PRICING.target, ["P"]);
    DecideKeeps(PRICING, one, 1);
    ApprovalLowersRemaining(PRICING, one, 1);
    var first := Decide(PRICING, one, 1).value;
    assert "both"[0] == 'b' && "one"[0] == 'o' && "maker"[0] == 'm' && "P"[0] == 'P' && "F"[0] == 'F';
    assert FINANCE == first.requirements[1] && ["P", "F"][1] == "F";
    MayFollow(first, first.decisions[0], FINANCE, "both", ["P", "F"]);
    ApprovalAccepted(first, "both", ["P", "F"], 2);
    ApprovalLowersRemaining(first, Input("both", Approve, 2, PRICING.target, ["P", "F"]), 2);
  }

  /**
   Crediting the first unmet requirement does not look ahead: the first approver, holding both
   permissions, takes Product, and then the second, who holds only Product, is refused. In the other
   order both are accepted and the request is approved.
   */
  lemma GreedyCreditDoesNotLookAhead()
    ensures var first := Decide(PRICING, Input("both", Approve, 1, PRICING.target, ["P", "F"]), 1);
      && first.Ok?
      && Decide(first.value, Input("one", Approve, 2, PRICING.target, ["P"]), 2) == Err(NotEligible)
    ensures var first := Decide(PRICING, Input("one", Approve, 1, PRICING.target, ["P"]), 1);
      && first.Ok?
      && EndsApproved(Decide(first.value, Input("both", Approve, 2, PRICING.target, ["P", "F"]), 2))
  {
    HolderOfOneTakesProduct();
    HolderOfBothCompletes();
    HolderOfBothTakesProduct();
    var d := Decision("both", Approve, 1, Some("P"));
    var first := Decided(PRICING, d, Pending);
    assert first.decisions == [d];
    CreditedCountStep([], d, "P");
    assert [] + [d] == [d];
    forall q | q in first.requirements && q.permission in ["P"]
      ensures Met(q, first.decisions)
    {
      assert q == PRODUCT || q == FINANCE;
      assert "P"[0] != "F"[0];
    }
    ApprovalCredit(first, ["P"]);
    assert "both"[0] != "one"[0];
  }
}
