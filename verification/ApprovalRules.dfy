/**
 What the approval commands accept and make, told from the request, the input and the clock alone, with
 none of the functions that decide.
 */
module ApprovalRules {
  import opened Wrappers
  import opened Blanks
  import opened Approval

  // ----- Vocabulary -----

  /** The decisions that approve on account of this permission. */
  function CreditsTo(decisions: seq<Decision>, permission: string): set<nat> {
    set i: nat | i < |decisions| && decisions[i].kind == Approve && decisions[i].credited == Some(permission)
  }

  function ApprovalsIn(decisions: seq<Decision>): set<nat> {
    set i: nat | i < |decisions| && decisions[i].kind == Approve
  }

  predicate Open(q: Requirement, decisions: seq<Decision>) {
    |CreditsTo(decisions, q.permission)| < q.count
  }

  predicate SameTarget(a: Target, b: Target) {
    a.actionType == b.actionType && a.targetType == b.targetType && a.targetId == b.targetId && a.targetVersion == b.targetVersion
  }

  /** Without requirements anybody qualifies; otherwise to reject takes any required permission, to approve one still open. */
  predicate Qualifies(r: Request, input: Input) {
    || r.requirements == []
    || exists i :: 0 <= i < |r.requirements| && Chosen(r, input, i)
  }

  /** The approver holds the permission of requirement `i`, and approving, it is still open. */
  predicate Chosen(r: Request, input: Input, i: nat)
    requires i < |r.requirements|
  {
    r.requirements[i].permission in input.permissions && (input.kind == Reject || Open(r.requirements[i], r.decisions))
  }

  /** The first requirement that qualifies the approver. */
  predicate FirstChosen(r: Request, input: Input, i: nat)
    requires i < |r.requirements|
  {
    Chosen(r, input, i) && forall j :: 0 <= j < i ==> !Chosen(r, input, j)
  }

  predicate FreshActor(r: Request, actor: string) {
    forall i :: 0 <= i < |r.decisions| ==> r.decisions[i].actor != actor
  }

  /** Nothing is open any more. */
  predicate Complete(r: Request, decisions: seq<Decision>) {
    if r.requirements == [] then |ApprovalsIn(decisions)| >= r.requiredApprovals
    else forall i :: 0 <= i < |r.requirements| ==> !Open(r.requirements[i], decisions)
  }

  // ----- The counting agrees -----

  lemma {:induction false} CountIsCredits(decisions: seq<Decision>, permission: string)
    ensures CreditedCount(decisions, permission) == |CreditsTo(decisions, permission)|
  {
    if decisions != [] {
      var front, last := decisions[..|decisions| - 1], |decisions| - 1;
      CountIsCredits(front, permission);
      var rest := CreditsTo(front, permission);
      assert CreditsTo(decisions, permission) == if CountsFor(decisions[last], permission) then rest + {last} else rest;
    } else {
      assert CreditsTo(decisions, permission) == {};
    }
  }

  lemma {:induction false} ApprovalsAreApprovals(decisions: seq<Decision>)
    ensures Approvals(decisions) == |ApprovalsIn(decisions)|
  {
    if decisions != [] {
      var front, last := decisions[..|decisions| - 1], |decisions| - 1;
      ApprovalsAreApprovals(front);
      var rest := ApprovalsIn(front);
      assert ApprovalsIn(decisions) == if decisions[last].kind.Approve? then rest + {last} else rest;
    } else {
      assert ApprovalsIn(decisions) == {};
    }
  }

  lemma OpenIsUnmet(q: Requirement, decisions: seq<Decision>)
    ensures Open(q, decisions) <==> !Met(q, decisions)
  {
    CountIsCredits(decisions, q.permission);
  }

  lemma CompleteIsSatisfied(r: Request, decisions: seq<Decision>)
    ensures Complete(r, decisions) <==> Satisfied(r, decisions)
  {
    ApprovalsAreApprovals(decisions);
    forall i | 0 <= i < |r.requirements|
      ensures Open(r.requirements[i], decisions) <==> !Met(r.requirements[i], decisions)
    {
      OpenIsUnmet(r.requirements[i], decisions);
    }
  }

  // ----- Crediting takes the first that qualifies -----

  /** Of the requirements from `from` on, the first held one is the first eligible one. */
  lemma {:induction false} FirstEligible(requirements: seq<Requirement>, permissions: seq<string>)
    ensures Eligible(requirements, permissions) == [] <==> forall i :: 0 <= i < |requirements| ==> requirements[i].permission !in permissions
    ensures Eligible(requirements, permissions) != [] ==>
      exists i :: 0 <= i < |requirements| && requirements[i] == Eligible(requirements, permissions)[0] && requirements[i].permission in permissions
        && forall j :: 0 <= j < i ==> requirements[j].permission !in permissions
  {
    if requirements != [] {
      var rest := requirements[1..];
      FirstEligible(rest, permissions);
      if requirements[0].permission in permissions {
        assert requirements[0] == Eligible(requirements, permissions)[0];
      } else {
        assert forall i :: 0 < i < |requirements| ==> requirements[i] == rest[i - 1];
        if Eligible(rest, permissions) != [] {
          var i :| 0 <= i < |rest| && rest[i] == Eligible(rest, permissions)[0] && rest[i].permission in permissions
            && forall j :: 0 <= j < i ==> rest[j].permission !in permissions;
          assert requirements[i + 1] == rest[i];
          forall j | 0 <= j < i + 1
            ensures requirements[j].permission !in permissions
          {
            assert j > 0 ==> requirements[j] == rest[j - 1];
          }
        }
      }
    }
  }

  /** Requirement `i` is held and unmet, and no earlier one is. */
  predicate FirstHeldUnmet(requirements: seq<Requirement>, permissions: seq<string>, decisions: seq<Decision>, i: nat)
    requires i < |requirements|
  {
    && requirements[i].permission in permissions && !Met(requirements[i], decisions)
    && forall j :: 0 <= j < i ==> !(requirements[j].permission in permissions && !Met(requirements[j], decisions))
  }

  lemma {:induction false} FirstUnmetEligible(requirements: seq<Requirement>, permissions: seq<string>, decisions: seq<Decision>)
    ensures var unmet := FirstUnmet(Eligible(requirements, permissions), decisions);
      && (unmet.None? <==> forall i :: 0 <= i < |requirements| ==> !(requirements[i].permission in permissions && !Met(requirements[i], decisions)))
      && (unmet.Some? ==> exists i :: 0 <= i < |requirements| && requirements[i] == unmet.value
                             && FirstHeldUnmet(requirements, permissions, decisions, i))
  {
    if requirements != [] {
      var rest := requirements[1..];
      var eligible := Eligible(requirements, permissions);
      FirstUnmetEligible(rest, permissions, decisions);
      assert forall i :: 0 < i < |requirements| ==> requirements[i] == rest[i - 1];
      if requirements[0].permission in permissions {
        assert eligible[0] == requirements[0] && eligible[1..] == Eligible(rest, permissions);
      }
      if requirements[0].permission in permissions && !Met(requirements[0], decisions) {
        assert FirstHeldUnmet(requirements, permissions, decisions, 0);
      } else if FirstUnmet(Eligible(rest, permissions), decisions).Some? {
        var i :| 0 <= i < |rest| && rest[i] == FirstUnmet(Eligible(rest, permissions), decisions).value
          && FirstHeldUnmet(rest, permissions, decisions, i);
        assert requirements[i + 1] == rest[i];
        assert FirstHeldUnmet(requirements, permissions, decisions, i + 1);
      }
    }
  }

  lemma ChosenIsUnmet(r: Request, input: Input, i: nat)
    requires i < |r.requirements|
    ensures Chosen(r, input, i) <==>
      r.requirements[i].permission in input.permissions && (input.kind == Reject || !Met(r.requirements[i], r.decisions))
  {
    OpenIsUnmet(r.requirements[i], r.decisions);
  }

  /** Crediting succeeds exactly for who qualifies, with the first requirement that does. */
  lemma CreditIsFirstChosen(r: Request, input: Input)
    ensures CreditFor(r, input.kind, input.permissions).Ok? <==> Qualifies(r, input)
    ensures r.requirements == [] ==> CreditFor(r, input.kind, input.permissions) == Ok(None)
    ensures r.requirements != [] && CreditFor(r, input.kind, input.permissions).Ok? ==>
      exists i :: 0 <= i < |r.requirements| && FirstChosen(r, input, i)
        && CreditFor(r, input.kind, input.permissions) == Ok(Some(r.requirements[i].permission))
  {
    forall i | 0 <= i < |r.requirements|
      ensures Chosen(r, input, i) <==>
        r.requirements[i].permission in input.permissions && (input.kind == Reject || !Met(r.requirements[i], r.decisions))
    {
      ChosenIsUnmet(r, input, i);
    }
    FirstEligible(r.requirements, input.permissions);
    FirstUnmetEligible(r.requirements, input.permissions, r.decisions);
  }

  // ----- What is accepted -----

  /** Pending, at the expected version, not expired, of the same target, by a new decider who is not barred as the maker. */
  predicate MayTakePart(r: Request, approver: string, expectedVersion: int, target: Target, now: int) {
    && r.status == Pending && expectedVersion == r.version && now < r.expiresAt
    && SameTarget(target, r.target)
    && (r.separationOfDuties ==> approver != r.maker)
    && FreshActor(r, approver)
  }

  /** When a decision is accepted. */
  predicate MayDecide(r: Request, input: Input, now: int) {
    MayTakePart(r, input.approver, input.expectedVersion, input.target, now) && Qualifies(r, input)
  }

  /** A decision is accepted if and only if all of this holds. */
  lemma DecisionAccepted(r: Request, input: Input, now: int)
    ensures Decide(r, input, now).Ok? <==> MayDecide(r, input, now)
  {
    CreditIsFirstChosen(r, input);
  }

  /** The first condition that fails, in the order the checks are made. */
  function FirstFault(r: Request, input: Input, now: int): Problem {
    if input.expectedVersion != r.version then VersionConflict
    else if r.status != Pending then NotPending
    else if now >= r.expiresAt then HasExpired
    else if !SameTarget(input.target, r.target) then TargetMismatch
    else if r.separationOfDuties && input.approver == r.maker then MakerDecides
    else if !FreshActor(r, input.approver) then SecondDecision
    else NotEligible
  }

  lemma DecisionRefused(r: Request, input: Input, now: int)
    ensures Decide(r, input, now).Err? ==> Decide(r, input, now).error == FirstFault(r, input, now)
  {
    CreditIsFirstChosen(r, input);
  }

  /** The credit of an accepted decision: the first requirement that qualifies the approver, if there are requirements. */
  predicate CreditedFirst(r: Request, input: Input, credited: Option<string>) {
    if r.requirements == [] then credited == None
    else exists i :: 0 <= i < |r.requirements| && FirstChosen(r, input, i) && credited == Some(r.requirements[i].permission)
  }

  /** What an accepted decision makes of the request, field by field. */
  lemma DecisionMakes(r: Request, input: Input, now: int)
    requires MayDecide(r, input, now)
    ensures Decide(r, input, now).Ok?
    ensures var next := Decide(r, input, now).value;
      && |next.decisions| == |r.decisions| + 1 && next.decisions[..|r.decisions|] == r.decisions
      && var d := next.decisions[|r.decisions|];
         && d.actor == input.approver && d.kind == input.kind && d.decidedAt == now && CreditedFirst(r, input, d.credited)
         && next.status == (if input.kind == Reject then Rejected else if Complete(r, r.decisions + [d]) then Approved else Pending)
    ensures SameTerms(r, Decide(r, input, now).value) && Decide(r, input, now).value.version == r.version + 1
  {
    DecisionAccepted(r, input, now);
    CreditIsFirstChosen(r, input);
    var d := DecisionMade(r, input, now);
    CompleteIsSatisfied(r, r.decisions + [d]);
    ApplySameTerms(r, DecideWith(input, now));
  }

  /** Cancelling is the maker's, while the request is pending, and changes its status and version only. */
  lemma CancellationAccepted(r: Request, actor: string, expectedVersion: int)
    ensures Cancel(r, actor, expectedVersion).Ok? <==> r.status == Pending && expectedVersion == r.version && actor == r.maker
    ensures Cancel(r, actor, expectedVersion).Ok? ==>
      && Cancel(r, actor, expectedVersion).value.status == Cancelled && Cancel(r, actor, expectedVersion).value.version == r.version + 1
      && Cancel(r, actor, expectedVersion).value.decisions == r.decisions && SameTerms(r, Cancel(r, actor, expectedVersion).value)
  {
  }

  /** Expiring is accepted while the request is pending, at or after its time and not before. */
  lemma ExpiryAccepted(r: Request, expectedVersion: int, now: int)
    ensures Expire(r, expectedVersion, now).Ok? <==> r.status == Pending && expectedVersion == r.version && r.expiresAt <= now
    ensures Expire(r, expectedVersion, now).Ok? ==>
      && Expire(r, expectedVersion, now).value.status == Expired && Expire(r, expectedVersion, now).value.version == r.version + 1
      && Expire(r, expectedVersion, now).value.decisions == r.decisions && SameTerms(r, Expire(r, expectedVersion, now).value)
  {
  }

  predicate MayPropose(id: string, target: Target, policy: Policy) {
    && !Blank(id) && !Blank(target.actionType) && !Blank(target.targetType) && !Blank(target.targetId)
    && target.actionType == policy.actionType && target.targetVersion >= 1
    && policy.requiredApprovals >= 1 && policy.expiresAfterSeconds > 0
    && forall i :: 0 <= i < |policy.requirements| ==>
         && !Blank(policy.requirements[i].permission) && policy.requirements[i].count >= 1
         && forall j :: 0 <= j < i ==> policy.requirements[j].permission != policy.requirements[i].permission
  }

  predicate AsProposed(r: Request, id: string, target: Target, policy: Policy, maker: string, now: int) {
    && r.id == id && r.target == target && r.maker == maker
    && r.separationOfDuties == policy.separationOfDuties && r.requirements == policy.requirements
    && (policy.requirements == [] ==> r.requiredApprovals == policy.requiredApprovals)
    && r.status == Pending && r.decisions == [] && r.version == 1
    && r.createdAt == now && r.expiresAt == now + policy.expiresAfterSeconds * 1000
  }

  /** A proposal is accepted exactly from these; it is pending, undecided, at version 1, and expires after the policy's seconds. */
  lemma ProposalAccepted(id: string, target: Target, policy: Policy, maker: string, now: int)
    ensures Propose(id, target, policy, maker, now).Ok? <==> MayPropose(id, target, policy)
    ensures Propose(id, target, policy, maker, now).Ok? ==>
      AsProposed(Propose(id, target, policy, maker, now).value, id, target, policy, maker, now)
  {
  }
}
