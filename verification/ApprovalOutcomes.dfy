/** Which decisions the approval handler lets take effect, by the permissions that the approver holds when deciding. */
module ApprovalOutcomes {
  import opened Wrappers
  import opened Approval
  import opened ApprovalRules
  import Commands = ApprovalCommands

  /** Whether a decision is accepted, by the permissions that the approver holds now. */
  predicate MayDecideNow(r: Request, approver: string, kind: Kind, expectedVersion: int, target: Target, holds: string -> bool, now: int) {
    && MayTakePart(r, approver, expectedVersion, target, now)
    && (r.requirements == []
        || exists i :: 0 <= i < |r.requirements| && holds(r.requirements[i].permission) && (kind == Reject || Open(r.requirements[i], r.decisions)))
  }

  /** The handler collects exactly the required permissions that are held. */
  lemma {:induction false} HeldAreHeld(requirements: seq<Requirement>, holds: string -> bool)
    ensures forall i :: 0 <= i < |requirements| ==> (requirements[i].permission in Commands.Held(requirements, holds) <==> holds(requirements[i].permission))
    ensures forall p :: p in Commands.Held(requirements, holds) ==> holds(p)
  {
    if requirements != [] {
      HeldAreHeld(requirements[..|requirements| - 1], holds);
    }
  }

  /** The handler's verdict on an undisturbed decision is success if and only if these rules allow it. */
  lemma DecisionOnAccepted(r: Request, approver: string, kind: Kind, expectedVersion: int, target: Target, holds: string -> bool, now: int)
    ensures Commands.ApplyCommand(Some(r), Commands.DecisionOn(r, approver, kind, expectedVersion, target, holds, now)).Some?
      <==> MayDecideNow(r, approver, kind, expectedVersion, target, holds, now)
    ensures Commands.Verdict(r, Commands.DecisionOn(r, approver, kind, expectedVersion, target, holds, now)).Ok?
      <==> MayDecideNow(r, approver, kind, expectedVersion, target, holds, now)
  {
    var input := Commands.DecisionOn(r, approver, kind, expectedVersion, target, holds, now).input;
    HeldAreHeld(r.requirements, holds);
    DecisionAccepted(r, input, now);
    forall i | 0 <= i < |r.requirements|
      ensures Chosen(r, input, i) <==> holds(r.requirements[i].permission) && (kind == Reject || Open(r.requirements[i], r.decisions))
    {
    }
  }

  /** Whatever others did, a decision that took effect was allowed by the snapshot directly before it. */
  lemma DecidedLastWasAccepted(s: Commands.ApprovalStore, tx: nat, approver: string, kind: Kind, expectedVersion: int, target: Target,
                               holds: string -> bool, now: int)
    requires Commands.DecidedLast(Commands.ApprovalRules(), s, tx, approver, kind, expectedVersion, target, holds, now)
    ensures |s.history| >= 2 && MayDecideNow(s.history[|s.history| - 2], approver, kind, expectedVersion, target, holds, now)
  {
    var before := s.history[|s.history| - 2];
    var command := Commands.DecisionOn(before, approver, kind, expectedVersion, target, holds, now);
    assert Commands.ApprovalRules().apply(Some(before), command) == Commands.ApplyCommand(Some(before), command);
    DecisionOnAccepted(before, approver, kind, expectedVersion, target, holds, now);
  }
}
