/** The tenant lifecycle: provisioning, the transition table, and what its events and audit facts tell under concurrent commands. */
module Tenant {
  import opened Wrappers
  import opened Blanks
  import opened VersionChain

  datatype State = Provisioning | Active | Suspended | Closed

  /** The types of tenant events; without their version suffix they are the audited actions. */
  datatype EventType = Provisioned | Activated | WasSuspended | WasClosed

  datatype Snapshot = Snapshot(id: string, displayName: string, state: State, version: int, createdAt: int, updatedAt: int)

  datatype DomainEvent = DomainEvent(eventType: EventType, tenantId: string, aggregateVersion: int, occurredAt: int)

  datatype Change = Change(tenant: Snapshot, event: DomainEvent)

  datatype Problem =
    | DisplayNameRequired
    | ReasonRequired
    | VersionConflict
    | InvalidTransition
    | TenantNotFound
    | AlreadyExists
    | Interrupted
    | Unacknowledged

  function Transitions(state: State): seq<State> {
    match state
    case Provisioning => [Active]
    case Active => [Suspended, State.Closed]
    case Suspended => [Active, State.Closed]
    case Closed => []
  }

  /** Nothing leads back to provisioning, so its entry is never used. */
  function TransitionEvent(target: State): EventType {
    match target
    case Provisioning => Provisioned
    case Active => Activated
    case Suspended => WasSuspended
    case Closed => WasClosed
  }

  function Provision(id: string, displayName: string, now: int): Result<Change, Problem> {
    var name := Trim(displayName);
    if name == "" then Err(DisplayNameRequired)
    else Ok(Change(Snapshot(id, name, Provisioning, 1, now, now), DomainEvent(Provisioned, id, 1, now)))
  }

  function Transition(current: Snapshot, target: State, expectedVersion: int, now: int): Result<Change, Problem> {
    if current.version != expectedVersion then Err(VersionConflict)
    else if target !in Transitions(current.state) then Err(InvalidTransition)
    else
      var next := current.version + 1;
      Ok(Change(current.(state := target, version := next, updatedAt := now), DomainEvent(TransitionEvent(target), current.id, next, now)))
  }

  // ----- What is accepted, and what it makes -----

  /** The paths of the lifecycle: activation once provisioned, suspension and back, closing from either. */
  predicate Legal(before: State, after: State) {
    || (before.Provisioning? && after.Active?)
    || (before.Active? && (after.Suspended? || after.Closed?))
    || (before.Suspended? && (after.Active? || after.Closed?))
  }

  /** A transition is accepted exactly at the expected version and along a legal path; the version is looked at first. */
  lemma TransitionAccepted(current: Snapshot, target: State, expectedVersion: int, now: int)
    ensures Transition(current, target, expectedVersion, now).Ok? <==> current.version == expectedVersion && Legal(current.state, target)
    ensures Transition(current, target, expectedVersion, now) == Err(VersionConflict) <==> current.version != expectedVersion
    ensures Transition(current, target, expectedVersion, now) == Err(InvalidTransition)
      <==> current.version == expectedVersion && !Legal(current.state, target)
  {
  }

  /** Identity, name and creation time stay; the event's type is that of the new state. */
  lemma TransitionMakes(current: Snapshot, target: State, expectedVersion: int, now: int)
    requires current.version == expectedVersion && Legal(current.state, target)
    ensures Transition(current, target, expectedVersion, now).Ok?
    ensures var change := Transition(current, target, expectedVersion, now).value;
      && change.tenant == Snapshot(current.id, current.displayName, target, current.version + 1, current.createdAt, now)
      && change.event.tenantId == current.id && change.event.aggregateVersion == current.version + 1 && change.event.occurredAt == now
      && (target.Active? <==> change.event.eventType.Activated?)
      && (target.Suspended? <==> change.event.eventType.WasSuspended?)
      && (target.Closed? <==> change.event.eventType.WasClosed?)
  {
  }

  /** A tenant is provisioned exactly under a name that is not blank, and as its first version. */
  lemma ProvisionAccepted(id: string, displayName: string, now: int)
    ensures Provision(id, displayName, now).Ok? <==> !Blank(displayName)
    ensures Provision(id, displayName, now).Err? ==> Provision(id, displayName, now).error == DisplayNameRequired
    ensures Provision(id, displayName, now).Ok? ==>
      Provision(id, displayName, now).value
      == Change(Snapshot(id, Trim(displayName), Provisioning, 1, now, now), DomainEvent(Provisioned, id, 1, now))
  {
    TrimmedIsBlank(displayName);
  }

  // ----- What the handlers record -----

  datatype EventData = Named(displayName: string, newState: State) | Moved(previousState: State, newState: State)

  /** The event as it is appended to the outbox. */
  datatype Envelope = Envelope(eventType: EventType, aggregateId: string, aggregateVersion: int, occurredAt: int, data: EventData)

  datatype Evidence = Evidence(state: State, version: int)

  datatype Fact = Fact(action: EventType, targetId: string, occurredAt: int, before: Option<Evidence>, after: Evidence, reason: Option<string>)

  function EnvelopeFor(change: Change, data: EventData): Envelope {
    Envelope(change.event.eventType, change.tenant.id, change.event.aggregateVersion, change.event.occurredAt, data)
  }

  function EvidenceOf(tenant: Snapshot): Evidence {
    Evidence(tenant.state, tenant.version)
  }

  type TenantDecision = Decision<Snapshot, Envelope, Fact>

  function Provisions(change: Change): TenantDecision {
    Decision(change.tenant, EnvelopeFor(change, Named(change.tenant.displayName, change.tenant.state)),
             Fact(change.event.eventType, change.tenant.id, change.event.occurredAt, None, EvidenceOf(change.tenant), None))
  }

  function Moves(current: Snapshot, change: Change, reason: Option<string>): TenantDecision {
    Decision(change.tenant, EnvelopeFor(change, Moved(current.state, change.tenant.state)),
             Fact(change.event.eventType, change.tenant.id, change.event.occurredAt, Some(EvidenceOf(current)), EvidenceOf(change.tenant), reason))
  }

  // ----- As a versioned aggregate -----

  /** A reason is trimmed, and absent when nothing is left of it. */
  datatype Command =
    | ProvisionAs(id: string, displayName: string, now: int)
    | MoveTo(target: State, expectedVersion: int, reason: Option<string>, now: int)

  function Apply(current: Option<Snapshot>, command: Command): Option<TenantDecision> {
    match command
    case ProvisionAs(id, displayName, now) =>
      var change := Provision(id, displayName, now);
      if current.None? && change.Ok? then Some(Provisions(change.value)) else None
    case MoveTo(target, expectedVersion, reason, now) =>
      if current.None? then None
      else
        var change := Transition(current.value, target, expectedVersion, now);
        if change.Ok? then Some(Moves(current.value, change.value, reason)) else None
  }

  function TenantRules(): Rules<Snapshot, Command, Envelope, Fact> {
    Rules((s: Snapshot) => s.version, (e: Envelope) => e.aggregateVersion, (f: Fact) => f.after.version,
          (current: Option<Snapshot>, c: Command) => Apply(current, c))
  }

  /** What a command along a legal path writes: the snapshot, the event and the audit fact with its reason. */
  lemma MoveWrites(current: Snapshot, target: State, reason: Option<string>, now: int)
    requires Legal(current.state, target)
    ensures Apply(Some(current), MoveTo(target, current.version, reason, now)).Some?
    ensures var d := Apply(Some(current), MoveTo(target, current.version, reason, now)).value;
      && d.next == Snapshot(current.id, current.displayName, target, current.version + 1, current.createdAt, now)
      && d.event == Envelope(d.event.eventType, current.id, current.version + 1, now, Moved(current.state, target))
      && d.fact == Fact(d.event.eventType, current.id, now, Some(Evidence(current.state, current.version)), Evidence(target, current.version + 1), reason)
      && StateAfter(d.event.eventType) == target && !d.event.eventType.Provisioned?
  {
  }

  type TenantStore = Store<Snapshot, Envelope, Fact>

  type TenantStep = Step<Command>

  lemma TenantsCountVersions()
    ensures CountsVersions(TenantRules())
  {
    forall before, c | TenantRules().apply(before, c).Some?
      ensures Carries(TenantRules(), TenantRules().apply(before, c).value, if before.None? then 1 else before.value.version + 1)
    {
      assert TenantRules().apply(before, c) == Apply(before, c);
    }
  }

  /** The state an event type stands for. */
  function StateAfter(eventType: EventType): State {
    match eventType
    case Provisioned => Provisioning
    case Activated => Active
    case WasSuspended => Suspended
    case WasClosed => State.Closed
  }

  /** Accepted transitions announce the snapshot they make, with its version, time and state. */
  lemma ChangesAnnounceThemselves(current: Snapshot, target: State, expectedVersion: int, now: int, change: Change)
    requires Transition(current, target, expectedVersion, now) == Ok(change)
    ensures StateAfter(change.event.eventType) == change.tenant.state == target
    ensures change.event.tenantId == change.tenant.id == current.id
    ensures change.event.aggregateVersion == change.tenant.version == current.version + 1
    ensures change.event.occurredAt == change.tenant.updatedAt
  {
  }

  /** Successive states follow the lifecycle's paths, and identity, name and creation time never change. */
  predicate Succeeds(before: Snapshot, after: Snapshot) {
    && Legal(before.state, after.state)
    && after.version == before.version + 1
    && after.(state := before.state, version := before.version, updatedAt := before.updatedAt) == before
  }

  /** The envelope tells the snapshot it was committed with. */
  predicate Announces(event: Envelope, tenant: Snapshot) {
    && StateAfter(event.eventType) == event.data.newState == tenant.state
    && event.aggregateId == tenant.id && event.aggregateVersion == tenant.version && event.occurredAt == tenant.updatedAt
  }

  /** The audit fact tells the same step as the event, from the same state. */
  predicate Evidences(fact: Fact, event: Envelope, before: Option<Snapshot>) {
    && fact.action == event.eventType && fact.targetId == event.aggregateId && fact.occurredAt == event.occurredAt
    && fact.after == Evidence(event.data.newState, event.aggregateVersion)
    && (if before.None? then event.data.Named? && fact.before.None?
        else event.data.Moved? && fact.before == Some(EvidenceOf(before.value)) && event.data.previousState == before.value.state)
  }

  /** What one command makes of the snapshot before it, in all three of its records. */
  lemma FollowsTells(before: Option<Snapshot>, d: TenantDecision)
    requires Follows(TenantRules(), before, d)
    ensures Announces(d.event, d.next) && Evidences(d.fact, d.event, before)
    ensures if before.None? then d.next.state == Provisioning && d.event.eventType == Provisioned
            else Succeeds(before.value, d.next) && d.event.eventType != Provisioned
  {
    var c :| TenantRules().apply(before, c) == Some(d);
    assert Apply(before, c) == Some(d);
  }

  /** Index `i` of a tenant's history, with the snapshot before it. */
  lemma TellsAt(s: TenantStore, i: nat)
    requires Linked(TenantRules(), s) && i < |s.history|
    ensures Announces(s.outbox[i].event, s.history[i])
    ensures Evidences(s.audit[i], s.outbox[i].event, if i == 0 then None else Some(s.history[i - 1]))
    ensures if i == 0 then s.history[i].state == Provisioning && s.outbox[i].event.eventType == Provisioned
            else Succeeds(s.history[i - 1], s.history[i]) && s.outbox[i].event.eventType != Provisioned
  {
    if i == 0 {
      LinkedFirst(TenantRules(), s);
      FollowsTells(None, Decision(s.history[0], s.outbox[0].event, s.audit[0]));
    } else {
      LinkedTo(TenantRules(), s, i);
      FollowsTells(Some(s.history[i - 1]), Decision(s.history[i], s.outbox[i].event, s.audit[i]));
    }
  }

  /** Under every interleaving of commands, the committed history of a tenant runs along the lifecycle's paths. */
  lemma TenantHistory(steps: seq<TenantStep>)
    ensures var history := Exec(TenantRules(), steps).history;
      && (history != [] ==> history[0].state == Provisioning)
      && forall i :: 0 < i < |history| ==> Succeeds(history[i - 1], history[i])
  {
    TenantsCountVersions();
    HistoryIsAChain(TenantRules(), steps);
    var s := Exec(TenantRules(), steps);
    if s.history != [] {
      TellsAt(s, 0);
    }
    forall i | 0 < i < |s.history|
      ensures Succeeds(s.history[i - 1], s.history[i])
    {
      TellsAt(s, i);
    }
  }

  /**
   The last event in the outbox determines the stored row: its type the state, and its other fields
   identity, version and time of change.
   */
  lemma LastEventDeterminesState(steps: seq<TenantStep>)
    ensures var s := Exec(TenantRules(), steps);
      s.committed.Some? ==>
        && s.outbox != []
        && var event := s.outbox[|s.outbox| - 1].event;
           && s.committed.value.state == StateAfter(event.eventType)
           && s.committed.value.id == event.aggregateId
           && s.committed.value.version == event.aggregateVersion
           && s.committed.value.updatedAt == event.occurredAt
  {
    TenantsCountVersions();
    HistoryIsAChain(TenantRules(), steps);
    var s := Exec(TenantRules(), steps);
    if s.committed.Some? {
      TellsAt(s, |s.history| - 1);
    }
  }

  /** The events alone tell the whole history: their types run along the lifecycle's paths, each naming the state it left. */
  lemma EventsFollowTheTable(steps: seq<TenantStep>)
    ensures var outbox := Exec(TenantRules(), steps).outbox;
      forall i :: 0 < i < |outbox| ==>
        var before, after := outbox[i - 1].event, outbox[i].event;
        && Legal(StateAfter(before.eventType), StateAfter(after.eventType))
        && after.data == Moved(StateAfter(before.eventType), StateAfter(after.eventType))
        && after.aggregateId == before.aggregateId
  {
    TenantsCountVersions();
    HistoryIsAChain(TenantRules(), steps);
    var s := Exec(TenantRules(), steps);
    forall i | 0 < i < |s.outbox|
      ensures Legal(StateAfter(s.outbox[i - 1].event.eventType), StateAfter(s.outbox[i].event.eventType))
      ensures s.outbox[i].event.data == Moved(StateAfter(s.outbox[i - 1].event.eventType), StateAfter(s.outbox[i].event.eventType))
      ensures s.outbox[i].event.aggregateId == s.outbox[i - 1].event.aggregateId
    {
      TellsAt(s, i - 1);
      TellsAt(s, i);
    }
  }

  /** The fact at `i` tells what the event at `i` tells, and its earlier state is the later state of the fact before. */
  predicate AuditMatchesAt(s: TenantStore, i: nat)
    requires i < |s.audit| == |s.outbox|
  {
    && s.audit[i].action == s.outbox[i].event.eventType
    && s.audit[i].targetId == s.outbox[i].event.aggregateId
    && s.audit[i].after == Evidence(s.outbox[i].event.data.newState, s.outbox[i].event.aggregateVersion)
    && s.audit[i].before == if i == 0 then None else Some(s.audit[i - 1].after)
  }

  lemma MatchesAt(s: TenantStore, i: nat)
    requires Linked(TenantRules(), s) && i < |s.history|
    ensures AuditMatchesAt(s, i)
  {
    TellsAt(s, i);
    if i > 0 {
      TellsAt(s, i - 1);
    }
  }

  /** Fact by fact the audit trail tells what the outbox tells. */
  lemma AuditMatchesEvents(steps: seq<TenantStep>)
    ensures var s := Exec(TenantRules(), steps);
      |s.audit| == |s.outbox| && forall i :: 0 <= i < |s.audit| ==> AuditMatchesAt(s, i)
  {
    TenantsCountVersions();
    HistoryIsAChain(TenantRules(), steps);
    var s := Exec(TenantRules(), steps);
    forall i | 0 <= i < |s.audit|
      ensures AuditMatchesAt(s, i)
    {
      MatchesAt(s, i);
    }
  }

  /** A closed tenant never changes again. */
  lemma ClosedIsFinal(steps: seq<TenantStep>, i: nat)
    requires i < |Exec(TenantRules(), steps).outbox| && Exec(TenantRules(), steps).outbox[i].event.eventType == WasClosed
    ensures i == |Exec(TenantRules(), steps).outbox| - 1
    ensures Exec(TenantRules(), steps).committed.Some? && Exec(TenantRules(), steps).committed.value.state == State.Closed
  {
    TenantsCountVersions();
    HistoryIsAChain(TenantRules(), steps);
    var s := Exec(TenantRules(), steps);
    TellsAt(s, i);
    forall c: Command
      ensures TenantRules().apply(Some(s.history[i]), c).None?
    {
      assert TenantRules().apply(Some(s.history[i]), c) == Apply(Some(s.history[i]), c);
    }
    FinalSnapshotIsLast(TenantRules(), steps, i);
  }

  /** Only the first event provisions, and a tenant that left provisioning does not return to it. */
  lemma ProvisionedOnce(steps: seq<TenantStep>, i: nat)
    requires i < |Exec(TenantRules(), steps).outbox|
    ensures Exec(TenantRules(), steps).outbox[i].event.eventType == Provisioned <==> i == 0
  {
    TenantsCountVersions();
    HistoryIsAChain(TenantRules(), steps);
    TellsAt(Exec(TenantRules(), steps), i);
  }
}
