/**
 End to end: the outbox, the fan-out publisher, the per-consumer delivery queue and the inbox.

 The outbox dispatcher's publisher inserts one delivery row per subscribed consumer, and a delivery
 worker is the same dispatcher on the delivery queue with the consumer as its publisher. Both queues
 are instances of `Outbox.Queue`; only their hand-over steps do more than log: `Publish` fans out,
 `Consume` runs the deduplicating transaction of the inbox.
 */
module Relay {
  import opened Wrappers
  import opened Outbox
  import opened OutboxOrder
  import opened Routes

  datatype Config = Config(routes: map<string, seq<string>>, outboxMax: nat, deliveryMax: nat)

  datatype InboxKey = InboxKey(consumer: string, tenant: string, eventId: string)

  /** A committed run of a consumer's handler. */
  datatype Effect = Effect(key: InboxKey, delivery: nat)

  /** `origin[d]` is the outbox entry from which delivery `d` was fanned out. */
  datatype System = System(outbox: Queue, deliveries: Queue, origin: seq<nat>, inbox: set<InboxKey>, effects: seq<Effect>)

  const INITIAL := System(EMPTY, EMPTY, [], {}, [])

  datatype Move =
    | Produce(envelope: Envelope, now: int)
    | OutboxMove(step: Step)
    | Publish(task: nat, committed: bool, reported: bool, now: int)
    | DeliveryMove(step: Step)
    | Consume(task: nat, committed: bool, reported: bool)

  function ConsumersFor(config: Config, eventType: string): seq<string> {
    Subscribers(config.routes, eventType)
  }

  function ConsumerOf(row: Row): string {
    if row.consumer.Some? then row.consumer.value else ""
  }

  /** The deduplication key of a delivery row. */
  function KeyOf(row: Row): InboxKey {
    InboxKey(ConsumerOf(row), row.envelope.tenant, row.envelope.eventId)
  }

  predicate SameEvent(a: Envelope, b: Envelope) {
    a.tenant == b.tenant && a.eventId == b.eventId
  }

  predicate IsDelivery(row: Row, consumer: string, envelope: Envelope) {
    row.consumer == Some(consumer) && SameEvent(row.envelope, envelope)
  }

  /** `INSERT ... ON CONFLICT (consumer, tenant_id, event_id) DO NOTHING` for one consumer. */
  function InsertDelivery(config: Config, s: System, consumer: string, source: nat, now: int): System
    requires source < |s.outbox.rows|
  {
    var envelope := s.outbox.rows[source].envelope;
    if exists d :: 0 <= d < |s.deliveries.rows| && IsDelivery(s.deliveries.rows[d], consumer, envelope) then s
    else s.(deliveries := Next(s.deliveries, config.deliveryMax, Append(Some(consumer), envelope, now)),
            origin := s.origin + [source])
  }

  /** The fan-out statement: every listed consumer in turn. */
  function FanOut(config: Config, s: System, consumers: seq<string>, source: nat, now: int): (r: System)
    requires source < |s.outbox.rows|
    ensures r.outbox == s.outbox
  {
    if consumers == [] then s
    else InsertDelivery(config, FanOut(config, s, consumers[..|consumers| - 1], source, now), consumers[|consumers| - 1], source, now)
  }

  /** The consumer's transaction: record the event, and only the first time run the handler. */
  function Absorb(s: System, delivery: nat): System
    requires delivery < |s.deliveries.rows|
  {
    var key := KeyOf(s.deliveries.rows[delivery]);
    if key in s.inbox then s
    else s.(inbox := s.inbox + {key}, effects := s.effects + [Effect(key, delivery)])
  }

  predicate Internal(step: Step) {
    !step.Append? && !step.HandOver?
  }

  function Apply(config: Config, s: System, move: Move): System {
    match move
    case Produce(envelope, now) =>
      if exists o :: 0 <= o < |s.outbox.rows| && SameEvent(s.outbox.rows[o].envelope, envelope) then s
      else s.(outbox := Next(s.outbox, config.outboxMax, Append(None, envelope, now)))
    case OutboxMove(step) =>
      if Internal(step) then s.(outbox := Next(s.outbox, config.outboxMax, step)) else s
    case DeliveryMove(step) =>
      if Internal(step) then s.(deliveries := Next(s.deliveries, config.deliveryMax, step)) else s
    case Publish(task, committed, reported, now) =>
      if CanHandOver(s.outbox, config.outboxMax, task, committed, reported) && s.outbox.tasks[task].entry < |s.outbox.rows| then
        var entry := s.outbox.tasks[task].entry;
        var fanned := if committed
          then FanOut(config, s, ConsumersFor(config, s.outbox.rows[entry].envelope.eventType), entry, now) else s;
        fanned.(outbox := Next(s.outbox, config.outboxMax, HandOver(task, committed, reported)))
      else s
    case Consume(task, committed, reported) =>
      if CanHandOver(s.deliveries, config.deliveryMax, task, committed, reported)
        && s.deliveries.tasks[task].entry < |s.deliveries.rows|
      then
        var absorbed := if committed then Absorb(s, s.deliveries.tasks[task].entry) else s;
        absorbed.(deliveries := Next(s.deliveries, config.deliveryMax, HandOver(task, committed, reported)))
      else s
  }

  function Run(config: Config, moves: seq<Move>): System {
    if moves == [] then INITIAL
    else Apply(config, Run(config, moves[..|moves| - 1]), moves[|moves| - 1])
  }

  // ----- The invariant -----

  predicate Routed(config: Config, s: System, consumer: string, o: nat) {
    o < |s.outbox.rows| && consumer in ConsumersFor(config, s.outbox.rows[o].envelope.eventType)
  }

  /** Outbox rows are distinct events without a consumer. */
  predicate OutboxDistinct(s: System) {
    && (forall o :: 0 <= o < |s.outbox.rows| ==> s.outbox.rows[o].consumer == None)
    && (forall o, p :: 0 <= o < p < |s.outbox.rows| ==> !SameEvent(s.outbox.rows[o].envelope, s.outbox.rows[p].envelope))
  }

  /** Every delivery stems from one routed outbox row, and no pair of event and consumer occurs twice. */
  predicate DeliveriesMatch(config: Config, s: System) {
    && |s.origin| == |s.deliveries.rows|
    && (forall d :: 0 <= d < |s.origin| ==>
          && s.origin[d] < |s.outbox.rows|
          && s.deliveries.rows[d].envelope == s.outbox.rows[s.origin[d]].envelope
          && s.deliveries.rows[d].consumer.Some?
          && Routed(config, s, ConsumerOf(s.deliveries.rows[d]), s.origin[d]))
    && (forall d, e :: 0 <= d < e < |s.origin| ==>
          s.deliveries.rows[d].consumer != s.deliveries.rows[e].consumer || s.origin[d] != s.origin[e])
  }

  /** Outbox entry `o` has a delivery to `consumer` among the first `limit` delivery rows. */
  predicate Fanned(s: System, consumer: string, o: nat, limit: nat) {
    exists d :: 0 <= d < limit && FannedAs(s, consumer, o, d)
  }

  /** Delivery `d` is the one of outbox entry `o` to `consumer`. */
  predicate FannedAs(s: System, consumer: string, o: nat, d: nat) {
    d < |s.origin| && d < |s.deliveries.rows| && s.origin[d] == o && s.deliveries.rows[d].consumer == Some(consumer)
  }

  ghost predicate FannedToAll(config: Config, s: System, o: nat) {
    forall c :: Routed(config, s, c, o) ==> Fanned(s, c, o, |s.origin|)
  }

  /** An accepted publish reached every subscriber. */
  ghost predicate AcceptedIsFanned(config: Config, s: System) {
    forall o :: 0 <= o < |s.outbox.rows| && AcceptedIn(s.outbox.log, o) ==> FannedToAll(config, s, o)
  }

  /** Deliveries to one consumer follow the outbox order of an aggregate, up to skipped outbox entries. */
  ghost predicate DeliveriesOrdered(config: Config, s: System) {
    forall d, o :: DueBefore(config, s, d, o) ==> Fanned(s, ConsumerOf(s.deliveries.rows[d]), o, d)
  }

  /** Event `o` precedes the event of delivery `d` in its aggregate, is routed to the same consumer and not skipped. */
  predicate DueBefore(config: Config, s: System, d: int, o: int) {
    && 0 <= d < |s.origin| && d < |s.deliveries.rows| && 0 <= o < s.origin[d] < |s.outbox.rows|
    && s.outbox.rows[o].Stream() == s.outbox.rows[s.origin[d]].Stream()
    && !s.outbox.rows[o].status.Skipped?
    && Routed(config, s, ConsumerOf(s.deliveries.rows[d]), o)
  }

  predicate EffectsMatch(s: System) {
    && (forall p :: 0 <= p < |s.effects| ==>
          var d := s.effects[p].delivery;
          d < |s.deliveries.rows| && s.effects[p].key == KeyOf(s.deliveries.rows[d]))
    && (forall p :: 0 <= p < |s.effects| ==> s.effects[p].key in s.inbox)
    && (forall key :: key in s.inbox ==> exists p :: 0 <= p < |s.effects| && s.effects[p].key == key)
    && (forall p, r :: 0 <= p < r < |s.effects| ==> s.effects[p].key != s.effects[r].key)
  }

  /** Delivery `d` has a committed effect among the first `limit` effects. */
  predicate Effected(s: System, d: nat, limit: nat) {
    exists p :: 0 <= p < limit && p < |s.effects| && s.effects[p].delivery == d
  }

  /** Delivery `d` precedes the delivery of effect `p` in its stream and is not skipped. */
  predicate DueBeforeEffect(s: System, p: int, d: int) {
    && 0 <= p < |s.effects| && 0 <= d < s.effects[p].delivery < |s.deliveries.rows|
    && s.deliveries.rows[d].Stream() == s.deliveries.rows[s.effects[p].delivery].Stream()
    && !s.deliveries.rows[d].status.Skipped?
  }

  predicate AcceptedIsEffected(s: System) {
    forall d :: 0 <= d < |s.deliveries.rows| && AcceptedIn(s.deliveries.log, d) ==> Effected(s, d, |s.effects|)
  }

  ghost predicate EffectsOrdered(s: System) {
    forall p, d :: DueBeforeEffect(s, p, d) ==> Effected(s, d, p)
  }

  ghost predicate Invariant(config: Config, s: System) {
    && Ordered(s.outbox) && Ordered(s.deliveries)
    && OutboxDistinct(s)
    && DeliveriesMatch(config, s) && AcceptedIsFanned(config, s) && DeliveriesOrdered(config, s)
    && EffectsMatch(s) && AcceptedIsEffected(s) && EffectsOrdered(s)
  }

  // ----- Steps inside one queue -----

  /** A step other than a hand-over accepts nothing new. */
  lemma NothingAccepted(q: Queue, max: nat, step: Step, entry: nat)
    requires !step.HandOver? && AcceptedIn(Next(q, max, step).log, entry)
    ensures AcceptedIn(q.log, entry)
  {
    LogGrows(q, max, step);
    var n := Next(q, max, step);
    var k :| 0 <= k < |n.log| && IsAcceptance(n.log[k], entry);
    assert k < |q.log| && IsAcceptance(q.log[k], entry);
  }

  lemma FannedCarries(s: System, t: System, consumer: string, o: nat, limit: nat, more: nat)
    requires |s.origin| == |s.deliveries.rows| && |t.origin| == |t.deliveries.rows| && s.origin <= t.origin
    requires Evolves(s.deliveries.rows, t.deliveries.rows) && limit <= more && Fanned(s, consumer, o, limit)
    ensures Fanned(t, consumer, o, more)
  {
    var d :| 0 <= d < limit && FannedAs(s, consumer, o, d);
    assert FannedAs(t, consumer, o, d);
  }

  lemma FannedStays(config: Config, s: System, t: System, o: nat)
    requires |s.origin| == |s.deliveries.rows| && |t.origin| == |t.deliveries.rows| && s.origin <= t.origin
    requires Evolves(s.outbox.rows, t.outbox.rows) && Evolves(s.deliveries.rows, t.deliveries.rows)
    requires o < |s.outbox.rows| && FannedToAll(config, s, o)
    ensures FannedToAll(config, t, o)
  {
    forall c | Routed(config, t, c, o)
      ensures Fanned(t, c, o, |t.origin|)
    {
      assert Routed(config, s, c, o);
      FannedCarries(s, t, c, o, |s.origin|, |t.origin|);
    }
  }

  lemma MatchKept(config: Config, s: System, t: System)
    requires DeliveriesMatch(config, s) && t == s.(outbox := t.outbox) && Evolves(s.outbox.rows, t.outbox.rows)
    ensures DeliveriesMatch(config, t)
  {
    forall d | 0 <= d < |t.origin|
      ensures Routed(config, t, ConsumerOf(t.deliveries.rows[d]), t.origin[d])
    {
      assert Routed(config, s, ConsumerOf(s.deliveries.rows[d]), s.origin[d]);
    }
  }

  lemma FannedKept(config: Config, s: System, t: System)
    requires DeliveriesMatch(config, s) && t == s.(outbox := t.outbox) && Evolves(s.outbox.rows, t.outbox.rows)
    requires AcceptedIsFanned(config, s)
    requires forall o :: 0 <= o < |t.outbox.rows| && AcceptedIn(t.outbox.log, o) ==>
      o < |s.outbox.rows| && (AcceptedIn(s.outbox.log, o) || FannedToAll(config, s, o))
    ensures AcceptedIsFanned(config, t)
  {
    forall o | 0 <= o < |t.outbox.rows| && AcceptedIn(t.outbox.log, o)
      ensures FannedToAll(config, t, o)
    {
      FannedStays(config, s, t, o);
    }
  }

  lemma DeliveryOrderKept(config: Config, s: System, t: System)
    requires DeliveriesMatch(config, s) && t == s.(outbox := t.outbox) && Evolves(s.outbox.rows, t.outbox.rows)
    requires DeliveriesMatch(config, t) && DeliveriesOrdered(config, s)
    ensures DeliveriesOrdered(config, t)
  {
    forall d, o | DueBefore(config, t, d, o)
      ensures Fanned(t, ConsumerOf(t.deliveries.rows[d]), o, d)
    {
      assert DueBefore(config, s, d, o);
      FannedCarries(s, t, ConsumerOf(s.deliveries.rows[d]), o, d, d);
    }
  }

  /** Effects do not look at the outbox. */
  lemma EffectsKept(config: Config, s: System, t: System)
    requires DeliveriesMatch(config, s) && t == s.(outbox := t.outbox) && DeliveriesMatch(config, t)
    requires EffectsMatch(s) && AcceptedIsEffected(s) && EffectsOrdered(s)
    ensures EffectsMatch(t) && AcceptedIsEffected(t) && EffectsOrdered(t)
  {
    forall d | 0 <= d < |t.deliveries.rows| && AcceptedIn(t.deliveries.log, d)
      ensures Effected(t, d, |t.effects|)
    {
      assert Effected(s, d, |s.effects|);
    }
    forall p, d | DueBeforeEffect(t, p, d)
      ensures Effected(t, d, p)
    {
      assert DueBeforeEffect(s, p, d);
      assert Effected(s, d, p);
    }
  }

  lemma OutboxEvolves(config: Config, s: System, t: System)
    requires Invariant(config, s)
    requires t == s.(outbox := t.outbox) && Ordered(t.outbox) && Evolves(s.outbox.rows, t.outbox.rows)
    requires OutboxDistinct(t)
    requires forall o :: 0 <= o < |t.outbox.rows| && AcceptedIn(t.outbox.log, o) ==>
      o < |s.outbox.rows| && (AcceptedIn(s.outbox.log, o) || FannedToAll(config, s, o))
    ensures Invariant(config, t)
  {
    MatchKept(config, s, t);
    FannedKept(config, s, t);
    DeliveryOrderKept(config, s, t);
    EffectsKept(config, s, t);
  }

  lemma DeliveriesEvolve(config: Config, s: System, t: System)
    requires Invariant(config, s)
    requires t == s.(deliveries := t.deliveries) && Ordered(t.deliveries)
    requires Evolves(s.deliveries.rows, t.deliveries.rows) && |s.deliveries.rows| == |t.deliveries.rows|
    requires forall d :: 0 <= d < |t.deliveries.rows| && AcceptedIn(t.deliveries.log, d) ==>
      AcceptedIn(s.deliveries.log, d) || Effected(s, d, |s.effects|)
    ensures Invariant(config, t)
  {
    forall o | 0 <= o < |t.outbox.rows| && AcceptedIn(t.outbox.log, o)
      ensures FannedToAll(config, t, o)
    {
      FannedStays(config, s, t, o);
    }
    forall d, o | DueBefore(config, t, d, o)
      ensures Fanned(t, ConsumerOf(t.deliveries.rows[d]), o, d)
    {
      assert DueBefore(config, s, d, o);
      FannedCarries(s, t, ConsumerOf(s.deliveries.rows[d]), o, d, d);
    }
    forall d | 0 <= d < |t.deliveries.rows| && AcceptedIn(t.deliveries.log, d)
      ensures Effected(t, d, |t.effects|)
    {
      assert Effected(s, d, |s.effects|);
    }
    forall p, d | DueBeforeEffect(t, p, d)
      ensures Effected(t, d, p)
    {
      assert DueBeforeEffect(s, p, d);
      assert Effected(s, d, p);
    }
  }

  // ----- Fan-out -----

  /** A finished outbox entry that was not skipped was published to every subscriber. */
  lemma DoneIsFanned(config: Config, s: System, o: nat)
    requires Invariant(config, s) && o < |s.outbox.rows| && s.outbox.rows[o].status.Done?
    ensures FannedToAll(config, s, o)
  {
    DoneWasAccepted(s.outbox, o);
  }

  lemma DoneWasAccepted(q: Queue, i: nat)
    requires Ordered(q) && i < |q.rows| && q.rows[i].status.Done?
    ensures AcceptedIn(q.log, i)
  {
    var m: nat :| DoneAt(q.log, i, m);
    EvidenceStays(q.log[..m], q.log, i);
  }

  lemma InsertMatches(config: Config, s: System, consumer: string, source: nat, now: int)
    requires DeliveriesMatch(config, s) && source < |s.outbox.rows| && Routed(config, s, consumer, source)
    ensures DeliveriesMatch(config, InsertDelivery(config, s, consumer, source, now))
  {
    var t := InsertDelivery(config, s, consumer, source, now);
    if t != s {
      forall d, e | 0 <= d < e < |t.origin|
        ensures t.deliveries.rows[d].consumer != t.deliveries.rows[e].consumer || t.origin[d] != t.origin[e]
      {
        if e == |s.origin| {
          assert !IsDelivery(s.deliveries.rows[d], consumer, s.outbox.rows[source].envelope);
        }
      }
    }
  }

  lemma InsertKeepsOrder(config: Config, s: System, consumer: string, source: nat, now: int)
    requires Invariant(config, s) && source < |s.outbox.rows|
    requires Routed(config, s, consumer, source) && Head(s.outbox.rows, source)
    requires DeliveriesMatch(config, InsertDelivery(config, s, consumer, source, now))
    ensures DeliveriesOrdered(config, InsertDelivery(config, s, consumer, source, now))
  {
    var t := InsertDelivery(config, s, consumer, source, now);
    forall d, o | DueBefore(config, t, d, o)
      ensures Fanned(t, ConsumerOf(t.deliveries.rows[d]), o, d)
    {
      var c := ConsumerOf(t.deliveries.rows[d]);
      if d < |s.origin| {
        assert DueBefore(config, s, d, o);
      } else {
        assert Routed(config, s, c, o);
        DoneIsFanned(config, s, o);
      }
      FannedCarries(s, t, c, o, d, d);
    }
  }

  /** Nothing is accepted for a row that does not exist yet. */
  lemma AcceptedExists(q: Queue, entry: nat)
    requires Ordered(q) && AcceptedIn(q.log, entry)
    ensures entry < |q.rows|
  {
    var k :| 0 <= k < |q.log| && IsAcceptance(q.log[k], entry);
    assert EarlierSettled(q.rows, q.log[..k], entry);
  }

  lemma InsertKeepsEffects(config: Config, s: System, consumer: string, source: nat, now: int)
    requires Invariant(config, s) && source < |s.outbox.rows|
    requires DeliveriesMatch(config, InsertDelivery(config, s, consumer, source, now))
    ensures var t := InsertDelivery(config, s, consumer, source, now);
      EffectsMatch(t) && AcceptedIsEffected(t) && EffectsOrdered(t)
  {
    var t := InsertDelivery(config, s, consumer, source, now);
    forall d | 0 <= d < |t.deliveries.rows| && AcceptedIn(t.deliveries.log, d)
      ensures Effected(t, d, |t.effects|)
    {
      AcceptedExists(s.deliveries, d);
      assert Effected(s, d, |s.effects|);
    }
    forall p, d | DueBeforeEffect(t, p, d)
      ensures Effected(t, d, p)
    {
      assert DueBeforeEffect(s, p, d);
      assert Effected(s, d, p);
    }
  }

  lemma InsertKeeps(config: Config, s: System, consumer: string, source: nat, now: int)
    requires Invariant(config, s) && source < |s.outbox.rows|
    requires Routed(config, s, consumer, source) && Head(s.outbox.rows, source)
    ensures var t := InsertDelivery(config, s, consumer, source, now);
      && Invariant(config, t) && s.origin <= t.origin && Evolves(s.deliveries.rows, t.deliveries.rows)
      && Fanned(t, consumer, source, |t.origin|)
  {
    var t := InsertDelivery(config, s, consumer, source, now);
    OrderedStep(s.deliveries, config.deliveryMax, Append(Some(consumer), s.outbox.rows[source].envelope, now));
    InsertMatches(config, s, consumer, source, now);
    InsertKeepsOrder(config, s, consumer, source, now);
    InsertKeepsEffects(config, s, consumer, source, now);
    forall o | 0 <= o < |t.outbox.rows| && AcceptedIn(t.outbox.log, o)
      ensures FannedToAll(config, t, o)
    {
      FannedStays(config, s, t, o);
    }
    InsertFans(config, s, consumer, source, now);
  }

  lemma InsertFans(config: Config, s: System, consumer: string, source: nat, now: int)
    requires OutboxDistinct(s) && DeliveriesMatch(config, s) && source < |s.outbox.rows|
    requires DeliveriesMatch(config, InsertDelivery(config, s, consumer, source, now))
    ensures var t := InsertDelivery(config, s, consumer, source, now); Fanned(t, consumer, source, |t.origin|)
  {
    var t := InsertDelivery(config, s, consumer, source, now);
    if t == s && |t.deliveries.rows| == |s.deliveries.rows| {
      var d :| 0 <= d < |s.deliveries.rows| && IsDelivery(s.deliveries.rows[d], consumer, s.outbox.rows[source].envelope);
      assert SameEvent(s.outbox.rows[s.origin[d]].envelope, s.outbox.rows[source].envelope);
      assert FannedAs(t, consumer, source, d);
    } else {
      assert FannedAs(t, consumer, source, |s.origin|);
    }
  }

  lemma {:induction false} FanOutKeeps(config: Config, s: System, consumers: seq<string>, source: nat, now: int)
    requires Invariant(config, s) && source < |s.outbox.rows| && Head(s.outbox.rows, source)
    requires forall c :: c in consumers ==> Routed(config, s, c, source)
    ensures var t := FanOut(config, s, consumers, source, now);
      Invariant(config, t) && forall c :: c in consumers ==> Fanned(t, c, source, |t.origin|)
  {
    if consumers != [] {
      var init := consumers[..|consumers| - 1];
      var last := consumers[|consumers| - 1];
      assert consumers == init + [last];
      FanOutKeeps(config, s, init, source, now);
      var m := FanOut(config, s, init, source, now);
      assert Routed(config, s, last, source);
      assert Routed(config, m, last, source);
      InsertKeeps(config, m, last, source, now);
      var t := FanOut(config, s, consumers, source, now);
      forall c | c in consumers
        ensures Fanned(t, c, source, |t.origin|)
      {
        if c != last {
          assert c in init;
          FannedCarries(m, t, c, source, |m.origin|, |t.origin|);
        }
      }
    }
  }

  // ----- Hand-overs -----

  lemma AcceptedByHandOver(q: Queue, max: nat, t: nat, took: bool, reported: bool, entry: nat)
    requires CanHandOver(q, max, t, took, reported)
    requires AcceptedIn(Next(q, max, HandOver(t, took, reported)).log, entry)
    ensures AcceptedIn(q.log, entry) || (reported && entry == q.tasks[t].entry)
  {
    var n := Next(q, max, HandOver(t, took, reported));
    var k :| 0 <= k < |n.log| && IsAcceptance(n.log[k], entry);
    if k < |q.log| {
      assert IsAcceptance(q.log[k], entry);
    }
  }

  lemma PublishRecorded(config: Config, s: System, task: nat, took: bool, reported: bool)
    requires Invariant(config, s) && CanHandOver(s.outbox, config.outboxMax, task, took, reported)
    requires reported ==> FannedToAll(config, s, s.outbox.tasks[task].entry)
    ensures Invariant(config, s.(outbox := Next(s.outbox, config.outboxMax, HandOver(task, took, reported))))
  {
    var t := s.(outbox := Next(s.outbox, config.outboxMax, HandOver(task, took, reported)));
    OrderedStep(s.outbox, config.outboxMax, HandOver(task, took, reported));
    forall o | 0 <= o < |t.outbox.rows| && AcceptedIn(t.outbox.log, o)
      ensures o < |s.outbox.rows| && (AcceptedIn(s.outbox.log, o) || FannedToAll(config, s, o))
    {
      AcceptedByHandOver(s.outbox, config.outboxMax, task, took, reported, o);
    }
    OutboxEvolves(config, s, t);
  }

  lemma FanOutReachesAll(config: Config, s: System, entry: nat, now: int)
    requires Invariant(config, s) && entry < |s.outbox.rows| && Head(s.outbox.rows, entry)
    ensures var f := FanOut(config, s, ConsumersFor(config, s.outbox.rows[entry].envelope.eventType), entry, now);
      Invariant(config, f) && FannedToAll(config, f, entry)
  {
    FanOutKeeps(config, s, ConsumersFor(config, s.outbox.rows[entry].envelope.eventType), entry, now);
  }

  lemma PublishKeeps(config: Config, s: System, task: nat, committed: bool, reported: bool, now: int)
    requires Invariant(config, s)
    ensures Invariant(config, Apply(config, s, Publish(task, committed, reported, now)))
  {
    if CanHandOver(s.outbox, config.outboxMax, task, committed, reported) {
      var entry := s.outbox.tasks[task].entry;
      assert TasksAtHeads(s.outbox);
      if committed {
        FanOutReachesAll(config, s, entry, now);
        var f := FanOut(config, s, ConsumersFor(config, s.outbox.rows[entry].envelope.eventType), entry, now);
        PublishRecorded(config, f, task, committed, reported);
      } else {
        PublishRecorded(config, s, task, committed, reported);
      }
    }
  }

  /** A key determines its delivery. */
  lemma KeyDetermines(config: Config, s: System, d: nat, e: nat)
    requires OutboxDistinct(s) && DeliveriesMatch(config, s) && d < |s.origin| && e < |s.origin|
    requires KeyOf(s.deliveries.rows[d]) == KeyOf(s.deliveries.rows[e])
    ensures d == e
  {
    assert SameEvent(s.outbox.rows[s.origin[d]].envelope, s.outbox.rows[s.origin[e]].envelope);
    assert s.origin[d] == s.origin[e];
  }

  lemma InboxGrows(s: System, t: System, key: InboxKey, d: nat)
    requires forall k :: k in s.inbox ==> exists p :: 0 <= p < |s.effects| && s.effects[p].key == k
    requires t.inbox == s.inbox + {key} && t.effects == s.effects + [Effect(key, d)]
    ensures forall k :: k in t.inbox ==> exists p :: 0 <= p < |t.effects| && t.effects[p].key == k
  {
    forall k | k in t.inbox
      ensures exists p :: 0 <= p < |t.effects| && t.effects[p].key == k
    {
      if k in s.inbox {
        var p :| 0 <= p < |s.effects| && s.effects[p].key == k;
        assert t.effects[p].key == k;
      } else {
        assert t.effects[|s.effects|].key == k;
      }
    }
  }

  lemma AbsorbEffects(s: System, d: nat)
    requires EffectsMatch(s) && d < |s.deliveries.rows|
    ensures EffectsMatch(Absorb(s, d))
  {
    var key := KeyOf(s.deliveries.rows[d]);
    if key !in s.inbox {
      var t := Absorb(s, d);
      InboxGrows(s, t, key, d);
      forall p, r | 0 <= p < r < |t.effects|
        ensures t.effects[p].key != t.effects[r].key
      {
        assert s.effects[p].key in s.inbox;
      }
    }
  }

  lemma AbsorbEffected(config: Config, s: System, d: nat)
    requires OutboxDistinct(s) && DeliveriesMatch(config, s) && EffectsMatch(s) && d < |s.deliveries.rows|
    ensures Effected(Absorb(s, d), d, |Absorb(s, d).effects|)
  {
    var key := KeyOf(s.deliveries.rows[d]);
    if key in s.inbox {
      var p :| 0 <= p < |s.effects| && s.effects[p].key == key;
      KeyDetermines(config, s, s.effects[p].delivery, d);
    } else {
      assert Absorb(s, d).effects[|s.effects|].delivery == d;
    }
  }

  lemma EffectedStays(s: System, t: System, d: nat, limit: nat, more: nat)
    requires s.effects <= t.effects && limit <= more && Effected(s, d, limit)
    ensures Effected(t, d, more)
  {
    var p :| 0 <= p < limit && p < |s.effects| && s.effects[p].delivery == d;
    assert t.effects[p].delivery == d;
  }

  lemma AbsorbAccepted(s: System, d: nat)
    requires d < |s.deliveries.rows| && AcceptedIsEffected(s)
    ensures AcceptedIsEffected(Absorb(s, d))
  {
    var t := Absorb(s, d);
    forall e | 0 <= e < |t.deliveries.rows| && AcceptedIn(t.deliveries.log, e)
      ensures Effected(t, e, |t.effects|)
    {
      EffectedStays(s, t, e, |s.effects|, |t.effects|);
    }
  }

  lemma AbsorbOrder(s: System, d: nat)
    requires Ordered(s.deliveries) && AcceptedIsEffected(s) && EffectsOrdered(s)
    requires d < |s.deliveries.rows| && Head(s.deliveries.rows, d)
    ensures EffectsOrdered(Absorb(s, d))
  {
    var t := Absorb(s, d);
    forall p, e | DueBeforeEffect(t, p, e)
      ensures Effected(t, e, p)
    {
      if p < |s.effects| {
        assert DueBeforeEffect(s, p, e);
      } else {
        DoneWasAccepted(s.deliveries, e);
      }
      EffectedStays(s, t, e, p, p);
    }
  }

  lemma AbsorbDeliveries(config: Config, s: System, t: System)
    requires DeliveriesMatch(config, s) && AcceptedIsFanned(config, s) && DeliveriesOrdered(config, s)
    requires t == s.(inbox := t.inbox, effects := t.effects)
    ensures DeliveriesMatch(config, t) && AcceptedIsFanned(config, t) && DeliveriesOrdered(config, t)
  {
    forall d | 0 <= d < |t.origin|
      ensures Routed(config, t, ConsumerOf(t.deliveries.rows[d]), t.origin[d])
    {
      assert Routed(config, s, ConsumerOf(s.deliveries.rows[d]), s.origin[d]);
    }
    forall o | 0 <= o < |t.outbox.rows| && AcceptedIn(t.outbox.log, o)
      ensures FannedToAll(config, t, o)
    {
      FannedStays(config, s, t, o);
    }
    forall e, o | DueBefore(config, t, e, o)
      ensures Fanned(t, ConsumerOf(t.deliveries.rows[e]), o, e)
    {
      assert DueBefore(config, s, e, o);
      FannedCarries(s, t, ConsumerOf(s.deliveries.rows[e]), o, e, e);
    }
  }

  lemma AbsorbKeeps(config: Config, s: System, d: nat)
    requires Invariant(config, s) && d < |s.deliveries.rows| && Head(s.deliveries.rows, d)
    ensures Invariant(config, Absorb(s, d)) && Effected(Absorb(s, d), d, |Absorb(s, d).effects|)
  {
    AbsorbDeliveries(config, s, Absorb(s, d));
    AbsorbEffects(s, d);
    AbsorbEffected(config, s, d);
    AbsorbAccepted(s, d);
    AbsorbOrder(s, d);
  }

  lemma HandOverKeeps(config: Config, s: System, task: nat, took: bool, reported: bool)
    requires Invariant(config, s) && CanHandOver(s.deliveries, config.deliveryMax, task, took, reported)
    requires reported ==> Effected(s, s.deliveries.tasks[task].entry, |s.effects|)
    ensures Invariant(config, s.(deliveries := Next(s.deliveries, config.deliveryMax, HandOver(task, took, reported))))
  {
    var t := s.(deliveries := Next(s.deliveries, config.deliveryMax, HandOver(task, took, reported)));
    OrderedStep(s.deliveries, config.deliveryMax, HandOver(task, took, reported));
    forall e | 0 <= e < |t.deliveries.rows| && AcceptedIn(t.deliveries.log, e)
      ensures AcceptedIn(s.deliveries.log, e) || Effected(s, e, |s.effects|)
    {
      AcceptedByHandOver(s.deliveries, config.deliveryMax, task, took, reported, e);
    }
    DeliveriesEvolve(config, s, t);
  }

  lemma ConsumeKeeps(config: Config, s: System, task: nat, committed: bool, reported: bool)
    requires Invariant(config, s)
    ensures Invariant(config, Apply(config, s, Consume(task, committed, reported)))
  {
    if CanHandOver(s.deliveries, config.deliveryMax, task, committed, reported) {
      var d := s.deliveries.tasks[task].entry;
      assert TasksAtHeads(s.deliveries);
      if committed {
        AbsorbKeeps(config, s, d);
        HandOverKeeps(config, Absorb(s, d), task, committed, reported);
      } else {
        HandOverKeeps(config, s, task, committed, reported);
      }
    }
  }

  lemma ProduceKeeps(config: Config, s: System, envelope: Envelope, now: int)
    requires Invariant(config, s)
    ensures Invariant(config, Apply(config, s, Produce(envelope, now)))
  {
    var t := Apply(config, s, Produce(envelope, now));
    if |t.outbox.rows| != |s.outbox.rows| {
      OrderedStep(s.outbox, config.outboxMax, Append(None, envelope, now));
      forall o | 0 <= o < |t.outbox.rows| && AcceptedIn(t.outbox.log, o)
        ensures o < |s.outbox.rows|
      {
        AcceptedExists(s.outbox, o);
      }
      OutboxEvolves(config, s, t);
    }
  }

  lemma ApplyKeeps(config: Config, s: System, move: Move)
    requires Invariant(config, s)
    ensures Invariant(config, Apply(config, s, move))
  {
    match move
    case Produce(envelope, now) => ProduceKeeps(config, s, envelope, now);
    case OutboxMove(step) =>
      if Internal(step) {
        OrderedStep(s.outbox, config.outboxMax, step);
        StepOnRows(s.outbox, config.outboxMax, step);
        forall o | AcceptedIn(Next(s.outbox, config.outboxMax, step).log, o) {
          NothingAccepted(s.outbox, config.outboxMax, step, o);
        }
        OutboxEvolves(config, s, Apply(config, s, move));
      }
    case DeliveryMove(step) =>
      if Internal(step) {
        OrderedStep(s.deliveries, config.deliveryMax, step);
        StepOnRows(s.deliveries, config.deliveryMax, step);
        forall d | AcceptedIn(Next(s.deliveries, config.deliveryMax, step).log, d) {
          NothingAccepted(s.deliveries, config.deliveryMax, step, d);
        }
        DeliveriesEvolve(config, s, Apply(config, s, move));
      }
    case Publish(task, committed, reported, now) => PublishKeeps(config, s, task, committed, reported, now);
    case Consume(task, committed, reported) => ConsumeKeeps(config, s, task, committed, reported);
  }

  lemma {:induction false} InvariantAlways(config: Config, moves: seq<Move>)
    ensures Invariant(config, Run(config, moves))
  {
    if moves != [] {
      InvariantAlways(config, moves[..|moves| - 1]);
      ApplyKeeps(config, Run(config, moves[..|moves| - 1]), moves[|moves| - 1]);
    }
  }

  // ----- Main results -----

  /** At most one committed effect per consumer, tenant and event, whatever is redelivered. */
  lemma AtMostOneEffect(config: Config, moves: seq<Move>, p: nat, r: nat)
    requires p < r < |Run(config, moves).effects|
    ensures Run(config, moves).effects[p].key != Run(config, moves).effects[r].key
  {
    InvariantAlways(config, moves);
  }

  /** The effect of delivery `d` is the one at position `p` and nowhere else. */
  predicate OnlyEffect(s: System, d: nat, p: nat) {
    && d < |s.deliveries.rows| && p < |s.effects| && s.effects[p].delivery == d
    && forall r :: 0 <= r < |s.effects| && s.effects[r].key == KeyOf(s.deliveries.rows[d]) ==> r == p
  }

  /** A delivery marked as delivered has exactly one committed effect. */
  lemma DeliveredHasItsEffect(config: Config, moves: seq<Move>, d: nat)
    requires d < |Run(config, moves).deliveries.rows| && Run(config, moves).deliveries.rows[d].status.Done?
    ensures exists p: nat :: OnlyEffect(Run(config, moves), d, p)
  {
    InvariantAlways(config, moves);
    var s := Run(config, moves);
    DoneWasAccepted(s.deliveries, d);
    var p: nat :| p < |s.effects| && s.effects[p].delivery == d;
    assert OnlyEffect(s, d, p);
  }

  /** A published outbox entry has a delivery row for every subscribed consumer. */
  lemma PublishedReachesEverySubscriber(config: Config, moves: seq<Move>, o: nat, consumer: string)
    requires o < |Run(config, moves).outbox.rows| && Run(config, moves).outbox.rows[o].status.Done?
    requires consumer in ConsumersFor(config, Run(config, moves).outbox.rows[o].envelope.eventType)
    ensures exists d :: (0 <= d < |Run(config, moves).deliveries.rows|
                         && Run(config, moves).deliveries.rows[d].consumer == Some(consumer)
                         && Run(config, moves).deliveries.rows[d].envelope == Run(config, moves).outbox.rows[o].envelope)
  {
    InvariantAlways(config, moves);
    var s := Run(config, moves);
    DoneIsFanned(config, s, o);
    assert Routed(config, s, consumer, o);
    var d :| 0 <= d < |s.origin| && FannedAs(s, consumer, o, d);
  }

  /** The effect at position `p` has a delivery, and that an outbox entry. */
  predicate Sourced(s: System, p: nat) {
    && |s.origin| == |s.deliveries.rows| && p < |s.effects|
    && s.effects[p].delivery < |s.origin| && s.origin[s.effects[p].delivery] < |s.outbox.rows|
  }

  /** The outbox entry behind the effect at position `p`. */
  function SourceOf(s: System, p: nat): (o: nat)
    requires p < |s.effects| && s.effects[p].delivery < |s.origin|
  {
    s.origin[s.effects[p].delivery]
  }

  /** Event `o` was skipped in the outbox or in the consumer's delivery queue. */
  predicate SkippedFor(s: System, consumer: string, o: nat)
    requires o < |s.outbox.rows| && |s.origin| == |s.deliveries.rows|
  {
    || s.outbox.rows[o].status.Skipped?
    || exists d :: 0 <= d < |s.origin| && s.origin[d] == o
         && s.deliveries.rows[d].consumer == Some(consumer) && s.deliveries.rows[d].status.Skipped?
  }

  /** The consumer of the effect at `p` was due event `o` of the same aggregate before: an earlier, subscribed one that nobody skipped. */
  predicate DueEarlier(config: Config, s: System, p: nat, o: nat)
    requires Sourced(s, p)
  {
    && o < SourceOf(s, p)
    && s.outbox.rows[o].Stream() == s.outbox.rows[SourceOf(s, p)].Stream()
    && s.effects[p].key.consumer in ConsumersFor(config, s.outbox.rows[o].envelope.eventType)
    && !SkippedFor(s, s.effects[p].key.consumer, o)
  }

  predicate EffectBefore(s: System, p: nat, consumer: string, o: nat)
    requires p < |s.effects|
  {
    exists r :: 0 <= r < p && s.effects[r].delivery < |s.origin|
      && s.effects[r].key.consumer == consumer && SourceOf(s, r) == o
  }

  /** Every committed effect belongs to one delivery and one outbox entry, with its tenant and event. */
  lemma EffectsHaveSources(config: Config, moves: seq<Move>, p: nat)
    requires p < |Run(config, moves).effects|
    ensures var s := Run(config, moves);
      && Sourced(s, p)
      && s.effects[p].key == KeyOf(s.outbox.rows[SourceOf(s, p)].(consumer := Some(s.effects[p].key.consumer)))
  {
    InvariantAlways(config, moves);
  }

  /**
   The effects of an aggregate commit in outbox order without gaps: when a consumer has committed the
   effect of an event, it has committed before it the effect of every earlier event of the aggregate
   that it subscribes to, except events an operator skipped in one of the two queues.
   */
  lemma EffectsFollowOutboxOrder(config: Config, moves: seq<Move>, p: nat, o: nat)
    requires p < |Run(config, moves).effects|
    ensures var s := Run(config, moves);
      Sourced(s, p) && (DueEarlier(config, s, p, o) ==> EffectBefore(s, p, s.effects[p].key.consumer, o))
  {
    EffectsHaveSources(config, moves, p);
    if DueEarlier(config, Run(config, moves), p, o) {
      DueEarlierIsBefore(config, moves, p, o);
    }
  }

  lemma DueEarlierIsBefore(config: Config, moves: seq<Move>, p: nat, o: nat)
    requires Sourced(Run(config, moves), p) && DueEarlier(config, Run(config, moves), p, o)
    ensures EffectBefore(Run(config, moves), p, Run(config, moves).effects[p].key.consumer, o)
  {
    InvariantAlways(config, moves);
    var s := Run(config, moves);
    var c := s.effects[p].key.consumer;
    var d := s.effects[p].delivery;
    assert s.deliveries.rows[d].consumer == Some(c) && DueBefore(config, s, d, o);
    var e :| 0 <= e < d && FannedAs(s, c, o, e);
    assert DueBeforeEffect(s, p, e);
    assert Effected(s, e, p);
    var r :| 0 <= r < p && s.effects[r].delivery == e;
    assert SourceOf(s, r) == o;
  }
}
