/** The publisher's fan-out and the consumer's deduplicating transaction on the tables they write. */
module RelayTables {
  import opened Wrappers
  import opened Outbox
  import opened Relay
  import opened Routes

  /** What a fan-out adds: for each listed consumer without a delivery of the event, one new delivery, due now. */
  ghost predicate FannedRows(before: seq<Row>, after: seq<Row>, consumers: seq<string>, envelope: Envelope, now: int) {
    && before <= after
    && (forall d :: |before| <= d < |after| ==> IsNewDelivery(before, after[d], consumers, envelope, now))
    && (forall d, e :: |before| <= d < e < |after| ==> after[d].consumer != after[e].consumer)
    && (forall c :: c in consumers ==> HasDelivery(after, c, envelope))
  }

  predicate IsNewDelivery(before: seq<Row>, row: Row, consumers: seq<string>, envelope: Envelope, now: int) {
    && row.consumer.Some? && row.consumer.value in consumers
    && row == Row(row.consumer, envelope, Pending, 0, now) && !HasDelivery(before, row.consumer.value, envelope)
  }

  /** A delivery of this tenant's event to the consumer. */
  predicate HasDelivery(rows: seq<Row>, consumer: string, envelope: Envelope) {
    exists d :: 0 <= d < |rows| && rows[d].consumer == Some(consumer)
      && rows[d].envelope.tenant == envelope.tenant && rows[d].envelope.eventId == envelope.eventId
  }

  lemma FannedAlready(before: seq<Row>, rows: seq<Row>, consumers: seq<string>, c: string, envelope: Envelope, now: int)
    requires FannedRows(before, rows, consumers, envelope, now) && HasDelivery(rows, c, envelope)
    ensures FannedRows(before, rows, consumers + [c], envelope, now)
  {
    forall d | |before| <= d < |rows|
      ensures IsNewDelivery(before, rows[d], consumers + [c], envelope, now)
    {
      assert IsNewDelivery(before, rows[d], consumers, envelope, now);
    }
  }

  lemma FannedAnew(before: seq<Row>, rows: seq<Row>, consumers: seq<string>, c: string, envelope: Envelope, now: int)
    requires FannedRows(before, rows, consumers, envelope, now) && !HasDelivery(rows, c, envelope)
    ensures FannedRows(before, rows + [Row(Some(c), envelope, Pending, 0, now)], consumers + [c], envelope, now)
  {
    var after := rows + [Row(Some(c), envelope, Pending, 0, now)];
    NoneBefore(before, rows, c, envelope);
    forall d | |before| <= d < |after|
      ensures IsNewDelivery(before, after[d], consumers + [c], envelope, now)
    {
      assert d < |rows| ==> IsNewDelivery(before, rows[d], consumers, envelope, now);
    }
    forall d, e | |before| <= d < e < |after|
      ensures after[d].consumer != after[e].consumer
    {
      assert IsNewDelivery(before, rows[d], consumers, envelope, now);
      if e == |rows| {
        NotSame(rows, d, c, envelope);
      }
    }
    forall k | k in consumers + [c]
      ensures HasDelivery(after, k, envelope)
    {
      if k == c {
        assert after[|rows|].consumer == Some(c);
      } else {
        StillHas(rows, after, k, envelope);
      }
    }
  }

  lemma NotSame(rows: seq<Row>, d: nat, c: string, envelope: Envelope)
    requires d < |rows| && rows[d].envelope == envelope && !HasDelivery(rows, c, envelope)
    ensures rows[d].consumer != Some(c)
  {
  }

  lemma DeliveryIsHeld(rows: seq<Row>, c: string, envelope: Envelope)
    ensures HasDelivery(rows, c, envelope) <==> exists d :: 0 <= d < |rows| && IsDelivery(rows[d], c, envelope)
  {
    if HasDelivery(rows, c, envelope) {
      var d :| 0 <= d < |rows| && rows[d].consumer == Some(c)
        && rows[d].envelope.tenant == envelope.tenant && rows[d].envelope.eventId == envelope.eventId;
      assert IsDelivery(rows[d], c, envelope);
    }
  }

  lemma NoneBefore(before: seq<Row>, rows: seq<Row>, c: string, envelope: Envelope)
    requires before <= rows && !HasDelivery(rows, c, envelope)
    ensures !HasDelivery(before, c, envelope)
  {
    forall d | 0 <= d < |before|
      ensures rows[d] == before[d]
    {
    }
  }

  lemma StillHas(rows: seq<Row>, after: seq<Row>, c: string, envelope: Envelope)
    requires rows <= after && HasDelivery(rows, c, envelope)
    ensures HasDelivery(after, c, envelope)
  {
    var d :| 0 <= d < |rows| && rows[d].consumer == Some(c)
      && rows[d].envelope.tenant == envelope.tenant && rows[d].envelope.eventId == envelope.eventId;
    assert after[d] == rows[d];
  }

  /** So many rows were added, all from one outbox entry. */
  predicate SameSource(before: seq<nat>, after: seq<nat>, added: int, source: nat) {
    && before <= after && |after| - |before| == added
    && forall d :: |before| <= d < |after| ==> after[d] == source
  }

  /** The tables after a fan-out from one outbox entry. */
  ghost predicate FannedOut(s: System, r: System, consumers: seq<string>, source: nat, now: int)
    requires source < |s.outbox.rows|
  {
    && FannedRows(s.deliveries.rows, r.deliveries.rows, consumers, s.outbox.rows[source].envelope, now)
    && SameSource(s.origin, r.origin, |r.deliveries.rows| - |s.deliveries.rows|, source)
    && r == s.(deliveries := s.deliveries.(rows := r.deliveries.rows), origin := r.origin)
  }

  lemma {:induction false} FanOutWrites(config: Config, s: System, consumers: seq<string>, source: nat, now: int)
    requires source < |s.outbox.rows|
    ensures FannedOut(s, FanOut(config, s, consumers, source, now), consumers, source, now)
  {
    if consumers != [] {
      var front, c := consumers[..|consumers| - 1], consumers[|consumers| - 1];
      var r, envelope := FanOut(config, s, front, source, now), s.outbox.rows[source].envelope;
      FanOutWrites(config, s, front, source, now);
      DeliveryIsHeld(r.deliveries.rows, c, envelope);
      assert consumers == front + [c];
      if HasDelivery(r.deliveries.rows, c, envelope) {
        FannedAlready(s.deliveries.rows, r.deliveries.rows, front, c, envelope, now);
      } else {
        FannedAnew(s.deliveries.rows, r.deliveries.rows, front, c, envelope, now);
      }
    }
  }

  // ----- What the moves of the system write -----

  /** An event is appended, pending and due now, unless its tenant has one of that id already. */
  lemma ProduceWrites(config: Config, s: System, envelope: Envelope, now: int)
    ensures Apply(config, s, Produce(envelope, now)) ==
      if exists o :: 0 <= o < |s.outbox.rows| && s.outbox.rows[o].envelope.tenant == envelope.tenant && s.outbox.rows[o].envelope.eventId == envelope.eventId
      then s else s.(outbox := s.outbox.(rows := s.outbox.rows + [Row(None, envelope, Pending, 0, now)]))
  {
    assert forall o :: 0 <= o < |s.outbox.rows| ==> (SameEvent(s.outbox.rows[o].envelope, envelope) <==>
      s.outbox.rows[o].envelope.tenant == envelope.tenant && s.outbox.rows[o].envelope.eventId == envelope.eventId);
  }

  /** Whether or not success is reported, a publish that committed fanned out to every subscriber, and one that did not, to nobody. */
  lemma PublishWrites(config: Config, s: System, task: nat, committed: bool, reported: bool, now: int)
    requires CanHandOver(s.outbox, config.outboxMax, task, committed, reported) && s.outbox.tasks[task].entry < |s.outbox.rows|
    ensures var entry := s.outbox.tasks[task].entry;
      var r := Apply(config, s, Publish(task, committed, reported, now)).(outbox := s.outbox);
      if committed then FannedOut(s, r, Subscribers(config.routes, s.outbox.rows[entry].envelope.eventType), entry, now) else r == s
  {
    var entry := s.outbox.tasks[task].entry;
    FanOutWrites(config, s, Subscribers(config.routes, s.outbox.rows[entry].envelope.eventType), entry, now);
  }

  /** Whether or not success is reported, a consumption that committed recorded the event, with its effect if it is the first. */
  lemma ConsumeWrites(config: Config, s: System, task: nat, committed: bool, reported: bool)
    requires CanHandOver(s.deliveries, config.deliveryMax, task, committed, reported) && s.deliveries.tasks[task].entry < |s.deliveries.rows|
    ensures var delivery := s.deliveries.tasks[task].entry;
      var row := s.deliveries.rows[delivery];
      var key := InboxKey(if row.consumer.Some? then row.consumer.value else "", row.envelope.tenant, row.envelope.eventId);
      var r := Apply(config, s, Move.Consume(task, committed, reported));
      && r.outbox == s.outbox && r.origin == s.origin
      && r.inbox == (if committed then s.inbox + {key} else s.inbox)
      && r.effects == (if committed && key !in s.inbox then s.effects + [Effect(key, delivery)] else s.effects)
  {
  }

  class Tables {
    const config: Config
    var outbox: Queue
    var deliveries: Queue
    var origin: seq<nat>
    var inbox: set<InboxKey>
    var effects: seq<Effect>

    constructor (config: Config)
      ensures this.config == config && State() == INITIAL
    {
      this.config := config;
      outbox, deliveries, origin, inbox, effects := EMPTY, EMPTY, [], {}, [];
    }

    function State(): System
      reads this
    {
      System(outbox, deliveries, origin, inbox, effects)
    }

    /** One row a consumer; a consumer that has the event already gets nothing. */
    method Publish(source: nat, now: int)
      requires source < |outbox.rows|
      modifies this`deliveries, this`origin
      ensures State() == FanOut(config, old(State()), ConsumersFor(config, outbox.rows[source].envelope.eventType), source, now)
      ensures FannedOut(old(State()), State(), Subscribers(config.routes, outbox.rows[source].envelope.eventType), source, now)
    {
      var envelope := outbox.rows[source].envelope;
      var consumers := ConsumersFor(config, envelope.eventType);
      for i := 0 to |consumers|
        invariant State() == FanOut(config, old(State()), consumers[..i], source, now)
      {
        assert consumers[..i + 1][..i] == consumers[..i];
        if !exists d :: 0 <= d < |deliveries.rows| && IsDelivery(deliveries.rows[d], consumers[i], envelope) {
          deliveries := deliveries.(rows := deliveries.rows + [Row(Some(consumers[i]), envelope, Pending, 0, now)]);
          origin := origin + [source];
        }
      }
      FanOutWrites(config, old(State()), consumers, source, now);
      assert consumers[..|consumers|] == consumers;
    }

    /** `INSERT ... ON CONFLICT DO NOTHING` into the inbox. */
    method TryRecord(key: InboxKey) returns (recorded: bool)
      modifies this`inbox
      ensures recorded == (key !in old(inbox)) && inbox == old(inbox) + {key}
    {
      recorded := key !in inbox;
      inbox := inbox + {key};
    }

    /** The dedup record and the handler's effect in one transaction; when it fails to commit nothing is left of either. */
    method Consume(delivery: nat, commits: bool) returns (processed: bool)
      requires delivery < |deliveries.rows|
      modifies this`inbox, this`effects
      ensures State() == if commits then Absorb(old(State()), delivery) else old(State())
      ensures var row := deliveries.rows[delivery];
        var key := InboxKey(if row.consumer.Some? then row.consumer.value else "", row.envelope.tenant, row.envelope.eventId);
        && processed == (commits && key !in old(inbox))
        && (processed ==> inbox == old(inbox) + {key} && effects == old(effects) + [Effect(key, delivery)])
        && (!processed ==> inbox == old(inbox) && effects == old(effects))
    {
      var key := KeyOf(deliveries.rows[delivery]);
      var before := inbox;
      processed := TryRecord(key);
      if !commits {
        inbox := before;
        return false;
      }
      if processed {
        effects := effects + [Effect(key, delivery)];
      } else {
        assert inbox == before;
      }
    }
  }
}
