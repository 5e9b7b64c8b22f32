/**
 Why the order of effects excepts skipped events: a worker that lost its lease checks nothing before
 it hands over, so it can commit the effect of an event after an operator skipped that event and the
 stream went on.
 */
module LateCommit {
  import opened Wrappers
  import opened Outbox
  import opened Relay

  const CONFIG := Config(map["t" := ["c"]], 8, 1)
  const FIRST := Envelope("T", "one", "t", "A", "1")
  const SECOND := Envelope("T", "other", "t", "A", "1")

  function OutboxRow(envelope: Envelope, status: Status, attempts: nat): Row {
    Row(None, envelope, status, attempts, 0)
  }

  function DeliveryRow(envelope: Envelope, status: Status, attempts: nat): Row {
    Row(Some("c"), envelope, status, attempts, 0)
  }

  function OutboxTask(entry: nat, phase: Phase): Task {
    Task(None, "w", entry, 1, 0, phase)
  }

  /** The outbox entry is leased, published and marked. */
  const RELAYED := Closed(Outcome.Published)

  lemma RunSnoc(config: Config, moves: seq<Move>, move: Move)
    ensures Run(config, moves + [move]) == Apply(config, Run(config, moves), move)
  {
    assert (moves + [move])[..|moves|] == moves;
  }

  lemma HeadGranted(rows: seq<Row>, scope: Option<string>, now: int, from: nat, i: nat)
    requires from <= i < |rows| && Candidate(rows, scope, now, {}, i)
    requires forall j :: from <= j < i ==> !Candidate(rows, scope, now, {}, j)
    ensures Grants(rows, scope, now, {}, 1, from) == [i]
    decreases i - from
  {
    if from < i {
      HeadGranted(rows, scope, now, from + 1, i);
    } else {
      assert Grants(rows, scope, now, {}, 0, from + 1) == [];
    }
  }

  lemma OneLeased(rows: seq<Row>, worker: string, expiresAt: int, i: nat)
    requires i < |rows|
    ensures LeaseRows(rows, [i], worker, expiresAt) == rows[i := LeasedRow(rows[i], worker, expiresAt)]
  {
  }

  lemma OneTask(q: Queue, scope: Option<string>, worker: string, i: nat)
    requires i < |q.rows|
    ensures Snapshots(q, scope, worker, [i]) == [Task(scope, worker, i, q.rows[i].attempts + 1, Requeues(q.log, i), Granted)]
  {
  }

  /** One lease of one entry by `worker` at `now`. */
  lemma LeaseOne(q: Queue, max: nat, scope: Option<string>, worker: string, now: int, i: nat)
    requires i < |q.rows| && Candidate(q.rows, scope, now, {}, i)
    requires forall j :: 0 <= j < i ==> !Candidate(q.rows, scope, now, {}, j)
    ensures Next(q, max, Lease(scope, worker, now, 60, 1, {})) ==
      q.(rows := q.rows[i := LeasedRow(q.rows[i], worker, now + 60)],
         tasks := q.tasks + [Task(scope, worker, i, q.rows[i].attempts + 1, Requeues(q.log, i), Granted)])
  {
    HeadGranted(q.rows, scope, now, 0, i);
    OneLeased(q.rows, worker, now + 60, i);
    OneTask(q, scope, worker, i);
  }

  // Two events of one aggregate are published in order.
  const P0: seq<Move> := [Produce(FIRST, 0), Produce(SECOND, 0)]
  const P1 := P0 + [OutboxMove(Lease(None, "w", 0, 60, 1, {}))] + [Publish(0, true, true, 0)] + [OutboxMove(Mark(0))]
  const P2 := P1 + [OutboxMove(Lease(None, "w", 0, 60, 1, {}))] + [Publish(1, true, true, 0)] + [OutboxMove(Mark(1))]
  // A first worker leases the first delivery and stalls; a second one gives it up and an operator skips it.
  const P3 := P2 + [DeliveryMove(Lease(Some("c"), "slow", 0, 60, 1, {}))] + [DeliveryMove(Lease(Some("c"), "quick", 100, 60, 1, {}))]
  const P4 := P3 + [DeliveryMove(GiveUp(1))] + [DeliveryMove(Resolve(Some("c"), 0, Skip))]
  // The second event's effect commits, and then the stalled worker goes on.
  const P5 := P4 + [DeliveryMove(Lease(Some("c"), "quick", 100, 60, 1, {}))] + [Consume(2, true, true)]
  const LATE := P5 + [Consume(0, true, true)]

  lemma Produced()
    ensures Run(CONFIG, P0) == PRODUCED
  {
    assert P0 == ([] + [Produce(FIRST, 0)]) + [Produce(SECOND, 0)];
    RunSnoc(CONFIG, [], Produce(FIRST, 0));
    RunSnoc(CONFIG, [] + [Produce(FIRST, 0)], Produce(SECOND, 0));
  }

  /** Publishing one of the two events to the only consumer. */
  lemma Fans(s: System, source: nat)
    requires source < |s.outbox.rows| && s.outbox.rows[source].envelope.eventType == "t"
    ensures FanOut(CONFIG, s, ConsumersFor(CONFIG, "t"), source, 0) == InsertDelivery(CONFIG, s, "c", source, 0)
  {
    assert ConsumersFor(CONFIG, "t") == ["c"];
    assert FanOut(CONFIG, s, [], source, 0) == s;
    assert ["c"][..0] == [];
  }

  const PRODUCED := INITIAL.(outbox := Queue([OutboxRow(FIRST, Pending, 0), OutboxRow(SECOND, Pending, 0)], [], []))

  const FIRST_LEASED := INITIAL.(outbox :=
    Queue([Row(None, FIRST, Leased("w", 60), 1, 0), OutboxRow(SECOND, Pending, 0)], [OutboxTask(0, Granted)], []))

  const FIRST_HANDED_OVER := System(
    Queue([Row(None, FIRST, Leased("w", 60), 1, 0), OutboxRow(SECOND, Pending, 0)], [OutboxTask(0, Accepted)], [HandedOver(0, 0, true, true)]),
    Queue([DeliveryRow(FIRST, Pending, 0)], [], []), [0], {}, [])

  lemma FirstLease()
    ensures Apply(CONFIG, PRODUCED, OutboxMove(Lease(None, "w", 0, 60, 1, {}))) == FIRST_LEASED
  {
    LeaseOne(PRODUCED.outbox, CONFIG.outboxMax, None, "w", 0, 0);
  }

  lemma FirstHandOver()
    ensures Apply(CONFIG, FIRST_LEASED, Publish(0, true, true, 0)) == FIRST_HANDED_OVER
  {
    Fans(FIRST_LEASED, 0);
  }

  lemma FirstMark()
    ensures Apply(CONFIG, FIRST_HANDED_OVER, OutboxMove(Mark(0))) == FIRST_PUBLISHED
  {
  }

  lemma FirstPublished()
    ensures Run(CONFIG, P1) == FIRST_PUBLISHED
  {
    Produced();
    FirstLease();
    FirstHandOver();
    FirstMark();
    var lease := OutboxMove(Lease(None, "w", 0, 60, 1, {}));
    RunSnoc(CONFIG, P0, lease);
    RunSnoc(CONFIG, P0 + [lease], Publish(0, true, true, 0));
    RunSnoc(CONFIG, P0 + [lease] + [Publish(0, true, true, 0)], OutboxMove(Mark(0)));
  }

  const BOTH_LOGGED: seq<Fact> := [HandedOver(0, 0, true, true), MarkedDone(0), HandedOver(1, 1, true, true), MarkedDone(1)]
  const BOTH_PUBLISHED := Queue([OutboxRow(FIRST, Done, 1), OutboxRow(SECOND, Done, 1)],
                                [OutboxTask(0, RELAYED), OutboxTask(1, RELAYED)], BOTH_LOGGED)

  const BOTH_DELIVERABLE := Queue([DeliveryRow(FIRST, Pending, 0), DeliveryRow(SECOND, Pending, 0)], [], [])

  const FIRST_PUBLISHED := System(
    Queue([OutboxRow(FIRST, Done, 1), OutboxRow(SECOND, Pending, 0)], [OutboxTask(0, RELAYED)],
          [HandedOver(0, 0, true, true), MarkedDone(0)]),
    Queue([DeliveryRow(FIRST, Pending, 0)], [], []), [0], {}, [])

  const SECOND_LEASED := FIRST_PUBLISHED.(outbox :=
    Queue([OutboxRow(FIRST, Done, 1), Row(None, SECOND, Leased("w", 60), 1, 0)],
          [OutboxTask(0, RELAYED), OutboxTask(1, Granted)], [HandedOver(0, 0, true, true), MarkedDone(0)]))

  const SECOND_HANDED_OVER := System(
    Queue([OutboxRow(FIRST, Done, 1), Row(None, SECOND, Leased("w", 60), 1, 0)],
          [OutboxTask(0, RELAYED), OutboxTask(1, Accepted)],
          [HandedOver(0, 0, true, true), MarkedDone(0), HandedOver(1, 1, true, true)]),
    BOTH_DELIVERABLE, [0, 1], {}, [])

  lemma SecondLease()
    ensures Apply(CONFIG, FIRST_PUBLISHED, OutboxMove(Lease(None, "w", 0, 60, 1, {}))) == SECOND_LEASED
  {
    LeaseOne(FIRST_PUBLISHED.outbox, CONFIG.outboxMax, None, "w", 0, 1);
  }

  lemma SecondHandOver()
    ensures Apply(CONFIG, SECOND_LEASED, Publish(1, true, true, 0)) == SECOND_HANDED_OVER
  {
    Fans(SECOND_LEASED, 1);
    assert |FIRST.eventId| != |SECOND.eventId|;
    assert !IsDelivery(SECOND_LEASED.deliveries.rows[0], "c", SECOND);
  }

  lemma SecondMark()
    ensures Apply(CONFIG, SECOND_HANDED_OVER, OutboxMove(Mark(1))) == System(BOTH_PUBLISHED, BOTH_DELIVERABLE, [0, 1], {}, [])
  {
  }

  lemma SecondPublished()
    ensures Run(CONFIG, P2) == System(BOTH_PUBLISHED, BOTH_DELIVERABLE, [0, 1], {}, [])
  {
    FirstPublished();
    SecondLease();
    SecondHandOver();
    SecondMark();
    var lease := OutboxMove(Lease(None, "w", 0, 60, 1, {}));
    RunSnoc(CONFIG, P1, lease);
    RunSnoc(CONFIG, P1 + [lease], Publish(1, true, true, 0));
    RunSnoc(CONFIG, P1 + [lease] + [Publish(1, true, true, 0)], OutboxMove(Mark(1)));
  }

  function DeliveryTask(worker: string, entry: nat, attempts: nat, phase: Phase): Task {
    Task(Some("c"), worker, entry, attempts, 0, phase)
  }

  const SLOW_LEASED := Queue([Row(Some("c"), FIRST, Leased("slow", 60), 1, 0), DeliveryRow(SECOND, Pending, 0)],
                             [DeliveryTask("slow", 0, 1, Granted)], [])
  const RETAKEN := Queue([Row(Some("c"), FIRST, Leased("quick", 160), 2, 0), DeliveryRow(SECOND, Pending, 0)],
                         [DeliveryTask("slow", 0, 1, Granted), DeliveryTask("quick", 0, 2, Granted)], [])

  lemma SlowLease()
    ensures Next(BOTH_DELIVERABLE, 1, Lease(Some("c"), "slow", 0, 60, 1, {})) == SLOW_LEASED
  {
    LeaseOne(BOTH_DELIVERABLE, 1, Some("c"), "slow", 0, 0);
  }

  lemma QuickLease()
    ensures Next(SLOW_LEASED, 1, Lease(Some("c"), "quick", 100, 60, 1, {})) == RETAKEN
  {
    LeaseOne(SLOW_LEASED, 1, Some("c"), "quick", 100, 0);
  }

  lemma FirstRetaken()
    ensures Run(CONFIG, P3) == System(BOTH_PUBLISHED, RETAKEN, [0, 1], {}, [])
  {
    SecondPublished();
    SlowLease();
    QuickLease();
    var slow := Lease(Some("c"), "slow", 0, 60, 1, {});
    RunSnoc(CONFIG, P2, DeliveryMove(slow));
    RunSnoc(CONFIG, P2 + [DeliveryMove(slow)], DeliveryMove(Lease(Some("c"), "quick", 100, 60, 1, {})));
  }

  const DEAD := Queue([DeliveryRow(FIRST, Dead, 2), DeliveryRow(SECOND, Pending, 0)],
                      [DeliveryTask("slow", 0, 1, Granted), DeliveryTask("quick", 0, 2, Closed(DeadLettered))], [])

  lemma GivenUp()
    ensures Next(RETAKEN, 1, GiveUp(1)) == DEAD
  {
  }

  lemma SkippedByOperator()
    ensures Next(DEAD, 1, Resolve(Some("c"), 0, Skip)) == Queue([DeliveryRow(FIRST, Skipped, 2), DEAD.rows[1]], DEAD.tasks, [MarkedSkipped(0)])
  {
  }

  lemma FirstSkipped()
    ensures Run(CONFIG, P4) == System(BOTH_PUBLISHED,
      Queue([DeliveryRow(FIRST, Skipped, 2), DeliveryRow(SECOND, Pending, 0)],
            [DeliveryTask("slow", 0, 1, Granted), DeliveryTask("quick", 0, 2, Closed(DeadLettered))],
            [MarkedSkipped(0)]), [0, 1], {}, [])
  {
    FirstRetaken();
    GivenUp();
    SkippedByOperator();
    RunSnoc(CONFIG, P3, DeliveryMove(GiveUp(1)));
    RunSnoc(CONFIG, P3 + [DeliveryMove(GiveUp(1))], DeliveryMove(Resolve(Some("c"), 0, Skip)));
  }

  /** The skipped event commits its effect after the event that follows it in its aggregate. */
  lemma SkippedEventCommitsLate()
    ensures var s := Run(CONFIG, LATE);
      && |s.outbox.rows| == |s.deliveries.rows| == 2
      && s.outbox.rows[0].Stream() == s.outbox.rows[1].Stream()
      && s.deliveries.rows[0].status.Skipped?
      && s.effects == [Effect(InboxKey("c", "T", "other"), 1), Effect(InboxKey("c", "T", "one"), 0)]
  {
    FirstSkipped();
    var s0 := Run(CONFIG, P4);
    var quick := Lease(Some("c"), "quick", 100, 60, 1, {});
    RunSnoc(CONFIG, P4, DeliveryMove(quick));
    RunSnoc(CONFIG, P4 + [DeliveryMove(quick)], Consume(2, true, true));
    RunSnoc(CONFIG, P5, Consume(0, true, true));
    LeaseOne(s0.deliveries, CONFIG.deliveryMax, Some("c"), "quick", 100, 1);
    var s1 := Apply(CONFIG, s0, DeliveryMove(quick));
    assert s1.deliveries.tasks[2] == DeliveryTask("quick", 1, 1, Granted);
    var s2 := Apply(CONFIG, s1, Consume(2, true, true));
    assert s2.effects == [Effect(InboxKey("c", "T", "other"), 1)];
    assert s2.deliveries.tasks[0] == DeliveryTask("slow", 0, 1, Granted);
    assert |"one"| != |"other"|;
    assert s2.inbox == {InboxKey("c", "T", "other")};
  }
}
