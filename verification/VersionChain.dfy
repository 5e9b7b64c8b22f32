/**
 A versioned aggregate under concurrent commands. Each command is a transaction: it decides on the
 snapshot it loaded (or, for a creation, on none), writes the row if the version is still the one
 loaded, appends an audit fact, appends an outbox event, and commits. It may end between any two of
 these. A written row stays locked until its transaction ends.
 */
module VersionChain {
  import opened Wrappers

  /** What a command makes of a snapshot: the next one, the event that announces it and the audit fact. */
  datatype Decision<S, E, A> = Decision(next: S, event: E, fact: A)

  /** The version that snapshots, events and facts carry, and what a command makes of a snapshot, or of none. */
  datatype Rules<!S, !C, !E, !A> = Rules(
    version: S -> int,
    eventVersion: E -> int,
    factVersion: A -> int,
    apply: (Option<S>, C) -> Option<Decision<S, E, A>>)

  /** Creation makes version 1 and every other command adds one; event and fact carry the version made. */
  ghost predicate CountsVersions<S(!new), C(!new), E(!new), A(!new)>(rules: Rules<S, C, E, A>) {
    forall before, c :: rules.apply(before, c).Some? ==>
      Carries(rules, rules.apply(before, c).value, if before.None? then 1 else rules.version(before.value) + 1)
  }

  predicate Carries<S, C, E, A>(rules: Rules<S, C, E, A>, d: Decision<S, E, A>, version: int) {
    rules.version(d.next) == version && rules.eventVersion(d.event) == version && rules.factVersion(d.fact) == version
  }

  datatype Transaction<S, E, A> =
    | Running
    | Loaded(snapshot: S)
    | Decided(snapshot: S, decision: Decision<S, E, A>)
    | Written(decision: Decision<S, E, A>)
    | Audited(decision: Decision<S, E, A>, fact: A)
    | Recorded(decision: Decision<S, E, A>, fact: A, sequence: nat, event: E)
    | Closed

  /** An appended event, the number it was appended with, and the transaction that appended it. */
  datatype Event<E> = Event(sequence: nat, tx: nat, event: E)

  /** The row, its lock, the open transactions, and what was committed: events, facts, and the rows there were. */
  datatype Store<S, E, A> = Store(
    committed: Option<S>,
    writer: Option<nat>,
    txs: seq<Transaction<S, E, A>>,
    outbox: seq<Event<E>>,
    audit: seq<A>,
    history: seq<S>,
    nextSequence: nat)

  function Empty<S, E, A>(): Store<S, E, A> {
    Store(None, None, [], [], [], [], 0)
  }

  datatype Step<C> =
    | Begin
    | Create(tx: nat, command: C)
    | Load(tx: nat)
    | Decide(tx: nat, command: C)
    | Update(tx: nat)
    | Audit(tx: nat)
    | Append(tx: nat)
    | Commit(tx: nat)
    | Abort(tx: nat)

  function Put<S, E, A>(s: Store<S, E, A>, tx: nat, t: Transaction<S, E, A>): Store<S, E, A>
    requires tx < |s.txs|
  {
    s.(txs := s.txs[tx := t])
  }

  /** Rollback, which releases the row. */
  function Close<S, E, A>(s: Store<S, E, A>, tx: nat): Store<S, E, A>
    requires tx < |s.txs|
  {
    Put(s, tx, Closed).(writer := if s.writer == Some(tx) then None else s.writer)
  }

  /** The row is written and locked. */
  function Write<S, E, A>(s: Store<S, E, A>, tx: nat, decision: Decision<S, E, A>): Store<S, E, A>
    requires tx < |s.txs|
  {
    Put(s, tx, Written(decision)).(writer := Some(tx))
  }

  /** One statement or one step of a handler; a step that is not enabled, or has to wait for the row, changes nothing. */
  function Next<S, C, E, A>(rules: Rules<S, C, E, A>, s: Store<S, E, A>, step: Step<C>): Store<S, E, A> {
    if step.Begin? then s.(txs := s.txs + [Running])
    else if step.tx >= |s.txs| then s
    else StepOf(rules, s, step, s.txs[step.tx])
  }

  function StepOf<S, C, E, A>(rules: Rules<S, C, E, A>, s: Store<S, E, A>, step: Step<C>, t: Transaction<S, E, A>): Store<S, E, A>
    requires !step.Begin? && step.tx < |s.txs|
  {
    match step
    case Create(tx, command) =>
      if !t.Running? || rules.apply(None, command).None? || s.writer.Some? then s
      else if s.committed.Some? then Close(s, tx)
      else Write(s, tx, rules.apply(None, command).value)
    case Load(tx) =>
      if !t.Running? then s
      else if s.committed.None? then Close(s, tx)
      else Put(s, tx, Loaded(s.committed.value))
    case Decide(tx, command) =>
      if !t.Loaded? then s
      else if rules.apply(Some(t.snapshot), command).None? then Close(s, tx)
      else Put(s, tx, Decided(t.snapshot, rules.apply(Some(t.snapshot), command).value))
    case Update(tx) =>
      if !t.Decided? || s.writer.Some? then s
      else if s.committed.None? || rules.version(s.committed.value) != rules.version(t.snapshot) then Close(s, tx)
      else Write(s, tx, t.decision)
    case Audit(tx) =>
      if !t.Written? then s
      else Put(s, tx, Audited(t.decision, t.decision.fact))
    case Append(tx) =>
      if !t.Audited? then s
      else Put(s, tx, Recorded(t.decision, t.fact, s.nextSequence, t.decision.event)).(nextSequence := s.nextSequence + 1)
    case Commit(tx) =>
      if !t.Recorded? then s
      else
        Close(s, tx).(
          committed := Some(t.decision.next),
          history := s.history + [t.decision.next],
          audit := s.audit + [t.fact],
          outbox := s.outbox + [Event(t.sequence, tx, t.event)])
    case Abort(tx) =>
      if t.Closed? then s else Close(s, tx)
  }

  function Exec<S, C, E, A>(rules: Rules<S, C, E, A>, steps: seq<Step<C>>): Store<S, E, A> {
    if steps == [] then Empty() else Next(rules, Exec(rules, steps[..|steps| - 1]), steps[|steps| - 1])
  }

  // ----- The invariant -----

  /** Some command makes this decision on the snapshot. */
  ghost predicate Follows<S, C(!new), E, A>(rules: Rules<S, C, E, A>, before: Option<S>, decision: Decision<S, E, A>) {
    exists c :: rules.apply(before, c) == Some(decision)
  }

  /** The snapshot is one that was committed. */
  predicate InHistory<S(==), C, E, A>(rules: Rules<S, C, E, A>, history: seq<S>, snapshot: S) {
    1 <= rules.version(snapshot) <= |history| && history[rules.version(snapshot) - 1] == snapshot
  }

  function Last<S>(history: seq<S>): Option<S> {
    if history == [] then None else Some(history[|history| - 1])
  }

  /** The transaction holds the row and its decision follows on the last snapshot. */
  ghost predicate Holds<S, C(!new), E, A>(rules: Rules<S, C, E, A>, s: Store<S, E, A>, tx: nat, decision: Decision<S, E, A>) {
    s.writer == Some(tx) && Follows(rules, Last(s.history), decision)
  }

  ghost predicate TransactionHolds<S, C(!new), E, A>(rules: Rules<S, C, E, A>, s: Store<S, E, A>, tx: nat)
    requires tx < |s.txs|
  {
    match s.txs[tx]
    case Loaded(snapshot) => InHistory(rules, s.history, snapshot)
    case Decided(snapshot, decision) => InHistory(rules, s.history, snapshot) && Follows(rules, Some(snapshot), decision)
    case Written(decision) => Holds(rules, s, tx, decision)
    case Audited(decision, fact) => Holds(rules, s, tx, decision) && fact == decision.fact
    case Recorded(decision, fact, sequence, event) =>
      && Holds(rules, s, tx, decision) && fact == decision.fact && event == decision.event && sequence < s.nextSequence
      && forall i :: 0 <= i < |s.outbox| ==> s.outbox[i].sequence < sequence
    case _ => true
  }

  /** Events, facts and snapshots carry versions from 1 without gaps, in sequence order. */
  predicate Numbered<S, C, E, A>(rules: Rules<S, C, E, A>, s: Store<S, E, A>) {
    && |s.audit| == |s.outbox| == |s.history|
    && (forall i :: 0 <= i < |s.history| ==> Carries(rules, Decision(s.history[i], s.outbox[i].event, s.audit[i]), i + 1))
    && (forall i, j :: 0 <= i < j < |s.outbox| ==> s.outbox[i].sequence < s.outbox[j].sequence)
    && (forall i :: 0 <= i < |s.outbox| ==> s.outbox[i].sequence < s.nextSequence)
  }

  /** The snapshot, event and fact at `i` are what a command made of the snapshot before. */
  ghost predicate LinkedAt<S, C(!new), E, A>(rules: Rules<S, C, E, A>, s: Store<S, E, A>, i: nat)
    requires i < |s.history| == |s.outbox| == |s.audit|
  {
    Follows(rules, Last(s.history[..i]), Decision(s.history[i], s.outbox[i].event, s.audit[i]))
  }

  /** Everything committed is one chain of commands, and the row is its end. */
  ghost predicate Linked<S, C(!new), E, A>(rules: Rules<S, C, E, A>, s: Store<S, E, A>) {
    && |s.audit| == |s.outbox| == |s.history|
    && (forall i :: 0 <= i < |s.history| ==> LinkedAt(rules, s, i))
    && s.committed == Last(s.history)
  }

  /** Every event is by a transaction that ended, and no transaction has two. */
  predicate Authored<S, E, A>(s: Store<S, E, A>) {
    && (forall i :: 0 <= i < |s.outbox| ==> s.outbox[i].tx < |s.txs| && s.txs[s.outbox[i].tx].Closed?)
    && (forall i, j :: 0 <= i < j < |s.outbox| ==> s.outbox[i].tx != s.outbox[j].tx)
  }

  predicate HoldsRow<S, E, A>(t: Transaction<S, E, A>) {
    t.Written? || t.Audited? || t.Recorded?
  }

  predicate WriterHolds<S, E, A>(s: Store<S, E, A>) {
    s.writer.Some? ==> s.writer.value < |s.txs| && HoldsRow(s.txs[s.writer.value])
  }

  ghost predicate Inv<S, C(!new), E, A>(rules: Rules<S, C, E, A>, s: Store<S, E, A>) {
    && Numbered(rules, s) && Linked(rules, s) && Authored(s) && WriterHolds(s)
    && (forall tx :: 0 <= tx < |s.txs| ==> TransactionHolds(rules, s, tx))
  }

  predicate SameCommitted<S(==), E(==), A(==)>(s: Store<S, E, A>, r: Store<S, E, A>) {
    r.committed == s.committed && r.outbox == s.outbox && r.audit == s.audit && r.history == s.history
  }

  lemma LinkedStays<S(!new), C(!new), E(!new), A(!new)>(rules: Rules<S, C, E, A>, s: Store<S, E, A>, r: Store<S, E, A>)
    requires Linked(rules, s) && SameCommitted(s, r)
    ensures Linked(rules, r)
  {
    forall i | 0 <= i < |r.history|
      ensures LinkedAt(rules, r, i)
    {
      assert LinkedAt(rules, s, i);
    }
  }

  /** A step that commits nothing keeps every other transaction's promise. */
  lemma QuietStep<S(!new), C(!new), E(!new), A(!new)>(rules: Rules<S, C, E, A>, s: Store<S, E, A>, r: Store<S, E, A>, tx: nat)
    requires Inv(rules, s) && tx < |s.txs| && |r.txs| == |s.txs|
    requires SameCommitted(s, r) && r.nextSequence >= s.nextSequence && !s.txs[tx].Closed?
    requires forall u :: 0 <= u < |s.txs| && u != tx ==> r.txs[u] == s.txs[u]
    requires r.writer == s.writer || s.writer in {None, Some(tx)}
    requires WriterHolds(r) && TransactionHolds(rules, r, tx)
    ensures Inv(rules, r)
  {
    LinkedStays(rules, s, r);
    forall u | 0 <= u < |r.txs|
      ensures TransactionHolds(rules, r, u)
    {
      assert TransactionHolds(rules, s, u);
    }
  }

  lemma CloseKeeps<S(!new), C(!new), E(!new), A(!new)>(rules: Rules<S, C, E, A>, s: Store<S, E, A>, tx: nat)
    requires Inv(rules, s) && tx < |s.txs|
    ensures Inv(rules, Close(s, tx))
  {
    if s.txs[tx].Closed? {
      assert Close(s, tx) == s;
    } else {
      QuietStep(rules, s, Close(s, tx), tx);
    }
  }

  lemma WriteKeeps<S(!new), C(!new), E(!new), A(!new)>(rules: Rules<S, C, E, A>, s: Store<S, E, A>, tx: nat, decision: Decision<S, E, A>)
    requires Inv(rules, s) && tx < |s.txs| && s.writer.None? && !s.txs[tx].Closed? && Follows(rules, Last(s.history), decision)
    ensures Inv(rules, Write(s, tx, decision))
  {
    QuietStep(rules, s, Write(s, tx, decision), tx);
  }

  /** A version seen in the history is that of one snapshot only, so compare-and-set compares snapshots. */
  lemma SameVersionSameSnapshot<S(!new), C(!new), E(!new), A(!new)>(rules: Rules<S, C, E, A>, s: Store<S, E, A>, snapshot: S)
    requires Inv(rules, s) && InHistory(rules, s.history, snapshot)
    requires s.committed.Some? && rules.version(s.committed.value) == rules.version(snapshot)
    ensures s.committed == Some(snapshot)
  {
    var last := |s.history| - 1;
    assert Carries(rules, Decision(s.history[last], s.outbox[last].event, s.audit[last]), last + 1);
  }

  lemma UpdateKeeps<S(!new), C(!new), E(!new), A(!new)>(rules: Rules<S, C, E, A>, s: Store<S, E, A>, tx: nat)
    requires Inv(rules, s) && tx < |s.txs| && s.txs[tx].Decided? && s.writer.None?
    ensures Inv(rules, StepOf(rules, s, Update(tx), s.txs[tx]))
  {
    var t := s.txs[tx];
    assert TransactionHolds(rules, s, tx);
    if s.committed.Some? && rules.version(s.committed.value) == rules.version(t.snapshot) {
      SameVersionSameSnapshot(rules, s, t.snapshot);
      WriteKeeps(rules, s, tx, t.decision);
    } else {
      CloseKeeps(rules, s, tx);
    }
  }

  /** What follows on the last snapshot carries the next version in each of its parts. */
  lemma VersionContinues<S(!new), C(!new), E(!new), A(!new)>(rules: Rules<S, C, E, A>, s: Store<S, E, A>, d: Decision<S, E, A>)
    requires CountsVersions(rules) && Numbered(rules, s) && Follows(rules, Last(s.history), d)
    ensures Carries(rules, d, |s.history| + 1)
  {
    var c :| rules.apply(Last(s.history), c) == Some(d);
    if s.history != [] {
      var last := |s.history| - 1;
      assert Carries(rules, Decision(s.history[last], s.outbox[last].event, s.audit[last]), last + 1);
    }
  }

  /** `r` has committed this decision on top of `s`. */
  predicate Grown<S(==), E(==), A(==)>(s: Store<S, E, A>, r: Store<S, E, A>, d: Decision<S, E, A>, event: Event<E>) {
    && r.history == s.history + [d.next] && r.outbox == s.outbox + [event] && r.audit == s.audit + [d.fact]
    && event.event == d.event && r.committed == Some(d.next) && r.nextSequence == s.nextSequence
  }

  lemma NumberedGrows<S(!new), C(!new), E(!new), A(!new)>(rules: Rules<S, C, E, A>, s: Store<S, E, A>, r: Store<S, E, A>,
                                                          d: Decision<S, E, A>, event: Event<E>)
    requires Numbered(rules, s) && Carries(rules, d, |s.history| + 1) && Grown(s, r, d, event)
    requires event.sequence < s.nextSequence && forall i :: 0 <= i < |s.outbox| ==> s.outbox[i].sequence < event.sequence
    ensures Numbered(rules, r)
  {
    forall i | 0 <= i < |r.history|
      ensures Carries(rules, Decision(r.history[i], r.outbox[i].event, r.audit[i]), i + 1)
    {
      if i < |s.history| {
        assert Carries(rules, Decision(s.history[i], s.outbox[i].event, s.audit[i]), i + 1);
      }
    }
  }

  lemma LinkedGrows<S(!new), C(!new), E(!new), A(!new)>(rules: Rules<S, C, E, A>, s: Store<S, E, A>, r: Store<S, E, A>,
                                                        d: Decision<S, E, A>, event: Event<E>)
    requires Linked(rules, s) && Follows(rules, Last(s.history), d) && Grown(s, r, d, event)
    ensures Linked(rules, r)
  {
    forall i | 0 <= i < |r.history|
      ensures LinkedAt(rules, r, i)
    {
      if i < |s.history| {
        assert LinkedAt(rules, s, i) && r.history[..i] == s.history[..i];
      } else {
        assert r.history[..i] == s.history;
      }
    }
  }

  lemma CommitKeeps<S(!new), C(!new), E(!new), A(!new)>(rules: Rules<S, C, E, A>, s: Store<S, E, A>, tx: nat)
    requires CountsVersions(rules) && Inv(rules, s) && tx < |s.txs| && s.txs[tx].Recorded?
    ensures Inv(rules, StepOf(rules, s, Commit(tx), s.txs[tx]))
  {
    var t, r := s.txs[tx], StepOf(rules, s, Commit(tx), s.txs[tx]);
    assert TransactionHolds(rules, s, tx);
    VersionContinues(rules, s, t.decision);
    NumberedGrows(rules, s, r, t.decision, Event(t.sequence, tx, t.event));
    LinkedGrows(rules, s, r, t.decision, Event(t.sequence, tx, t.event));
    forall u | 0 <= u < |r.txs|
      ensures TransactionHolds(rules, r, u)
    {
      CommitLeavesOthers(rules, s, r, tx, u);
    }
  }

  lemma CommitLeavesOthers<S(!new), C(!new), E(!new), A(!new)>(rules: Rules<S, C, E, A>, s: Store<S, E, A>, r: Store<S, E, A>, tx: nat, u: nat)
    requires tx < |s.txs| && u < |s.txs| == |r.txs| && s.writer == Some(tx) && TransactionHolds(rules, s, u)
    requires r.txs == s.txs[tx := Closed] && s.history <= r.history
    ensures TransactionHolds(rules, r, u)
  {
  }

  lemma BeginKeeps<S(!new), C(!new), E(!new), A(!new)>(rules: Rules<S, C, E, A>, s: Store<S, E, A>)
    requires Inv(rules, s)
    ensures Inv(rules, s.(txs := s.txs + [Running]))
  {
    var r := s.(txs := s.txs + [Running]);
    LinkedStays(rules, s, r);
    forall u | 0 <= u < |r.txs|
      ensures TransactionHolds(rules, r, u)
    {
      if u < |s.txs| {
        assert TransactionHolds(rules, s, u);
      }
    }
  }

  lemma ReadKeeps<S(!new), C(!new), E(!new), A(!new)>(rules: Rules<S, C, E, A>, s: Store<S, E, A>, step: Step<C>)
    requires Inv(rules, s) && (step.Load? || step.Decide?) && step.tx < |s.txs|
    ensures Inv(rules, StepOf(rules, s, step, s.txs[step.tx]))
  {
    var r := StepOf(rules, s, step, s.txs[step.tx]);
    assert TransactionHolds(rules, s, step.tx);
    if r == Close(s, step.tx) {
      CloseKeeps(rules, s, step.tx);
    } else if r != s {
      LoadedInHistory(rules, s);
      QuietStep(rules, s, r, step.tx);
    }
  }

  lemma AppendKeeps<S(!new), C(!new), E(!new), A(!new)>(rules: Rules<S, C, E, A>, s: Store<S, E, A>, step: Step<C>)
    requires Inv(rules, s) && (step.Audit? || step.Append?) && step.tx < |s.txs|
    ensures Inv(rules, StepOf(rules, s, step, s.txs[step.tx]))
  {
    var r := StepOf(rules, s, step, s.txs[step.tx]);
    assert TransactionHolds(rules, s, step.tx);
    if r != s {
      QuietStep(rules, s, r, step.tx);
    }
  }

  lemma LoadedInHistory<S(!new), C(!new), E(!new), A(!new)>(rules: Rules<S, C, E, A>, s: Store<S, E, A>)
    requires Inv(rules, s)
    ensures s.committed.Some? ==> InHistory(rules, s.history, s.committed.value)
  {
    if s.committed.Some? {
      var last := |s.history| - 1;
      assert Carries(rules, Decision(s.history[last], s.outbox[last].event, s.audit[last]), last + 1);
    }
  }

  /** Every step of every interleaving keeps the invariant. */
  lemma InvStep<S(!new), C(!new), E(!new), A(!new)>(rules: Rules<S, C, E, A>, s: Store<S, E, A>, step: Step<C>)
    requires CountsVersions(rules) && Inv(rules, s)
    ensures Inv(rules, Next(rules, s, step))
  {
    if step.Begin? {
      BeginKeeps(rules, s);
    } else if step.tx < |s.txs| {
      var t := s.txs[step.tx];
      match step
      case Create(tx, command) =>
        if t.Running? && rules.apply(None, command).Some? && s.writer.None? {
          if s.committed.Some? {
            CloseKeeps(rules, s, tx);
          } else {
            WriteKeeps(rules, s, tx, rules.apply(None, command).value);
          }
        }
      case Update(tx) => if t.Decided? && s.writer.None? { UpdateKeeps(rules, s, tx); }
      case Commit(tx) => if t.Recorded? { CommitKeeps(rules, s, tx); }
      case Abort(tx) => CloseKeeps(rules, s, tx);
      case Load(_) => ReadKeeps(rules, s, step);
      case Decide(_, _) => ReadKeeps(rules, s, step);
      case Audit(_) => AppendKeeps(rules, s, step);
      case Append(_) => AppendKeeps(rules, s, step);
    }
  }

  // ----- The main results, for every run -----

  lemma {:induction false} InvAlways<S(!new), C(!new), E(!new), A(!new)>(rules: Rules<S, C, E, A>, steps: seq<Step<C>>)
    requires CountsVersions(rules)
    ensures Inv(rules, Exec(rules, steps))
  {
    if steps != [] {
      InvAlways(rules, steps[..|steps| - 1]);
      InvStep(rules, Exec(rules, steps[..|steps| - 1]), steps[|steps| - 1]);
    }
  }

  /** Some run ends in this state. */
  ghost predicate Reachable<S, C(!new), E, A>(rules: Rules<S, C, E, A>, s: Store<S, E, A>) {
    exists steps :: s == Exec(rules, steps)
  }

  lemma ReachableHolds<S(!new), C(!new), E(!new), A(!new)>(rules: Rules<S, C, E, A>, s: Store<S, E, A>)
    requires CountsVersions(rules) && Reachable(rules, s)
    ensures Inv(rules, s)
  {
    var steps :| s == Exec(rules, steps);
    InvAlways(rules, steps);
  }

  /**
   The events that were appended and committed carry in themselves versions exactly 1..n, in sequence
   order, n being the stored version, and so do the audit facts, one for each version.
   */
  lemma VersionsAreConsecutive<S(!new), C(!new), E(!new), A(!new)>(rules: Rules<S, C, E, A>, steps: seq<Step<C>>)
    requires CountsVersions(rules)
    ensures var s := Exec(rules, steps);
      && (forall i :: 0 <= i < |s.outbox| ==> rules.eventVersion(s.outbox[i].event) == i + 1)
      && (forall i, j :: 0 <= i < j < |s.outbox| ==> s.outbox[i].sequence < s.outbox[j].sequence)
      && |s.audit| == |s.outbox| && (forall i :: 0 <= i < |s.audit| ==> rules.factVersion(s.audit[i]) == i + 1)
      && (if s.committed.None? then s.outbox == [] else s.outbox != [] && rules.version(s.committed.value) == |s.outbox|)
  {
    InvAlways(rules, steps);
    var s := Exec(rules, steps);
    forall i | 0 <= i < |s.history|
      ensures rules.eventVersion(s.outbox[i].event) == rules.factVersion(s.audit[i]) == rules.version(s.history[i]) == i + 1
    {
      assert Carries(rules, Decision(s.history[i], s.outbox[i].event, s.audit[i]), i + 1);
    }
  }

  /** Each committed snapshot, with the event and the fact committed with it, is what one command made of the one before. */
  lemma HistoryIsAChain<S(!new), C(!new), E(!new), A(!new)>(rules: Rules<S, C, E, A>, steps: seq<Step<C>>)
    requires CountsVersions(rules)
    ensures Linked(rules, Exec(rules, steps))
  {
    InvAlways(rules, steps);
  }

  /** No transaction commits two events, and none that is still open has committed any. */
  lemma OneEventPerTransaction<S(!new), C(!new), E(!new), A(!new)>(rules: Rules<S, C, E, A>, steps: seq<Step<C>>)
    requires CountsVersions(rules)
    ensures Authored(Exec(rules, steps))
  {
    InvAlways(rules, steps);
  }

  lemma LinkedTo<S(!new), C(!new), E(!new), A(!new)>(rules: Rules<S, C, E, A>, s: Store<S, E, A>, i: nat)
    requires Linked(rules, s) && 0 < i < |s.history|
    ensures Follows(rules, Some(s.history[i - 1]), Decision(s.history[i], s.outbox[i].event, s.audit[i]))
  {
    assert LinkedAt(rules, s, i) && Last(s.history[..i]) == Some(s.history[i - 1]);
  }

  lemma LinkedFirst<S(!new), C(!new), E(!new), A(!new)>(rules: Rules<S, C, E, A>, s: Store<S, E, A>)
    requires Linked(rules, s) && s.history != []
    ensures Follows(rules, None, Decision(s.history[0], s.outbox[0].event, s.audit[0]))
  {
    assert LinkedAt(rules, s, 0);
  }

  ghost predicate Final<S, C(!new), E, A>(rules: Rules<S, C, E, A>, snapshot: S) {
    forall c :: rules.apply(Some(snapshot), c).None?
  }

  /** A snapshot no command applies to is the last of its history, in every continuation of the run. */
  lemma FinalSnapshotIsLast<S(!new), C(!new), E(!new), A(!new)>(rules: Rules<S, C, E, A>, steps: seq<Step<C>>, i: nat)
    requires CountsVersions(rules) && i < |Exec(rules, steps).history| && Final(rules, Exec(rules, steps).history[i])
    ensures i == |Exec(rules, steps).history| - 1
  {
    InvAlways(rules, steps);
    if i + 1 < |Exec(rules, steps).history| {
      LinkedTo(rules, Exec(rules, steps), i + 1);
    }
  }

  /** What every creation makes true and every command keeps is true of every committed snapshot. */
  lemma {:induction false} HistoryKeeps<S(!new), C(!new), E(!new), A(!new)>(rules: Rules<S, C, E, A>, s: Store<S, E, A>, kept: S -> bool, i: nat)
    requires Linked(rules, s) && i < |s.history|
    requires forall c :: rules.apply(None, c).Some? ==> kept(rules.apply(None, c).value.next)
    requires forall x, c :: kept(x) && rules.apply(Some(x), c).Some? ==> kept(rules.apply(Some(x), c).value.next)
    ensures kept(s.history[i])
  {
    if i == 0 {
      LinkedFirst(rules, s);
    } else {
      HistoryKeeps(rules, s, kept, i - 1);
      LinkedTo(rules, s, i);
    }
  }

  lemma StepOnlyAdds<S(!new), C(!new), E(!new), A(!new)>(rules: Rules<S, C, E, A>, s: Store<S, E, A>, step: Step<C>)
    ensures var r := Next(rules, s, step);
      s.outbox <= r.outbox && s.audit <= r.audit && s.history <= r.history
  {
    if step.Commit? && step.tx < |s.txs| && s.txs[step.tx].Recorded? {
      assert Next(rules, s, step).history == s.history + [s.txs[step.tx].decision.next];
    }
  }

  /** In every continuation of a run, what was committed stays as it is. */
  lemma {:induction false} HistoryOnlyGrows<S(!new), C(!new), E(!new), A(!new)>(rules: Rules<S, C, E, A>, steps: seq<Step<C>>, more: seq<Step<C>>)
    ensures var s, r := Exec(rules, steps), Exec(rules, steps + more);
      s.outbox <= r.outbox && s.audit <= r.audit && s.history <= r.history
    decreases |more|
  {
    if more == [] {
      assert steps + more == steps;
    } else {
      var front := more[..|more| - 1];
      HistoryOnlyGrows(rules, steps, front);
      assert (steps + more)[..|steps + more| - 1] == steps + front;
      StepOnlyAdds(rules, Exec(rules, steps + front), more[|more| - 1]);
    }
  }
}
