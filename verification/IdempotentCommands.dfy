/**
 Idempotent execution around the commands of a versioned aggregate: claim, row, audit fact, event and
 stored response in one transaction. For one key, its records and the aggregate's rows form one
 system: a transaction on the key that claimed it opens its part on the rows, and the two parts commit
 or roll back together. Commands under other keys are the transactions on the rows that no
 transaction of this key opened.
 */
module IdempotentCommands {
  import opened Wrappers
  import opened Ordering
  import Keys = Idempotency
  import KeyFrame = IdempotentExecutor
  import Rows = VersionChain
  import RowFrame = VersionedRow
  import Tenant

  /** `parts` says which transaction on the rows belongs to each transaction on the key. */
  datatype System<S, E, A> = System(keys: Keys.Store, rows: Rows.Store<S, E, A>, parts: seq<Option<nat>>)

  function Start<S, E, A>(): System<S, E, A> {
    System(Keys.EMPTY, Rows.Empty(), [])
  }

  /** What the aggregate's handlers do, and the response they store for a snapshot. */
  datatype Setting<!S, !C, !E, !A> = Setting(rules: Rows.Rules<S, C, E, A>, response: S -> Keys.Response, retention: nat)

  datatype Move<C> =
    | OnKey(keyStep: Keys.Step)
    | Open(t: nat)
    | OnRow(rowStep: Rows.Step<C>)
    | Respond(t: nat)
    | Complete(t: nat)
    | Commit(t: nat)
    | Abort(t: nat)

  /** The transaction on the rows is part of one on the key. */
  predicate Joined<S, E, A>(s: System<S, E, A>, r: nat) {
    exists t :: 0 <= t < |s.parts| && s.parts[t] == Some(r)
  }

  function NextKeys<S, C, E, A>(x: Setting<S, C, E, A>, s: System<S, E, A>, step: Keys.Step): System<S, E, A> {
    s.(keys := Keys.Next(s.keys, x.retention, step))
  }

  function NextRows<S, C, E, A>(x: Setting<S, C, E, A>, s: System<S, E, A>, step: Rows.Step<C>): System<S, E, A> {
    s.(rows := Rows.Next(x.rules, s.rows, step))
  }

  /** The part on the rows has recorded everything it wants to commit. */
  predicate Ready<S, E, A>(s: System<S, E, A>, t: nat) {
    && t < |s.parts| && t < |s.keys.txs| && s.parts[t].Some?
    && s.parts[t].value < |s.rows.txs| && s.rows.txs[s.parts[t].value].Recorded?
  }

  /** The response to what the part on the rows is about to commit. */
  function ResponseOf<S, C, E, A>(x: Setting<S, C, E, A>, s: System<S, E, A>, t: nat): Keys.Response
    requires Ready(s, t)
  {
    x.response(s.rows.txs[s.parts[t].value].decision.next)
  }

  /** Both parts roll back. */
  function AbortBoth<S, C, E, A>(x: Setting<S, C, E, A>, s: System<S, E, A>, t: nat): System<S, E, A> {
    var u := NextKeys(x, s, Keys.Step.Abort(t));
    if t < |s.parts| && s.parts[t].Some? then NextRows(x, u, Rows.Step.Abort(s.parts[t].value)) else u
  }

  function Next<S, C, E, A>(x: Setting<S, C, E, A>, s: System<S, E, A>, move: Move<C>): System<S, E, A> {
    match move
    case OnKey(step) =>
      if step.Begin? then NextKeys(x, s, step).(parts := s.parts + [None])
      else if step.Insert? || step.Replace? || step.Read? || step.Answer? then NextKeys(x, s, step)
      else s
    case Open(t) =>
      if t < |s.keys.txs| && t < |s.parts| && s.keys.txs[t].phase.Claimed? && s.parts[t].None? then
        NextRows(x, s, Rows.Step.Begin).(parts := s.parts[t := Some(|s.rows.txs|)])
      else s
    case OnRow(step) =>
      if (step.Commit? || step.Abort?) && Joined(s, step.tx) then s else NextRows(x, s, step)
    case Respond(t) =>
      if Ready(s, t) && s.keys.txs[t].phase.Claimed? then
        if Keys.ValidResponse(ResponseOf(x, s, t)) then NextKeys(x, s, Keys.Step.Work(t, Some(ResponseOf(x, s, t)))) else AbortBoth(x, s, t)
      else s
    case Complete(t) =>
      if t < |s.keys.txs| && s.keys.txs[t].phase.Worked? then
        if Keys.OwnsProcessing(s.keys, t) then NextKeys(x, s, Keys.Step.Complete(t)) else AbortBoth(x, s, t)
      else s
    case Commit(t) =>
      if Ready(s, t) && s.keys.txs[t].phase.Completed? && KeyFrame.Written(s.keys, t).Some? && KeyFrame.Written(s.keys, t).value.response.Some? then
        NextRows(x, NextKeys(x, s, Keys.Step.Commit(t)), Rows.Step.Commit(s.parts[t].value))
      else s
    case Abort(t) =>
      if t < |s.keys.txs| && !s.keys.txs[t].phase.Closed? then AbortBoth(x, s, t) else s
  }

  function Run<S, C, E, A>(x: Setting<S, C, E, A>, moves: seq<Move<C>>): System<S, E, A> {
    if moves == [] then Start() else Next(x, Run(x, moves[..|moves| - 1]), moves[|moves| - 1])
  }

  // ----- The invariant -----

  /** Parts exist and belong to one transaction each. */
  predicate PartsFit<S, E, A>(s: System<S, E, A>) {
    && |s.parts| == |s.keys.txs|
    && (forall t :: 0 <= t < |s.parts| && s.parts[t].Some? ==> s.parts[t].value < |s.rows.txs|)
    && (forall t, u :: 0 <= t < u < |s.parts| && s.parts[t].Some? ==> s.parts[u] != s.parts[t])
  }

  /** A transaction with a response answers for what its part is about to commit. */
  predicate PhaseFits<S, C, E, A>(x: Setting<S, C, E, A>, s: System<S, E, A>, t: nat)
    requires t < |s.keys.txs| == |s.parts|
  {
    match s.keys.txs[t].phase
    case Claimed => true
    case Closed => true
    case Worked(response) => Ready(s, t) && response == ResponseOf(x, s, t)
    case Completed =>
      Ready(s, t) && (KeyFrame.Written(s.keys, t).Some? ==> KeyFrame.Written(s.keys, t).value.response == Some(ResponseOf(x, s, t)))
    case _ => s.parts[t].None?
  }

  /** Version `i` was committed by the part `r` and is what the response tells. */
  predicate Tells<S, C, E, A>(x: Setting<S, C, E, A>, rows: Rows.Store<S, E, A>, r: nat, response: Keys.Response, i: nat) {
    i < |rows.outbox| && i < |rows.history| && rows.outbox[i].tx == r && x.response(rows.history[i]) == response
  }

  /** The execution at `k` committed a version, and its response tells that version. */
  ghost predicate Committed<S, C, E, A>(x: Setting<S, C, E, A>, s: System<S, E, A>, k: nat)
    requires k < |s.keys.log| && s.keys.log[k].Executed?
  {
    var fact := s.keys.log[k];
    && fact.tx < |s.parts| && fact.tx < |s.keys.txs| && s.parts[fact.tx].Some?
    && fact.now == s.keys.txs[fact.tx].now && fact.hash == s.keys.txs[fact.tx].hash
    && exists i :: Tells(x, s.rows, s.parts[fact.tx].value, fact.response, i)
  }

  predicate ExecutedBy(log: seq<Keys.Fact>, t: nat, k: nat) {
    k < |log| && log[k].Executed? && log[k].tx == t
  }

  /** What a transaction of the key committed on the rows was executed on the key. */
  ghost predicate Accounted<S, E, A>(s: System<S, E, A>, t: nat)
    requires t < |s.parts|
  {
    s.parts[t].Some? && RowFrame.CommittedBy(s.rows.outbox, s.parts[t].value) ==> exists k :: ExecutedBy(s.keys.log, t, k)
  }

  ghost predicate Bound<S, C(!new), E, A>(x: Setting<S, C, E, A>, s: System<S, E, A>) {
    && PartsFit(s)
    && (forall t :: 0 <= t < |s.parts| ==> PhaseFits(x, s, t) && Accounted(s, t))
    && (forall k :: 0 <= k < |s.keys.log| && s.keys.log[k].Executed? ==> Committed(x, s, k))
  }

  ghost predicate Inv<S, C(!new), E, A>(x: Setting<S, C, E, A>, s: System<S, E, A>) {
    Keys.Inv(s.keys, x.retention) && Rows.Inv(x.rules, s.rows) && Bound(x, s)
  }

  // ----- Steps on one side -----

  /** A statement on the key other than a commit executes nothing and moves no other transaction. */
  lemma KeyStepFrame(s: Keys.Store, retention: nat, step: Keys.Step, t: nat)
    requires !step.Commit? && t < |s.txs|
    ensures var r := Keys.Next(s, retention, step);
      && |s.txs| <= |r.txs| && r.txs[t].now == s.txs[t].now && r.txs[t].hash == s.txs[t].hash && s.log <= r.log
      && (forall k :: |s.log| <= k < |r.log| ==> !r.log[k].Executed?)
      && (KeyFrame.Foreign(step, t) ==> r.txs[t] == s.txs[t] && KeyFrame.Written(r, t) == KeyFrame.Written(s, t))
  {
    if KeyFrame.Foreign(step, t) {
      KeyFrame.ForeignStepKeeps(s, retention, step, t);
    }
  }

  /** What is true of transaction `t` of the key stays true when neither it nor its part moves. */
  lemma PhaseStays<S, C, E, A>(x: Setting<S, C, E, A>, s: System<S, E, A>, r: System<S, E, A>, t: nat)
    requires PartsFit(s) && PartsFit(r) && t < |s.parts| <= |r.parts| && PhaseFits(x, s, t)
    requires r.parts[t] == s.parts[t] && r.keys.txs[t] == s.keys.txs[t] && KeyFrame.Written(r.keys, t) == KeyFrame.Written(s.keys, t)
    requires Ready(s, t) ==> Ready(r, t) && r.rows.txs[r.parts[t].value] == s.rows.txs[s.parts[t].value]
    ensures PhaseFits(x, r, t)
  {
  }

  lemma AccountedStays<S, E, A>(s: System<S, E, A>, r: System<S, E, A>, t: nat)
    requires t < |s.parts| && t < |r.parts| && Accounted(s, t) && r.parts[t] == s.parts[t] && s.keys.log <= r.keys.log
    requires r.parts[t].Some? ==> (RowFrame.CommittedBy(r.rows.outbox, r.parts[t].value) <==> RowFrame.CommittedBy(s.rows.outbox, r.parts[t].value))
    ensures Accounted(r, t)
  {
    if r.parts[t].Some? && RowFrame.CommittedBy(r.rows.outbox, r.parts[t].value) {
      var k :| ExecutedBy(s.keys.log, t, k);
      assert ExecutedBy(r.keys.log, t, k);
    }
  }

  lemma CommittedStays<S, C, E, A>(x: Setting<S, C, E, A>, s: System<S, E, A>, r: System<S, E, A>, k: nat)
    requires k < |s.keys.log| && s.keys.log[k].Executed? && Committed(x, s, k) && s.keys.log <= r.keys.log
    requires s.rows.outbox <= r.rows.outbox && s.rows.history <= r.rows.history
    requires s.keys.log[k].tx < |r.parts| && s.keys.log[k].tx < |r.keys.txs| && r.parts[s.keys.log[k].tx] == s.parts[s.keys.log[k].tx]
    requires r.keys.txs[s.keys.log[k].tx].now == s.keys.txs[s.keys.log[k].tx].now
    requires r.keys.txs[s.keys.log[k].tx].hash == s.keys.txs[s.keys.log[k].tx].hash
    ensures Committed(x, r, k)
  {
    var i :| Tells(x, s.rows, s.parts[s.keys.log[k].tx].value, s.keys.log[k].response, i);
    assert Tells(x, r.rows, s.parts[s.keys.log[k].tx].value, s.keys.log[k].response, i);
  }

  lemma KeyThreadStays<S(!new), C(!new), E(!new), A(!new)>(x: Setting<S, C, E, A>, s: System<S, E, A>, step: Keys.Step, t: nat)
    requires Bound(x, s) && !step.Begin? && !step.Commit? && t < |s.parts|
    requires step.tx == t ==> PhaseFits(x, NextKeys(x, s, step), t)
    ensures PhaseFits(x, NextKeys(x, s, step), t) && Accounted(NextKeys(x, s, step), t)
  {
    var r := NextKeys(x, s, step);
    KeyStepFrame(s.keys, x.retention, step, t);
    AccountedStays(s, r, t);
    if t != step.tx {
      PhaseStays(x, s, r, t);
    }
  }

  /** A statement on the key that is not a commit keeps the bond, when it leaves its own transaction fitting. */
  lemma KeyKeeps<S(!new), C(!new), E(!new), A(!new)>(x: Setting<S, C, E, A>, s: System<S, E, A>, step: Keys.Step)
    requires Inv(x, s) && !step.Begin? && !step.Commit?
    requires step.tx < |s.parts| ==> PhaseFits(x, NextKeys(x, s, step), step.tx)
    ensures Inv(x, NextKeys(x, s, step))
  {
    var r := NextKeys(x, s, step);
    Keys.InvStep(s.keys, x.retention, step);
    forall t | 0 <= t < |r.parts|
      ensures PhaseFits(x, r, t) && Accounted(r, t)
    {
      KeyThreadStays(x, s, step, t);
    }
    forall k | 0 <= k < |r.keys.log| && r.keys.log[k].Executed?
      ensures Committed(x, r, k)
    {
      KeyCommittedStays(x, s, step, k);
    }
  }

  lemma KeyCommittedStays<S(!new), C(!new), E(!new), A(!new)>(x: Setting<S, C, E, A>, s: System<S, E, A>, step: Keys.Step, k: nat)
    requires Bound(x, s) && !step.Begin? && !step.Commit?
    requires k < |NextKeys(x, s, step).keys.log| && NextKeys(x, s, step).keys.log[k].Executed?
    ensures Committed(x, NextKeys(x, s, step), k)
  {
    var r := NextKeys(x, s, step);
    if |s.keys.txs| > 0 {
      KeyStepFrame(s.keys, x.retention, step, 0);
    }
    assert k < |s.keys.log| && s.keys.log <= r.keys.log;
    KeyStepFrame(s.keys, x.retention, step, s.keys.log[k].tx);
    CommittedStays(x, s, r, k);
  }

  lemma KeyBeginKeeps<S(!new), C(!new), E(!new), A(!new)>(x: Setting<S, C, E, A>, s: System<S, E, A>, step: Keys.Step)
    requires Inv(x, s) && step.Begin?
    ensures Inv(x, NextKeys(x, s, step).(parts := s.parts + [None]))
  {
    var r := NextKeys(x, s, step).(parts := s.parts + [None]);
    Keys.InvStep(s.keys, x.retention, step);
    forall t | 0 <= t < |r.parts|
      ensures PhaseFits(x, r, t) && Accounted(r, t)
    {
      if t < |s.parts| {
        AccountedStays(s, r, t);
        PhaseStays(x, s, r, t);
      }
    }
    forall k | 0 <= k < |r.keys.log| && r.keys.log[k].Executed?
      ensures Committed(x, r, k)
    {
      CommittedStays(x, s, r, k);
    }
  }

  /** A step on the rows leaves a recorded part alone, and commits for no other, unless it ends that very part. */
  lemma RowStepFrame<S(!new), C(!new), E(!new), A(!new)>(rules: Rows.Rules<S, C, E, A>, s: Rows.Store<S, E, A>, step: Rows.Step<C>, r: nat)
    requires Rows.CountsVersions(rules) && Rows.Inv(rules, s) && r < |s.txs|
    ensures var n := Rows.Next(rules, s, step);
      && |s.txs| <= |n.txs|
      && (!(step.Commit? && step.tx == r) ==> (RowFrame.CommittedBy(n.outbox, r) <==> RowFrame.CommittedBy(s.outbox, r)))
      && (s.txs[r].Recorded? && !((step.Commit? || step.Abort?) && step.tx == r) ==> n.txs[r] == s.txs[r])
  {
    if RowFrame.Foreign(step, r) {
      RowFrame.ForeignStepKeeps(rules, s, step, r);
    }
  }

  /** The step ends no part whose transaction on the key still counts on it. */
  predicate Allowed<S, C, E, A>(s: System<S, E, A>, step: Rows.Step<C>)
    requires |s.parts| == |s.keys.txs|
  {
    step.Commit? || step.Abort? ==>
      forall t :: 0 <= t < |s.parts| && s.parts[t] == Some(step.tx) ==> step.Abort? && s.keys.txs[t].phase.Closed?
  }

  lemma RowThreadStays<S(!new), C(!new), E(!new), A(!new)>(x: Setting<S, C, E, A>, s: System<S, E, A>, step: Rows.Step<C>, t: nat)
    requires Rows.CountsVersions(x.rules) && Rows.Inv(x.rules, s.rows) && Bound(x, s) && Allowed(s, step) && t < |s.parts|
    requires PartsFit(NextRows(x, s, step))
    ensures PhaseFits(x, NextRows(x, s, step), t) && Accounted(NextRows(x, s, step), t)
  {
    var r := NextRows(x, s, step);
    assert PhaseFits(x, s, t) && Accounted(s, t);
    if s.parts[t].Some? {
      RowStepFrame(x.rules, s.rows, step, s.parts[t].value);
    }
    AccountedStays(s, r, t);
    if !s.keys.txs[t].phase.Closed? {
      PhaseStays(x, s, r, t);
    }
  }

  lemma RowPartsFit<S(!new), C(!new), E(!new), A(!new)>(x: Setting<S, C, E, A>, s: System<S, E, A>, step: Rows.Step<C>)
    requires PartsFit(s)
    ensures PartsFit(NextRows(x, s, step)) && |s.rows.txs| <= |NextRows(x, s, step).rows.txs|
  {
  }

  /** A step on the rows keeps the bond unless it ends a part on its own. */
  lemma RowKeeps<S(!new), C(!new), E(!new), A(!new)>(x: Setting<S, C, E, A>, s: System<S, E, A>, step: Rows.Step<C>)
    requires Rows.CountsVersions(x.rules) && Inv(x, s) && Allowed(s, step)
    ensures Inv(x, NextRows(x, s, step))
  {
    var r := NextRows(x, s, step);
    Rows.InvStep(x.rules, s.rows, step);
    RowPartsFit(x, s, step);
    Rows.StepOnlyAdds(x.rules, s.rows, step);
    forall t | 0 <= t < |r.parts|
      ensures PhaseFits(x, r, t) && Accounted(r, t)
    {
      RowThreadStays(x, s, step, t);
    }
    forall k | 0 <= k < |r.keys.log| && r.keys.log[k].Executed?
      ensures Committed(x, r, k)
    {
      CommittedStays(x, s, r, k);
    }
  }

  // ----- Moves -----

  lemma AbortKeeps<S(!new), C(!new), E(!new), A(!new)>(x: Setting<S, C, E, A>, s: System<S, E, A>, t: nat)
    requires Rows.CountsVersions(x.rules) && Inv(x, s) && t < |s.keys.txs| && !s.keys.txs[t].phase.Closed?
    ensures Inv(x, AbortBoth(x, s, t))
  {
    var u := NextKeys(x, s, Keys.Step.Abort(t));
    KeyKeeps(x, s, Keys.Step.Abort(t));
    if s.parts[t].Some? {
      RowKeeps(x, u, Rows.Step.Abort(s.parts[t].value));
    }
  }

  /** A part that was just opened is its transaction's own and has committed nothing. */
  lemma OpenThread<S(!new), C(!new), E(!new), A(!new)>(x: Setting<S, C, E, A>, m: System<S, E, A>, r: System<S, E, A>, t: nat, part: nat, u: nat)
    requires Bound(x, m) && t < |m.parts| && m.parts[t].None? && m.keys.txs[t].phase.Claimed? && u < |m.parts|
    requires r == m.(parts := m.parts[t := Some(part)]) && PartsFit(r) && !RowFrame.CommittedBy(m.rows.outbox, part)
    ensures PhaseFits(x, r, u) && Accounted(r, u)
  {
    assert PhaseFits(x, m, u) && Accounted(m, u);
    if u != t {
      PhaseStays(x, m, r, u);
      AccountedStays(m, r, u);
    }
  }

  lemma OpenKeeps<S(!new), C(!new), E(!new), A(!new)>(x: Setting<S, C, E, A>, s: System<S, E, A>, t: nat)
    requires Rows.CountsVersions(x.rules) && Inv(x, s) && t < |s.keys.txs| && s.keys.txs[t].phase.Claimed? && s.parts[t].None?
    ensures Inv(x, Next(x, s, Move.Open(t)))
  {
    var m, r := NextRows(x, s, Rows.Step.Begin), Next(x, s, Move.Open(t));
    var part := |s.rows.txs|;
    RowKeeps(x, s, Rows.Step.Begin);
    assert r == m.(parts := m.parts[t := Some(part)]) && PartsFit(r);
    assert !RowFrame.CommittedBy(m.rows.outbox, part) by {
      assert forall i :: 0 <= i < |s.rows.outbox| ==> s.rows.outbox[i].tx < part;
    }
    forall u | 0 <= u < |r.parts|
      ensures PhaseFits(x, r, u) && Accounted(r, u)
    {
      OpenThread(x, m, r, t, part, u);
    }
    forall k | 0 <= k < |r.keys.log| && r.keys.log[k].Executed?
      ensures Committed(x, r, k)
    {
      CommittedStays(x, m, r, k);
    }
  }

  lemma RespondKeeps<S(!new), C(!new), E(!new), A(!new)>(x: Setting<S, C, E, A>, s: System<S, E, A>, t: nat)
    requires Rows.CountsVersions(x.rules) && Inv(x, s) && Ready(s, t) && s.keys.txs[t].phase.Claimed?
    ensures Inv(x, Next(x, s, Move.Respond(t)))
  {
    if Keys.ValidResponse(ResponseOf(x, s, t)) {
      KeyKeeps(x, s, Keys.Step.Work(t, Some(ResponseOf(x, s, t))));
    } else {
      AbortKeeps(x, s, t);
    }
  }

  lemma CompleteKeeps<S(!new), C(!new), E(!new), A(!new)>(x: Setting<S, C, E, A>, s: System<S, E, A>, t: nat)
    requires Rows.CountsVersions(x.rules) && Inv(x, s) && t < |s.keys.txs| && s.keys.txs[t].phase.Worked?
    ensures Inv(x, Next(x, s, Move.Complete(t)))
  {
    assert PhaseFits(x, s, t);
    if Keys.OwnsProcessing(s.keys, t) {
      KeyKeeps(x, s, Keys.Step.Complete(t));
    } else {
      AbortKeeps(x, s, t);
    }
  }

  /** Both parts commit. */
  predicate BothCommit<S(==), C, E(==), A(==)>(x: Setting<S, C, E, A>, s: System<S, E, A>, r: System<S, E, A>, t: nat)
    requires |s.parts| == |s.keys.txs|
  {
    && Ready(s, t) && s.keys.txs[t].phase.Completed? && PhaseFits(x, s, t)
    && KeyFrame.Written(s.keys, t).Some? && KeyFrame.Written(s.keys, t).value.response.Some?
    && r == System(Keys.Next(s.keys, x.retention, Keys.Step.Commit(t)), Rows.Next(x.rules, s.rows, Rows.Step.Commit(s.parts[t].value)), s.parts)
  }

  lemma CommitThread<S(!new), C(!new), E(!new), A(!new)>(x: Setting<S, C, E, A>, s: System<S, E, A>, r: System<S, E, A>, t: nat, u: nat)
    requires Rows.CountsVersions(x.rules) && Inv(x, s) && |s.parts| == |s.keys.txs| && BothCommit(x, s, r, t) && PartsFit(r) && u < |s.parts|
    ensures PhaseFits(x, r, u) && Accounted(r, u)
  {
    assert PhaseFits(x, s, u) && Accounted(s, u);
    if u == t {
      assert ExecutedBy(r.keys.log, t, |s.keys.log|);
    } else {
      KeyFrame.ForeignStepKeeps(s.keys, x.retention, Keys.Step.Commit(t), u);
      CommitWritten(s.keys, x.retention, t, u);
      if s.parts[u].Some? {
        RowStepFrame(x.rules, s.rows, Rows.Step.Commit(s.parts[t].value), s.parts[u].value);
      }
      PhaseStays(x, s, r, u);
      AccountedStays(s, r, u);
    }
  }

  lemma CommitWritten(s: Keys.Store, retention: nat, t: nat, u: nat)
    requires t != u && KeyFrame.Written(s, t).Some?
    ensures KeyFrame.Written(Keys.Next(s, retention, Keys.Step.Commit(t)), u) == KeyFrame.Written(s, u)
  {
  }

  lemma CommitTells<S(!new), C(!new), E(!new), A(!new)>(x: Setting<S, C, E, A>, s: System<S, E, A>, r: System<S, E, A>, t: nat)
    requires Inv(x, s) && |s.parts| == |s.keys.txs| && BothCommit(x, s, r, t)
    ensures |r.keys.log| == |s.keys.log| + 1 && r.keys.log[|s.keys.log|].Executed? && Committed(x, r, |s.keys.log|)
  {
    var part := s.parts[t].value;
    assert Rows.TransactionHolds(x.rules, s.rows, part);
    assert Tells(x, r.rows, part, r.keys.log[|s.keys.log|].response, |s.rows.outbox|);
  }

  lemma CommitKeeps<S(!new), C(!new), E(!new), A(!new)>(x: Setting<S, C, E, A>, s: System<S, E, A>, r: System<S, E, A>, t: nat)
    requires Rows.CountsVersions(x.rules) && Inv(x, s) && |s.parts| == |s.keys.txs| && BothCommit(x, s, r, t)
    ensures Inv(x, r)
  {
    Keys.InvStep(s.keys, x.retention, Keys.Step.Commit(t));
    Rows.InvStep(x.rules, s.rows, Rows.Step.Commit(s.parts[t].value));
    Rows.StepOnlyAdds(x.rules, s.rows, Rows.Step.Commit(s.parts[t].value));
    assert PartsFit(r);
    forall u | 0 <= u < |r.parts|
      ensures PhaseFits(x, r, u) && Accounted(r, u)
    {
      CommitThread(x, s, r, t, u);
    }
    forall k | 0 <= k < |r.keys.log| && r.keys.log[k].Executed?
      ensures Committed(x, r, k)
    {
      if k < |s.keys.log| {
        CommittedStays(x, s, r, k);
      } else {
        CommitTells(x, s, r, t);
      }
    }
  }

  lemma KeyMoveKeeps<S(!new), C(!new), E(!new), A(!new)>(x: Setting<S, C, E, A>, s: System<S, E, A>, step: Keys.Step)
    requires Inv(x, s) && (step.Insert? || step.Replace? || step.Read? || step.Answer?)
    ensures Inv(x, NextKeys(x, s, step))
  {
    if step.tx < |s.parts| {
      assert PhaseFits(x, s, step.tx);
    }
    KeyKeeps(x, s, step);
  }

  /** Every move of every interleaving keeps both invariants and the bond between them. */
  lemma InvStep<S(!new), C(!new), E(!new), A(!new)>(x: Setting<S, C, E, A>, s: System<S, E, A>, move: Move<C>)
    requires Rows.CountsVersions(x.rules) && Inv(x, s)
    ensures Inv(x, Next(x, s, move))
  {
    var r := Next(x, s, move);
    if r != s {
      match move
      case OnKey(step) => if step.Begin? { KeyBeginKeeps(x, s, step); } else { KeyMoveKeeps(x, s, step); }
      case Open(t) => OpenKeeps(x, s, t);
      case OnRow(step) => RowKeeps(x, s, step);
      case Respond(t) => RespondKeeps(x, s, t);
      case Complete(t) => CompleteKeeps(x, s, t);
      case Commit(t) => CommitKeeps(x, s, r, t);
      case Abort(t) => AbortKeeps(x, s, t);
    }
  }

  // ----- The main results, for every run -----

  lemma {:induction false} InvAlways<S(!new), C(!new), E(!new), A(!new)>(x: Setting<S, C, E, A>, moves: seq<Move<C>>)
    requires Rows.CountsVersions(x.rules)
    ensures Inv(x, Run(x, moves))
  {
    if moves != [] {
      InvAlways(x, moves[..|moves| - 1]);
      InvStep(x, Run(x, moves[..|moves| - 1]), moves[|moves| - 1]);
    }
  }

  /** The event at `i` was committed by transaction `t` of the key. */
  predicate CommittedUnder<S, E, A>(s: System<S, E, A>, t: nat, i: nat) {
    t < |s.parts| && t < |s.keys.txs| && i < |s.rows.outbox| && s.parts[t] == Some(s.rows.outbox[i].tx)
  }

  /** The version an execution committed. */
  lemma VersionOf<S(!new), C(!new), E(!new), A(!new)>(x: Setting<S, C, E, A>, s: System<S, E, A>, k: nat) returns (i: nat)
    requires Inv(x, s) && k < |s.keys.log| && s.keys.log[k].Executed?
    ensures CommittedUnder(s, s.keys.log[k].tx, i) && i < |s.rows.history|
    ensures x.response(s.rows.history[i]) == s.keys.log[k].response
    ensures s.keys.log[k].now == s.keys.txs[s.keys.log[k].tx].now && s.keys.log[k].hash == s.keys.txs[s.keys.log[k].tx].hash
  {
    assert Committed(x, s, k);
    i :| Tells(x, s.rows, s.parts[s.keys.log[k].tx].value, s.keys.log[k].response, i);
  }

  lemma OneEventEach<S, E, A>(s: System<S, E, A>, i: nat, j: nat)
    requires Rows.Authored(s.rows) && i < |s.rows.outbox| && j < |s.rows.outbox| && s.rows.outbox[i].tx == s.rows.outbox[j].tx
    ensures i == j
  {
  }

  lemma ExecutionOf<S(!new), C(!new), E(!new), A(!new)>(x: Setting<S, C, E, A>, s: System<S, E, A>, t: nat, i: nat) returns (k: nat)
    requires Inv(x, s) && CommittedUnder(s, t, i)
    ensures ExecutedBy(s.keys.log, t, k) && s.keys.log[k].now == s.keys.txs[t].now
  {
    assert RowFrame.CommittedBy(s.rows.outbox, s.parts[t].value) && Accounted(s, t);
    k :| ExecutedBy(s.keys.log, t, k);
    assert Committed(x, s, k);
  }

  ghost predicate HasCommitted<S, E, A>(s: System<S, E, A>, t: nat) {
    exists i: nat :: CommittedUnder(s, t, i)
  }

  ghost predicate HasExecuted<S, E, A>(s: System<S, E, A>, t: nat) {
    exists k: nat :: ExecutedBy(s.keys.log, t, k)
  }

  /** A transaction under the key commits a version on the rows if and only if it is an execution of the key. */
  lemma CommitTogether<S(!new), C(!new), E(!new), A(!new)>(x: Setting<S, C, E, A>, moves: seq<Move<C>>, t: nat)
    requires Rows.CountsVersions(x.rules)
    ensures HasCommitted(Run(x, moves), t) <==> HasExecuted(Run(x, moves), t)
  {
    InvAlways(x, moves);
    var s := Run(x, moves);
    if HasCommitted(s, t) {
      var i: nat :| CommittedUnder(s, t, i);
      var k := ExecutionOf(x, s, t, i);
    }
    if HasExecuted(s, t) {
      var k: nat :| ExecutedBy(s.keys.log, t, k);
      var i := VersionOf(x, s, k);
    }
  }

  /** The response of every execution tells the version its transaction committed. */
  lemma ResponsesTellVersions<S(!new), C(!new), E(!new), A(!new)>(x: Setting<S, C, E, A>, moves: seq<Move<C>>, k: nat) returns (i: nat)
    requires Rows.CountsVersions(x.rules) && k < |Run(x, moves).keys.log| && Run(x, moves).keys.log[k].Executed?
    ensures var s := Run(x, moves);
      CommittedUnder(s, s.keys.log[k].tx, i) && i < |s.rows.history| && s.keys.log[k].response == x.response(s.rows.history[i])
  {
    InvAlways(x, moves);
    i := VersionOf(x, Run(x, moves), k);
  }

  /** Of the commands under one key whose clocks lie within one retention, at most one commits a version. */
  lemma OneVersionPerRetention<S(!new), C(!new), E(!new), A(!new)>(x: Setting<S, C, E, A>, moves: seq<Move<C>>, t: nat, i: nat, u: nat, j: nat, from: int)
    requires Rows.CountsVersions(x.rules) && CommittedUnder(Run(x, moves), t, i) && CommittedUnder(Run(x, moves), u, j)
    requires from <= Run(x, moves).keys.txs[t].now < from + x.retention && from <= Run(x, moves).keys.txs[u].now < from + x.retention
    ensures i == j && t == u
  {
    InvAlways(x, moves);
    var s := Run(x, moves);
    var k := ExecutionOf(x, s, t, i);
    var l := ExecutionOf(x, s, u, j);
    assert k == l;
    OneEventEach(s, i, j);
  }

  /** A replay answers with the version committed by an earlier command under the same key, for the same request, within its retention. */
  lemma ReplaysTellTheVersion<S(!new), C(!new), E(!new), A(!new)>(x: Setting<S, C, E, A>, moves: seq<Move<C>>, k: nat) returns (t: nat, i: nat)
    requires Rows.CountsVersions(x.rules) && k < |Run(x, moves).keys.log| && Run(x, moves).keys.log[k].Replayed?
    ensures var s := Run(x, moves);
      && CommittedUnder(s, t, i) && i < |s.rows.history| && s.keys.log[k].response == x.response(s.rows.history[i])
      && s.keys.log[k].hash == s.keys.txs[t].hash && s.keys.log[k].now < s.keys.txs[t].now + x.retention
  {
    InvAlways(x, moves);
    var s := Run(x, moves);
    var e := Keys.ReplayIsStored(s.keys, x.retention, k);
    t := s.keys.log[e].tx;
    i := VersionOf(x, s, e);
  }

  /** For tenants: a replayed command returns the snapshot that one committed event announces. */
  lemma ReplayedTenantWasAnnounced(x: Setting<Tenant.Snapshot, Tenant.Command, Tenant.Envelope, Tenant.Fact>,
                                   moves: seq<Move<Tenant.Command>>, k: nat) returns (t: nat, i: nat)
    requires x.rules == Tenant.TenantRules() && k < |Run(x, moves).keys.log| && Run(x, moves).keys.log[k].Replayed?
    ensures var s := Run(x, moves);
      && CommittedUnder(s, t, i) && i < |s.rows.history| && s.keys.log[k].response == x.response(s.rows.history[i])
      && Tenant.Announces(s.rows.outbox[i].event, s.rows.history[i])
  {
    Tenant.TenantsCountVersions();
    t, i := ReplaysTellTheVersion(x, moves, k);
    InvAlways(x, moves);
    Tenant.TellsAt(Run(x, moves).rows, i);
  }

  // ----- A command that nothing hinders takes effect -----

  function Then<S, C, E, A>(x: Setting<S, C, E, A>, s: System<S, E, A>, moves: seq<Move<C>>): System<S, E, A> {
    if moves == [] then s else Next(x, Then(x, s, moves[..|moves| - 1]), moves[|moves| - 1])
  }

  ghost predicate Reaches<S(!new), C(!new), E(!new), A(!new)>(x: Setting<S, C, E, A>, s: System<S, E, A>, r: System<S, E, A>) {
    exists moves :: r == Then(x, s, moves)
  }

  lemma ReachesItself<S(!new), C(!new), E(!new), A(!new)>(x: Setting<S, C, E, A>, s: System<S, E, A>)
    ensures Reaches(x, s, s)
  {
    assert s == Then(x, s, []);
  }

  lemma ReachesNext<S(!new), C(!new), E(!new), A(!new)>(x: Setting<S, C, E, A>, s: System<S, E, A>, r: System<S, E, A>, move: Move<C>)
    requires Reaches(x, s, r)
    ensures Reaches(x, s, Next(x, r, move))
  {
    var moves :| r == Then(x, s, moves);
    assert (moves + [move])[..|moves|] == moves;
    assert Next(x, r, move) == Then(x, s, moves + [move]);
  }

  /** The key is free at this time: nobody holds its record, and what is committed has expired. */
  predicate KeyFree<S, E, A>(s: System<S, E, A>, now: int) {
    && |s.parts| == |s.keys.txs|
    && s.keys.pending.None? && (s.keys.committed.Some? ==> s.keys.committed.value.expiresAt <= now)
  }

  /** A new transaction has claimed the key and opened its part on the rows. */
  predicate Opened<S(==), C, E(==), A(==)>(x: Setting<S, C, E, A>, s: System<S, E, A>, r: System<S, E, A>, now: int, hash: Text) {
    var t, p := |s.keys.txs|, |s.rows.txs|;
    && r.parts == s.parts + [Some(p)]
    && r.keys == s.keys.(txs := s.keys.txs + [Keys.Transaction(now, hash, Keys.Claimed)],
                         pending := Some(Keys.Pending(t, Keys.Record(hash, None, now, now + x.retention))))
    && r.rows == s.rows.(txs := s.rows.txs + [Rows.Running])
  }

  lemma KeyClaimed(s: Keys.Store, retention: nat, now: int, hash: Text) returns (r: Keys.Store)
    requires s.pending.None? && (s.committed.Some? ==> s.committed.value.expiresAt <= now)
    ensures var t := |s.txs|;
      r == Keys.Next(Keys.Next(Keys.Next(s, retention, Keys.Step.Begin(now, hash)), retention, Keys.Step.Insert(t)), retention, Keys.Step.Replace(t))
    ensures r == s.(txs := s.txs + [Keys.Transaction(now, hash, Keys.Claimed)],
                    pending := Some(Keys.Pending(|s.txs|, Keys.Record(hash, None, now, now + retention))))
  {
    var t := |s.txs|;
    var a := Keys.Next(s, retention, Keys.Step.Begin(now, hash));
    var b := Keys.Next(a, retention, Keys.Step.Insert(t));
    r := Keys.Next(b, retention, Keys.Step.Replace(t));
    assert r.txs == s.txs + [Keys.Transaction(now, hash, Keys.Claimed)];
  }

  /** Begin, insert, replace, and the part on the rows begins. */
  lemma OpensFree<S(!new), C(!new), E(!new), A(!new)>(x: Setting<S, C, E, A>, s: System<S, E, A>, now: int, hash: Text)
      returns (r: System<S, E, A>)
    requires KeyFree(s, now)
    ensures Reaches(x, s, r) && Opened(x, s, r, now, hash)
  {
    var t := |s.keys.txs|;
    var claimed := KeyClaimed(s.keys, x.retention, now, hash);
    ReachesItself(x, s);
    r := s;
    ReachesNext(x, s, r, OnKey(Keys.Step.Begin(now, hash)));
    r := Next(x, r, OnKey(Keys.Step.Begin(now, hash)));
    ReachesNext(x, s, r, OnKey(Keys.Step.Insert(t)));
    r := Next(x, r, OnKey(Keys.Step.Insert(t)));
    ReachesNext(x, s, r, OnKey(Keys.Step.Replace(t)));
    r := Next(x, r, OnKey(Keys.Step.Replace(t)));
    ReachesNext(x, s, r, Open(t));
    r := Next(x, r, Open(t));
    assert r.parts == s.parts + [Some(|s.rows.txs|)];
  }

  /** The rows after load, decision, update, audit fact and event of transaction `p`. */
  function RecordedRows<S, E, A>(rows: Rows.Store<S, E, A>, p: nat, d: Rows.Decision<S, E, A>): Rows.Store<S, E, A>
    requires p < |rows.txs|
  {
    rows.(txs := rows.txs[p := Rows.Recorded(d, d.fact, rows.nextSequence, d.event)], writer := Some(p), nextSequence := rows.nextSequence + 1)
  }

  lemma RowsRecorded<S(!new), C(!new), E(!new), A(!new)>(rules: Rows.Rules<S, C, E, A>, s: Rows.Store<S, E, A>, p: nat, c: C, d: Rows.Decision<S, E, A>)
    requires p < |s.txs| && s.txs[p].Running? && s.writer.None? && s.committed.Some?
    requires rules.apply(Some(s.committed.value), c) == Some(d)
    ensures var loaded := Rows.Next(rules, s, Rows.Step.Load(p));
      var decided := Rows.Next(rules, loaded, Rows.Step.Decide(p, c));
      var updated := Rows.Next(rules, decided, Rows.Step.Update(p));
      var audited := Rows.Next(rules, updated, Rows.Step.Audit(p));
      Rows.Next(rules, audited, Rows.Step.Append(p)) == RecordedRows(s, p, d)
  {
    var snapshot := s.committed.value;
    var loaded := Rows.Next(rules, s, Rows.Step.Load(p));
    assert loaded == Rows.Put(s, p, Rows.Loaded(snapshot));
    var decided := Rows.Next(rules, loaded, Rows.Step.Decide(p, c));
    assert decided == Rows.Put(s, p, Rows.Decided(snapshot, d));
    var updated := Rows.Next(rules, decided, Rows.Step.Update(p));
    assert updated == Rows.Write(s, p, d);
    var audited := Rows.Next(rules, updated, Rows.Step.Audit(p));
    assert audited == Rows.Put(Rows.Write(s, p, d), p, Rows.Audited(d, d.fact));
  }

  lemma ReachesOnRow<S(!new), C(!new), E(!new), A(!new)>(x: Setting<S, C, E, A>, s: System<S, E, A>, r: System<S, E, A>, step: Rows.Step<C>)
    requires Reaches(x, s, r) && !step.Commit? && !step.Abort?
    ensures Reaches(x, s, NextRows(x, r, step))
  {
    ReachesNext(x, s, r, OnRow(step));
  }

  lemma RecordsOn<S(!new), C(!new), E(!new), A(!new)>(x: Setting<S, C, E, A>, s: System<S, E, A>, o: System<S, E, A>, p: nat, c: C, d: Rows.Decision<S, E, A>)
    requires Reaches(x, s, o) && p < |o.rows.txs| && o.rows.txs[p].Running? && o.rows.writer.None? && o.rows.committed.Some?
    requires x.rules.apply(Some(o.rows.committed.value), c) == Some(d)
    ensures Reaches(x, s, o.(rows := RecordedRows(o.rows, p, d)))
  {
    RowsRecorded(x.rules, o.rows, p, c, d);
    ReachesOnRow(x, s, o, Rows.Step.Load(p));
    var r := NextRows(x, o, Rows.Step.Load(p));
    ReachesOnRow(x, s, r, Rows.Step.Decide(p, c));
    r := NextRows(x, r, Rows.Step.Decide(p, c));
    ReachesOnRow(x, s, r, Rows.Step.Update(p));
    r := NextRows(x, r, Rows.Step.Update(p));
    ReachesOnRow(x, s, r, Rows.Step.Audit(p));
    r := NextRows(x, r, Rows.Step.Audit(p));
    ReachesOnRow(x, s, r, Rows.Step.Append(p));
  }

  /** Everything of the command is committed: row, history, fact, event, and the key's record with its response. */
  predicate TookEffect<S(==), C, E(==), A(==)>(x: Setting<S, C, E, A>, s: System<S, E, A>, r: System<S, E, A>, now: int, hash: Text, d: Rows.Decision<S, E, A>) {
    && r.rows.committed == Some(d.next) && r.rows.history == s.rows.history + [d.next]
    && r.rows.audit == s.rows.audit + [d.fact]
    && r.rows.outbox == s.rows.outbox + [Rows.Event(s.rows.nextSequence, |s.rows.txs|, d.event)]
    && r.keys.committed == Some(Keys.Record(hash, Some(x.response(d.next)), now, now + x.retention))
    && r.keys.log == s.keys.log + [Keys.Executed(|s.keys.txs|, now, hash, x.response(d.next))]
    && r.rows.writer.None? && r.keys.pending.None?
  }

  lemma KeyCompleted(k: Keys.Store, retention: nat, t: nat, response: Keys.Response)
    requires t < |k.txs| && k.txs[t].phase.Claimed? && Keys.Storable(response)
    requires k.pending.Some? && k.pending.value.tx == t && k.pending.value.record.response.None?
    ensures var worked := Keys.Next(k, retention, Keys.Step.Work(t, Some(response)));
      && worked == Keys.SetPhase(k, t, Keys.Worked(response))
      && Keys.Next(worked, retention, Keys.Step.Complete(t)) ==
         Keys.SetPhase(k, t, Keys.Completed).(pending := Some(Keys.Pending(t, k.pending.value.record.(response := Some(response)))))
  {
    Keys.StorableResponses(response);
  }

  /** Response, completion and commit of a transaction whose part has recorded its change. */
  lemma FinishesOn<S(!new), C(!new), E(!new), A(!new)>(x: Setting<S, C, E, A>, s: System<S, E, A>, o: System<S, E, A>, t: nat, p: nat, d: Rows.Decision<S, E, A>)
      returns (r: System<S, E, A>)
    requires Reaches(x, s, o) && t < |o.parts| && t < |o.keys.txs| && o.parts[t] == Some(p) && p < |o.rows.txs| && o.rows.txs[p].Recorded?
    requires o.rows.txs[p].decision == d && o.keys.txs[t].phase.Claimed? && Keys.Storable(x.response(d.next))
    requires o.keys.pending.Some? && o.keys.pending.value.tx == t && o.keys.pending.value.record.response.None?
    ensures Reaches(x, s, r)
    ensures r.rows == Rows.Next(x.rules, o.rows, Rows.Step.Commit(p))
    ensures r.keys.committed == Some(o.keys.pending.value.record.(response := Some(x.response(d.next)))) && r.keys.pending.None?
    ensures r.keys.log == o.keys.log + [Keys.Executed(t, o.keys.txs[t].now, o.keys.txs[t].hash, x.response(d.next))]
  {
    var response := x.response(d.next);
    Keys.StorableResponses(response);
    KeyCompleted(o.keys, x.retention, t, response);
    ReachesNext(x, s, o, Respond(t));
    var responded := Next(x, o, Respond(t));
    assert responded == o.(keys := Keys.SetPhase(o.keys, t, Keys.Worked(response)));
    ReachesNext(x, s, responded, Complete(t));
    var completed := Next(x, responded, Complete(t));
    ReachesNext(x, s, completed, Commit(t));
    r := Next(x, completed, Commit(t));
  }

  /**
   From any state in which the key is free and nobody writes the row, a command that the rules accept
   and whose response can be stored commits the row, its fact, its event and its response together.
   */
  lemma FreeCommandTakesEffect<S(!new), C(!new), E(!new), A(!new)>(x: Setting<S, C, E, A>, s: System<S, E, A>, now: int, hash: Text, c: C, d: Rows.Decision<S, E, A>)
      returns (r: System<S, E, A>)
    requires KeyFree(s, now) && s.rows.writer.None? && s.rows.committed.Some?
    requires x.rules.apply(Some(s.rows.committed.value), c) == Some(d) && Keys.Storable(x.response(d.next))
    ensures Reaches(x, s, r) && TookEffect(x, s, r, now, hash, d)
  {
    var t, p := |s.keys.txs|, |s.rows.txs|;
    var o := OpensFree(x, s, now, hash);
    RecordsOn(x, s, o, p, c, d);
    r := FinishesOn(x, s, o.(rows := RecordedRows(o.rows, p, d)), t, p, d);
  }
}
