/**
 Progress of the dispatcher: a pass alone on the queue, past all deadlines and with a publisher that
 succeeds, settles exactly one entry of every stream it can reach, so repeated passes leave only
 entries behind a dead letter.
 */
module Drain {
  import opened Wrappers
  import opened Outbox
  import opened OutboxStore
  import opened Counting

  const QUIET := Turn([], Succeeded, [], 0)

  function QuietTurns(n: nat): Turn { QUIET }

  /** The queue after an undisturbed pass. */
  function SoloPass(q: Queue, max: nat, lease: Step): Queue
    requires lease.Lease?
  {
    Exec(q, max, PassTrace(q, lease, max, QuietTurns))
  }

  function LeaseGrants(q: Queue, lease: Step): (granted: seq<nat>)
    requires lease.Lease?
    ensures forall k :: 0 <= k < |granted| ==> granted[k] < |q.rows|
  {
    Grants(q.rows, lease.scope, lease.now, lease.locked, lease.limit, 0)
  }

  /** A granted row after the pass: given up beyond the attempt limit, otherwise published. */
  function SettledRow(row: Row, max: nat): Row {
    row.(status := if row.attempts + 1 > max then Dead else Done, attempts := row.attempts + 1)
  }

  /** A pass under way: the table and the grants at its start, its tasks from `lo` on. */
  datatype Pass = Pass(rows: seq<Row>, granted: seq<nat>, tasks: seq<Task>, lo: nat, max: nat, worker: string, expiresAt: int)

  function PassOf(q: Queue, max: nat, lease: Step, leased: Queue): Pass
    requires lease.Lease?
  {
    Pass(q.rows, LeaseGrants(q, lease), leased.tasks, |q.tasks|, max, lease.worker, lease.now + lease.leaseSeconds)
  }

  /** Each grant has its task, as leased. */
  predicate Fits(pass: Pass) {
    && |pass.tasks| == pass.lo + |pass.granted|
    && (forall k :: 0 <= k < |pass.granted| ==> pass.granted[k] < |pass.rows|)
    && (forall k, m :: 0 <= k < m < |pass.granted| ==> pass.granted[k] != pass.granted[m])
    && (forall t :: pass.lo <= t < |pass.tasks| ==>
          var e := pass.granted[t - pass.lo];
          && pass.tasks[t].phase.Granted? && pass.tasks[t].entry == e && pass.tasks[t].worker == pass.worker
          && pass.tasks[t].scope == pass.rows[e].consumer && pass.tasks[t].attempts == pass.rows[e].attempts + 1)
  }

  /** A row when the first `n` granted entries are settled and the others are still leased. */
  function PartRow(pass: Pass, n: nat, i: nat): Row
    requires n <= |pass.granted| && i < |pass.rows|
  {
    if i in pass.granted[..n] then SettledRow(pass.rows[i], pass.max)
    else if i in pass.granted then LeasedRow(pass.rows[i], pass.worker, pass.expiresAt)
    else pass.rows[i]
  }

  /** The pass has processed its first `n` tasks. */
  predicate PassedTo(pass: Pass, n: nat, r: Queue) {
    && n <= |pass.granted| && |r.rows| == |pass.rows| && |r.tasks| == |pass.tasks|
    && (forall i :: 0 <= i < |r.rows| ==> r.rows[i] == PartRow(pass, n, i))
    && (forall t :: pass.lo + n <= t < |r.tasks| ==> r.tasks[t] == pass.tasks[t])
  }

  /** Grant `k` of the lease has become a task. */
  predicate TaskOf(q: Queue, lease: Step, granted: seq<nat>, leased: Queue, k: nat)
    requires lease.Lease?
  {
    && k < |granted| && granted[k] < |q.rows| && |q.tasks| + k < |leased.tasks|
    && var task := leased.tasks[|q.tasks| + k];
    && task.phase.Granted? && task.entry == granted[k] && task.worker == lease.worker
    && task.scope == q.rows[granted[k]].consumer && task.attempts == q.rows[granted[k]].attempts + 1
  }

  lemma LeaseTask(q: Queue, lease: Step, granted: seq<nat>, k: nat)
    requires lease.Lease? && k < |granted| && forall m :: 0 <= m < |granted| ==> granted[m] < |q.rows|
    requires q.rows[granted[k]].consumer == lease.scope
    ensures TaskOf(q, lease, granted, LeaseNext(q, lease.scope, lease.worker, granted, lease.now + lease.leaseSeconds), k)
  {
  }

  lemma PassFits(q: Queue, max: nat, lease: Step, leased: Queue)
    requires lease.Lease? && |leased.tasks| == |q.tasks| + |LeaseGrants(q, lease)|
    requires forall k :: 0 <= k < |LeaseGrants(q, lease)| ==> TaskOf(q, lease, LeaseGrants(q, lease), leased, k)
    ensures Fits(PassOf(q, max, lease, leased))
  {
    var pass := PassOf(q, max, lease, leased);
    forall t | pass.lo <= t < |pass.tasks|
      ensures var e := pass.granted[t - pass.lo];
        && pass.tasks[t].phase.Granted? && pass.tasks[t].entry == e && pass.tasks[t].worker == pass.worker
        && pass.tasks[t].scope == pass.rows[e].consumer && pass.tasks[t].attempts == pass.rows[e].attempts + 1
    {
      assert TaskOf(q, lease, LeaseGrants(q, lease), leased, t - pass.lo);
    }
  }

  lemma PassStarts(pass: Pass, leased: Queue)
    requires forall k :: 0 <= k < |pass.granted| ==> pass.granted[k] < |pass.rows|
    requires leased.rows == LeaseRows(pass.rows, pass.granted, pass.worker, pass.expiresAt) && leased.tasks == pass.tasks
    ensures PassedTo(pass, 0, leased)
  {
    assert pass.granted[..0] == [];
  }

  /** One undisturbed task whose entry is still held records its outcome. */
  lemma QuietOutcome(r: Queue, max: nat, t: nat, s: Queue)
    requires InPhase(r, t, Granted) && Held(r.rows, r.tasks[t].scope, r.tasks[t].entry, r.tasks[t].worker)
    requires s == Exec(r, max, TaskTrace(t, r.tasks[t].attempts, max, QUIET))
    ensures var e := r.tasks[t].entry;
      && s.rows == r.rows[e := r.rows[e].(status := if r.tasks[t].attempts > max then Dead else Done)]
      && |s.tasks| == |r.tasks| && s.tasks == r.tasks[t := s.tasks[t]]
  {
    TaskTraceUnfolds(r, t, r.tasks[t].attempts, max, QUIET);
    if r.tasks[t].attempts <= max {
      var handed := Next(r, max, HandOver(t, true, true));
      assert Exec(handed, max, []) == handed;
    }
  }

  /** The next task to process is granted and its entry is still held. */
  lemma TaskReady(pass: Pass, n: nat, r: Queue)
    requires Fits(pass) && n < |pass.granted| && PassedTo(pass, n, r)
    ensures var t := pass.lo + n; var e := pass.granted[n];
      && InPhase(r, t, Granted) && r.tasks[t] == pass.tasks[t] && r.tasks[t].entry == e
      && r.rows[e] == LeasedRow(pass.rows[e], pass.worker, pass.expiresAt)
      && Held(r.rows, r.tasks[t].scope, e, r.tasks[t].worker)
  {
    assert pass.granted[n] in pass.granted && pass.granted[n] !in pass.granted[..n];
  }

  lemma PassedNext(pass: Pass, n: nat, r: Queue, s: Queue)
    requires Fits(pass) && n < |pass.granted| && PassedTo(pass, n, r)
    requires var e := pass.granted[n];
      && s.rows == r.rows[e := r.rows[e].(status := if pass.rows[e].attempts + 1 > pass.max then Dead else Done)]
      && |s.tasks| == |r.tasks| && s.tasks == r.tasks[pass.lo + n := s.tasks[pass.lo + n]]
    ensures PassedTo(pass, n + 1, s)
  {
    TaskReady(pass, n, r);
    assert pass.granted[..n + 1] == pass.granted[..n] + [pass.granted[n]];
  }

  lemma QuietTask(pass: Pass, n: nat, r: Queue, done: seq<Step>, start: Queue, last: seq<Step>) returns (s: Queue)
    requires Fits(pass) && n < |pass.granted| && PassedTo(pass, n, r) && Leads(start, pass.max, done, r)
    requires last == TaskTrace(pass.lo + n, pass.tasks[pass.lo + n].attempts, pass.max, QUIET)
    ensures PassedTo(pass, n + 1, s) && Leads(start, pass.max, done + last, s)
  {
    s := Exec(r, pass.max, last);
    ExecLeads(r, pass.max, last);
    LeadsOn(start, pass.max, done, r, last, s);
    TaskReady(pass, n, r);
    QuietOutcome(r, pass.max, pass.lo + n, s);
    PassedNext(pass, n, r, s);
  }

  /** The trace of the pass's first `n` tasks. */
  function QuietTrace(pass: Pass, n: nat): seq<Step>
    requires pass.lo + n <= |pass.tasks|
  {
    RunTrace(pass.tasks, pass.lo, n, pass.max, QuietTurns)
  }

  lemma QuietTraceNext(pass: Pass, n: nat, last: seq<Step>)
    requires pass.lo + n < |pass.tasks| && last == TaskTrace(pass.lo + n, pass.tasks[pass.lo + n].attempts, pass.max, QUIET)
    ensures QuietTrace(pass, n + 1) == QuietTrace(pass, n) + last
  {
  }

  /** The first `n` tasks of the pass lead to `r` and are settled there. */
  ghost predicate Quieted(pass: Pass, start: Queue, n: nat, r: Queue)
    requires pass.lo + n <= |pass.tasks|
  {
    PassedTo(pass, n, r) && Leads(start, pass.max, QuietTrace(pass, n), r)
  }

  /** The first `n` tasks can be processed without disturbance. */
  ghost predicate CanQuiet(pass: Pass, start: Queue, n: nat)
    requires pass.lo + n <= |pass.tasks|
  {
    exists r :: Quieted(pass, start, n, r)
  }

  lemma QuietedNext(pass: Pass, start: Queue, n: nat)
    requires Fits(pass) && n < |pass.granted| && CanQuiet(pass, start, n)
    ensures CanQuiet(pass, start, n + 1)
  {
    var m :| Quieted(pass, start, n, m);
    var last := TaskTrace(pass.lo + n, pass.tasks[pass.lo + n].attempts, pass.max, QUIET);
    var r := QuietTask(pass, n, m, QuietTrace(pass, n), start, last);
    QuietTraceNext(pass, n, last);
    assert Quieted(pass, start, n + 1, r);
  }

  lemma QuietedNone(pass: Pass, start: Queue)
    requires Fits(pass) && PassedTo(pass, 0, start)
    ensures CanQuiet(pass, start, 0)
  {
    LeadsNowhere(start, pass.max);
    assert Quieted(pass, start, 0, start);
  }

  lemma {:induction false} QuietTasks(pass: Pass, start: Queue, n: nat)
    requires Fits(pass) && n <= |pass.granted| && CanQuiet(pass, start, 0)
    ensures CanQuiet(pass, start, n)
    decreases n
  {
    if n > 0 {
      QuietTasks(pass, start, n - 1);
      QuietedNext(pass, start, n - 1);
    }
  }

  /** The granted rows are settled, all others untouched. */
  predicate SettledBy(rows: seq<Row>, granted: seq<nat>, max: nat, after: seq<Row>) {
    && |after| == |rows|
    && forall i :: 0 <= i < |rows| ==> after[i] == if i in granted then SettledRow(rows[i], max) else rows[i]
  }

  lemma LeaseThen(q: Queue, max: nat, lease: Step, leased: Queue, rest: seq<Step>, r: Queue)
    requires lease.Lease? && leased == Next(q, max, lease) && Leads(leased, max, rest, r)
    ensures r == Exec(q, max, [lease] + rest)
  {
    LeadsToExec(leased, max, rest, r);
    StepThen(q, max, lease, rest);
  }

  lemma SoloPassIs(q: Queue, max: nat, lease: Step, trace: seq<Step>, r: Queue)
    requires lease.Lease? && trace == PassTrace(q, lease, max, QuietTurns) && r == Exec(q, max, trace)
    ensures SoloPass(q, max, lease) == r
  {
  }

  /** The lease of a pass has made its tasks. */
  lemma LeaseStarts(q: Queue, max: nat, lease: Step, leased: Queue)
    requires lease.Lease? && leased == Next(q, max, lease)
    ensures Fits(PassOf(q, max, lease, leased)) && PassedTo(PassOf(q, max, lease, leased), 0, leased)
  {
    var granted := LeaseGrants(q, lease);
    forall k | 0 <= k < |granted|
      ensures TaskOf(q, lease, granted, leased, k)
    {
      assert Candidate(q.rows, lease.scope, lease.now, lease.locked, granted[k]);
      LeaseTask(q, lease, granted, k);
    }
    PassFits(q, max, lease, leased);
    PassStarts(PassOf(q, max, lease, leased), leased);
  }

  /** A pass over the tasks of its lease settles the rows granted. */
  lemma QuietPass(pass: Pass, leased: Queue) returns (r: Queue)
    requires Fits(pass) && PassedTo(pass, 0, leased)
    ensures Quieted(pass, leased, |pass.granted|, r) && SettledBy(pass.rows, pass.granted, pass.max, r.rows)
  {
    QuietedNone(pass, leased);
    QuietTasks(pass, leased, |pass.granted|);
    r :| Quieted(pass, leased, |pass.granted|, r);
    AllSettled(pass, r);
  }

  /** The whole effect of an undisturbed pass on the table. */
  lemma SoloPassRows(q: Queue, max: nat, lease: Step)
    requires lease.Lease?
    ensures SettledBy(q.rows, LeaseGrants(q, lease), max, SoloPass(q, max, lease).rows)
  {
    var leased := Next(q, max, lease);
    var pass := PassOf(q, max, lease, leased);
    LeaseStarts(q, max, lease, leased);
    var r := QuietPass(pass, leased);
    var rest := QuietTrace(pass, |pass.granted|);
    assert LeasedTrace(|q.tasks|, lease, leased, max, QuietTurns) == [lease] + rest;
    LeaseThen(q, max, lease, leased, rest, r);
    SoloPassIs(q, max, lease, [lease] + rest, r);
  }

  lemma AllSettled(pass: Pass, r: Queue)
    requires PassedTo(pass, |pass.granted|, r)
    ensures SettledBy(pass.rows, pass.granted, pass.max, r.rows)
  {
    assert pass.granted[..|pass.granted|] == pass.granted;
  }

  // ----- How much a pass settles -----

  /** Work left in the scope: its pending and leased entries. */
  function OpenEntries(rows: seq<Row>, scope: Option<string>): set<nat> {
    set i: nat | i < |rows| && rows[i].consumer == scope && rows[i].Open()
  }

  /** The heads of the scope's streams that are not dead. */
  function LiveHeads(rows: seq<Row>, scope: Option<string>): set<nat> {
    set i: nat | i < |rows| && rows[i].consumer == scope && rows[i].Open() && Head(rows, i)
  }

  /** The streams whose head is not dead. */
  function LiveStreams(rows: seq<Row>, scope: Option<string>): set<Stream> {
    set i | i in LiveHeads(rows, scope) :: rows[i].Stream()
  }

  predicate PastDeadlines(rows: seq<Row>, scope: Option<string>, now: int) {
    forall i :: 0 <= i < |rows| && rows[i].consumer == scope && rows[i].Open() ==> rows[i].Eligible(now)
  }

  function Min(a: int, b: int): int { if a <= b then a else b }

  function CandidatesFrom(rows: seq<Row>, scope: Option<string>, now: int, from: nat): set<nat> {
    set i: nat | from <= i < |rows| && Candidate(rows, scope, now, {}, i)
  }

  lemma CandidatesNext(rows: seq<Row>, scope: Option<string>, now: int, from: nat)
    requires from <= |rows|
    ensures |CandidatesFrom(rows, scope, now, from)| ==
      if from == |rows| then 0
      else |CandidatesFrom(rows, scope, now, from + 1)| + (if Candidate(rows, scope, now, {}, from) then 1 else 0)
  {
    if from == |rows| {
      assert CandidatesFrom(rows, scope, now, from) == {};
    } else {
      var rest := CandidatesFrom(rows, scope, now, from + 1);
      assert CandidatesFrom(rows, scope, now, from) == if Candidate(rows, scope, now, {}, from) then rest + {from} else rest;
    }
  }

  /** The limit is the only reason to leave a candidate out. */
  lemma {:induction false} GrantsCount(rows: seq<Row>, scope: Option<string>, now: int, limit: nat, from: nat)
    requires from <= |rows|
    ensures |Grants(rows, scope, now, {}, limit, from)| == Min(limit, |CandidatesFrom(rows, scope, now, from)|)
    decreases |rows| - from
  {
    CandidatesNext(rows, scope, now, from);
    if from < |rows| && limit > 0 {
      GrantsCount(rows, scope, now, if Candidate(rows, scope, now, {}, from) then limit - 1 else limit, from + 1);
    }
  }

  lemma OneHead(rows: seq<Row>, i: nat, j: nat)
    requires i < |rows| && j < |rows| && rows[i].Stream() == rows[j].Stream()
    requires Head(rows, i) && Head(rows, j) && !rows[i].Finished() && !rows[j].Finished()
    ensures i == j
  {
  }

  /** Each stream has one head. */
  lemma LiveStreamsCount(rows: seq<Row>, scope: Option<string>)
    ensures |LiveStreams(rows, scope)| == |LiveHeads(rows, scope)|
  {
    var stream := (i: nat) => if i < |rows| then rows[i].Stream() else StreamOf(None, "", "", "");
    var heads := LiveHeads(rows, scope);
    forall i, j | i in heads && j in heads && stream(i) == stream(j)
      ensures i == j
    {
      OneHead(rows, i, j);
    }
    ImageSize(heads, stream);
    assert Image(heads, stream) == LiveStreams(rows, scope);
  }

  function ToSet(s: seq<nat>): (r: set<nat>)
    requires forall k, m :: 0 <= k < m < |s| ==> s[k] < s[m]
    ensures forall x :: x in r <==> x in s
    ensures |r| == |s|
  {
    if s == [] then {}
    else
      assert forall x :: x in s <==> x in s[..|s| - 1] || x == s[|s| - 1];
      ToSet(s[..|s| - 1]) + {s[|s| - 1]}
  }

  lemma GrantedIsOpen(rows: seq<Row>, scope: Option<string>, now: int, granted: seq<nat>, i: nat)
    requires i in granted
    requires forall k :: 0 <= k < |granted| ==> granted[k] < |rows| && Candidate(rows, scope, now, {}, granted[k])
    ensures i in OpenEntries(rows, scope)
  {
  }

  /** The predicate under which the pass is undisturbed. */
  predicate Undisturbed(q: Queue, lease: Step) {
    lease.Lease? && lease.locked == {} && lease.limit >= 0 && PastDeadlines(q.rows, lease.scope, lease.now)
  }

  /** Settling open entries takes exactly them off the open ones. */
  lemma SettledOpen(rows: seq<Row>, granted: seq<nat>, max: nat, after: seq<Row>, scope: Option<string>)
    requires SettledBy(rows, granted, max, after)
    requires forall i :: i in granted ==> i in OpenEntries(rows, scope)
    requires forall k, m :: 0 <= k < m < |granted| ==> granted[k] < granted[m]
    ensures |OpenEntries(after, scope)| == |OpenEntries(rows, scope)| - |granted|
  {
    var open := OpenEntries(rows, scope);
    forall i: nat | i < |rows|
      ensures i in OpenEntries(after, scope) <==> i in open && i !in granted
    {
      assert after[i] == if i in granted then SettledRow(rows[i], max) else rows[i];
    }
    assert OpenEntries(after, scope) == open - ToSet(granted);
  }

  lemma CandidatesAreLiveHeads(rows: seq<Row>, scope: Option<string>, now: int)
    requires PastDeadlines(rows, scope, now)
    ensures CandidatesFrom(rows, scope, now, 0) == LiveHeads(rows, scope)
  {
  }

  /**
   An undisturbed pass lowers the work left by exactly the smaller of the batch size and the number of
   streams whose head is not dead.
   */
  lemma SoloPassDrains(q: Queue, max: nat, lease: Step)
    requires Undisturbed(q, lease)
    ensures |OpenEntries(SoloPass(q, max, lease).rows, lease.scope)|
         == |OpenEntries(q.rows, lease.scope)| - Min(lease.limit, |LiveStreams(q.rows, lease.scope)|)
  {
    var granted := LeaseGrants(q, lease);
    var after := SoloPass(q, max, lease).rows;
    SoloPassRows(q, max, lease);
    forall i | i in granted { GrantedIsOpen(q.rows, lease.scope, lease.now, granted, i); }
    SettledOpen(q.rows, granted, max, after, lease.scope);
    GrantsCount(q.rows, lease.scope, lease.now, lease.limit, 0);
    CandidatesAreLiveHeads(q.rows, lease.scope, lease.now);
    LiveStreamsCount(q.rows, lease.scope);
  }

  lemma UndisturbedStays(q: Queue, max: nat, lease: Step)
    requires Undisturbed(q, lease)
    ensures Undisturbed(SoloPass(q, max, lease), lease)
  {
    SoloPassRows(q, max, lease);
  }

  // ----- Repeated passes -----

  /** The queues before, between and after consecutive undisturbed passes. */
  predicate ConsecutivePasses(max: nat, lease: Step, queues: seq<Queue>)
    requires lease.Lease?
  {
    forall k :: 0 <= k < |queues| - 1 ==> queues[k + 1] == SoloPass(queues[k], max, lease)
  }

  /** The first unfinished entry of the stream of an unfinished entry. */
  lemma {:induction false} FirstUnfinished(rows: seq<Row>, i: nat) returns (j: nat)
    requires i < |rows| && !rows[i].Finished()
    ensures j <= i && rows[j].Stream() == rows[i].Stream() && !rows[j].Finished() && Head(rows, j)
    decreases i
  {
    j := i;
    if !Head(rows, i) {
      var k :| 0 <= k < i && rows[k].Stream() == rows[i].Stream() && !rows[k].Finished();
      j := FirstUnfinished(rows, k);
    }
  }

  /** Everything open in the scope waits behind a dead entry of its stream. */
  predicate OnlyBlockedLeft(rows: seq<Row>, scope: Option<string>) {
    forall i :: 0 <= i < |rows| && rows[i].consumer == scope && rows[i].Open() ==>
      exists j :: 0 <= j < i && rows[j].Stream() == rows[i].Stream() && rows[j].status.Dead?
  }

  lemma NoLiveStreamLeavesBlocked(rows: seq<Row>, scope: Option<string>)
    requires LiveStreams(rows, scope) == {}
    ensures OnlyBlockedLeft(rows, scope)
  {
    LiveStreamsCount(rows, scope);
    assert LiveHeads(rows, scope) == {};
    forall i | 0 <= i < |rows| && rows[i].consumer == scope && rows[i].Open()
      ensures exists j :: 0 <= j < i && rows[j].Stream() == rows[i].Stream() && rows[j].status.Dead?
    {
      var j := FirstUnfinished(rows, i);
      assert j !in LiveHeads(rows, scope);
    }
  }

  lemma {:induction false} PassesDrain(max: nat, lease: Step, queues: seq<Queue>, n: nat)
    requires n < |queues| && Undisturbed(queues[0], lease) && lease.limit >= 1 && ConsecutivePasses(max, lease, queues)
    ensures Undisturbed(queues[n], lease)
    ensures LiveStreams(queues[n].rows, lease.scope) == {}
         || |OpenEntries(queues[n].rows, lease.scope)| + n <= |OpenEntries(queues[0].rows, lease.scope)|
  {
    if n > 0 {
      PassesDrain(max, lease, queues, n - 1);
      PassProgress(queues[n - 1], max, lease, queues[n]);
    }
  }

  /** A pass settles something unless no stream is live, and then no stream becomes live. */
  lemma PassProgress(q: Queue, max: nat, lease: Step, r: Queue)
    requires Undisturbed(q, lease) && lease.limit >= 1 && r == SoloPass(q, max, lease)
    ensures Undisturbed(r, lease)
    ensures if LiveStreams(q.rows, lease.scope) == {} then LiveStreams(r.rows, lease.scope) == {}
      else |OpenEntries(r.rows, lease.scope)| < |OpenEntries(q.rows, lease.scope)|
  {
    UndisturbedStays(q, max, lease);
    SoloPassDrains(q, max, lease);
    if LiveStreams(q.rows, lease.scope) == {} {
      DrainedStays(q, max, lease);
    }
  }

  /** Without a live head nothing is granted any more. */
  lemma DrainedStays(q: Queue, max: nat, lease: Step)
    requires Undisturbed(q, lease) && LiveStreams(q.rows, lease.scope) == {}
    ensures LiveStreams(SoloPass(q, max, lease).rows, lease.scope) == {}
  {
    SoloPassRows(q, max, lease);
    LiveStreamsCount(q.rows, lease.scope);
    CandidatesAreLiveHeads(q.rows, lease.scope, lease.now);
    GrantsCount(q.rows, lease.scope, lease.now, lease.limit, 0);
    assert LeaseGrants(q, lease) == [];
    assert SoloPass(q, max, lease).rows == q.rows;
  }

  /** As many passes as there are open entries leave only entries behind a dead letter. */
  lemma PassesLeaveOnlyBlocked(max: nat, lease: Step, queues: seq<Queue>, n: nat)
    requires n < |queues| && Undisturbed(queues[0], lease) && lease.limit >= 1 && ConsecutivePasses(max, lease, queues)
    requires n >= |OpenEntries(queues[0].rows, lease.scope)|
    ensures OnlyBlockedLeft(queues[n].rows, lease.scope)
  {
    PassesDrain(max, lease, queues, n);
    var rows := queues[n].rows;
    assert LiveHeads(rows, lease.scope) <= OpenEntries(rows, lease.scope);
    LiveStreamsCount(rows, lease.scope);
    NoLiveStreamLeavesBlocked(rows, lease.scope);
  }
}
