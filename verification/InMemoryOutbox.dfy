/**
 The in-memory outbox: one scan over the entries with a set of streams already seen, instead of the
 head-of-stream subquery. It names a stream by joining its three parts with a bar, so it grants what
 the subquery grants exactly as long as no name is shared by two streams that matter.
 */
module InMemoryOutbox {
  import opened Wrappers
  import opened Outbox
  import opened OutboxOrder
  import opened Counting

  function Name(row: Row): string {
    row.envelope.tenant + "|" + row.envelope.aggregateType + "|" + row.envelope.aggregateId
  }

  /** How the scan names the stream of an entry; `Name` is the one the source uses. */
  type Naming = Row -> string

  /** No earlier entry under the same name is unfinished. */
  predicate NameHead(rows: seq<Row>, name: Naming, i: nat)
    requires i < |rows|
  {
    forall j :: 0 <= j < i && name(rows[j]) == name(rows[i]) ==> rows[j].Finished()
  }

  predicate ScanCandidate(rows: seq<Row>, name: Naming, now: int, i: nat)
    requires i < |rows|
  {
    rows[i].Eligible(now) && NameHead(rows, name, i)
  }

  function ScanGrants(rows: seq<Row>, name: Naming, now: int, limit: int, from: nat): seq<nat>
    requires from <= |rows|
    decreases |rows| - from
  {
    if limit < 1 || from == |rows| then []
    else if ScanCandidate(rows, name, now, from) then [from] + ScanGrants(rows, name, now, limit - 1, from + 1)
    else ScanGrants(rows, name, now, limit, from + 1)
  }

  lemma {:induction false} ScanGrantsCandidates(rows: seq<Row>, name: Naming, now: int, limit: int, from: nat, i: nat)
    requires from <= |rows| && i in ScanGrants(rows, name, now, limit, from)
    ensures i < |rows| && ScanCandidate(rows, name, now, i)
    decreases |rows| - from
  {
    if !ScanCandidate(rows, name, now, from) {
      ScanGrantsCandidates(rows, name, now, limit, from + 1, i);
    } else if i != from {
      ScanGrantsCandidates(rows, name, now, limit - 1, from + 1, i);
    }
  }

  class InMemoryOutbox {
    var entries: seq<Row>

    constructor ()
      ensures entries == []
    {
      entries := [];
    }

    method LeaseBatch(worker: string, now: int, leaseSeconds: int, limit: int) returns (granted: seq<nat>)
      modifies this
      ensures granted == ScanGrants(old(entries), Name, now, limit, 0)
      ensures entries == LeaseRows(old(entries), granted, worker, now + leaseSeconds)
    {
      granted := Scan(Name, worker, now, now + leaseSeconds, limit);
    }

    /** The loop, whatever the naming of streams. */
    method Scan(name: Naming, worker: string, now: int, expiresAt: int, limit: int) returns (granted: seq<nat>)
      modifies this
      ensures granted == ScanGrants(old(entries), name, now, limit, 0)
      ensures entries == LeaseRows(old(entries), granted, worker, expiresAt)
    {
      ghost var rows := entries;
      granted := [];
      var seen: set<string> := {};
      ghost var left := ScanGrants(rows, name, now, limit, 0);
      for n := 0 to |entries|
        invariant Scanned(rows, name, now, limit, worker, expiresAt, n, entries, granted, left)
        invariant seen == SeenUpTo(rows, name, n)
      {
        var entry := entries[n];
        ScanDecides(rows, name, now, limit, granted, n);
        PassOver(rows, name, now, limit, worker, expiresAt, n, entries, granted, left);
        if !entry.Finished() && name(entry) !in seen {
          if entry.Eligible(now) && |granted| < limit {
            GrantNext(rows, name, now, limit, worker, expiresAt, n, entries, granted, left);
            entries := entries[n := LeasedRow(entry, worker, expiresAt)];
            granted := granted + [n];
            left := left[1..];
          }
          seen := seen + {name(entry)};
        }
      }
      LeasedAll(rows, granted, worker, expiresAt, entries);
    }
  }

  /** The scan has dealt with the first `n` entries; it will still grant `left`. */
  predicate Scanned(rows: seq<Row>, name: Naming, now: int, limit: int, worker: string, expiresAt: int, n: nat,
                    entries: seq<Row>, granted: seq<nat>, left: seq<nat>)
  {
    && |entries| == |rows| && n <= |rows|
    && (forall i :: n <= i < |rows| ==> entries[i] == rows[i])
    && (forall k :: 0 <= k < |granted| ==> granted[k] < n)
    && LeasedSoFar(rows, granted, worker, expiresAt, entries)
    && left == ScanGrants(rows, name, now, limit - |granted|, n)
    && granted + left == ScanGrants(rows, name, now, limit, 0)
  }

  predicate LeasedSoFar(rows: seq<Row>, granted: seq<nat>, worker: string, expiresAt: int, entries: seq<Row>) {
    && |entries| == |rows|
    && forall i :: 0 <= i < |rows| ==> entries[i] == if i in granted then LeasedRow(rows[i], worker, expiresAt) else rows[i]
  }

  lemma LeasedAll(rows: seq<Row>, granted: seq<nat>, worker: string, expiresAt: int, entries: seq<Row>)
    requires LeasedSoFar(rows, granted, worker, expiresAt, entries)
    ensures entries == LeaseRows(rows, granted, worker, expiresAt)
  {
  }

  lemma PassOver(rows: seq<Row>, name: Naming, now: int, limit: int, worker: string, expiresAt: int, n: nat,
                 entries: seq<Row>, granted: seq<nat>, left: seq<nat>)
    requires Scanned(rows, name, now, limit, worker, expiresAt, n, entries, granted, left) && n < |rows|
    ensures !(limit - |granted| >= 1 && ScanCandidate(rows, name, now, n)) ==>
      Scanned(rows, name, now, limit, worker, expiresAt, n + 1, entries, granted, left)
  {
    ScanStep(rows, name, now, limit - |granted|, n);
  }

  lemma GrantNext(rows: seq<Row>, name: Naming, now: int, limit: int, worker: string, expiresAt: int, n: nat,
                  entries: seq<Row>, granted: seq<nat>, left: seq<nat>)
    requires Scanned(rows, name, now, limit, worker, expiresAt, n, entries, granted, left)
    requires n < |rows| && |granted| < limit && ScanCandidate(rows, name, now, n)
    ensures left != []
    ensures Scanned(rows, name, now, limit, worker, expiresAt, n + 1,
      entries[n := LeasedRow(entries[n], worker, expiresAt)], granted + [n], left[1..])
  {
    ScanStep(rows, name, now, limit - |granted|, n);
    assert granted + left == (granted + [n]) + left[1..];
  }

  /** The names of the unfinished entries among the first `n`. */
  function SeenUpTo(rows: seq<Row>, name: Naming, n: nat): set<string>
    requires n <= |rows|
  {
    if n == 0 then {}
    else if rows[n - 1].Finished() then SeenUpTo(rows, name, n - 1)
    else SeenUpTo(rows, name, n - 1) + {name(rows[n - 1])}
  }

  lemma {:induction false} SeenNames(rows: seq<Row>, name: Naming, n: nat, seen: string)
    requires n <= |rows|
    ensures seen in SeenUpTo(rows, name, n) <==> exists j :: 0 <= j < n && !rows[j].Finished() && name(rows[j]) == seen
  {
    if n > 0 {
      SeenNames(rows, name, n - 1, seen);
    }
  }

  lemma SeenIsHead(rows: seq<Row>, name: Naming, n: nat)
    requires n < |rows|
    ensures NameHead(rows, name, n) <==> name(rows[n]) !in SeenUpTo(rows, name, n)
  {
    SeenNames(rows, name, n, name(rows[n]));
  }

  /** The scan grants entry `n` exactly when it is a candidate and the limit allows. */
  lemma ScanDecides(rows: seq<Row>, name: Naming, now: int, limit: int, granted: seq<nat>, n: nat)
    requires n < |rows|
    ensures !rows[n].Finished() && name(rows[n]) !in SeenUpTo(rows, name, n) && rows[n].Eligible(now) && |granted| < limit
      <==> limit - |granted| >= 1 && ScanCandidate(rows, name, now, n)
  {
    SeenIsHead(rows, name, n);
  }

  lemma ScanStep(rows: seq<Row>, name: Naming, now: int, rest: int, n: nat)
    requires n < |rows|
    ensures ScanGrants(rows, name, now, rest, n) ==
      if rest >= 1 && ScanCandidate(rows, name, now, n) then [n] + ScanGrants(rows, name, now, rest - 1, n + 1)
      else ScanGrants(rows, name, now, rest, n + 1)
  {
  }

  // ----- The scan against the subquery -----

  ghost predicate SameGrants(rows: seq<Row>) {
    forall now: int, limit: int :: ScanGrants(rows, Name, now, limit, 0) == Grants(rows, None, now, {}, limit, 0)
  }

  /** No open head shares its name with an earlier unfinished entry. */
  predicate NamesApart(rows: seq<Row>) {
    forall i, j :: 0 <= i < j < |rows| && !rows[i].Finished() && rows[j].Open() && Head(rows, j) ==> Name(rows[i]) != Name(rows[j])
  }

  lemma {:induction false} ApartGrants(rows: seq<Row>, now: int, limit: int, from: nat)
    requires NamesApart(rows) && from <= |rows| && forall i :: 0 <= i < |rows| ==> rows[i].consumer == None
    ensures ScanGrants(rows, Name, now, limit, from) == Grants(rows, None, now, {}, limit, from)
    decreases |rows| - from
  {
    if limit >= 1 && from < |rows| {
      CandidatesAgree(rows, now, from);
      ApartGrants(rows, now, limit - 1, from + 1);
      ApartGrants(rows, now, limit, from + 1);
    }
  }

  lemma CandidatesAgree(rows: seq<Row>, now: int, i: nat)
    requires NamesApart(rows) && i < |rows| && rows[i].consumer == None
    ensures ScanCandidate(rows, Name, now, i) <==> Candidate(rows, None, now, {}, i)
  {
    if ScanCandidate(rows, Name, now, i) {
      forall j | 0 <= j < i && rows[j].Stream() == rows[i].Stream()
        ensures rows[j].Finished()
      {
        assert Name(rows[j]) == Name(rows[i]);
      }
    }
  }

  lemma {:induction false} AmpleLimitGrantsAll(rows: seq<Row>, now: int, limit: int, from: nat, i: nat)
    requires from <= i < |rows| && limit >= |rows| - from && Candidate(rows, None, now, {}, i)
    ensures i in Grants(rows, None, now, {}, limit, from)
    decreases |rows| - from
  {
    if from < i {
      AmpleLimitGrantsAll(rows, now, if Candidate(rows, None, now, {}, from) then limit - 1 else limit, from + 1, i);
    }
  }

  /** The time from which an open row is eligible. */
  function Deadline(row: Row): int {
    if row.status.Leased? then row.status.expiresAt else row.nextAttemptAt
  }

  lemma ClashDiffers(rows: seq<Row>, i: nat, j: nat)
    requires i < j < |rows| && !rows[i].Finished() && rows[j].Open() && Head(rows, j) && Name(rows[i]) == Name(rows[j])
    requires rows[j].consumer == None
    ensures ScanGrants(rows, Name, Deadline(rows[j]), |rows|, 0) != Grants(rows, None, Deadline(rows[j]), {}, |rows|, 0)
  {
    var now := Deadline(rows[j]);
    AmpleLimitGrantsAll(rows, now, |rows|, 0, j);
    if j in ScanGrants(rows, Name, now, |rows|, 0) {
      ScanGrantsCandidates(rows, Name, now, |rows|, 0, j);
    }
  }

  /** The scan grants what the subquery grants, in the same order, at every time and limit exactly when names are apart. */
  lemma ScanGrantsHeads(rows: seq<Row>)
    requires forall i :: 0 <= i < |rows| ==> rows[i].consumer == None
    ensures SameGrants(rows) <==> NamesApart(rows)
  {
    if NamesApart(rows) {
      forall now: int, limit: int
        ensures ScanGrants(rows, Name, now, limit, 0) == Grants(rows, None, now, {}, limit, 0)
      {
        ApartGrants(rows, now, limit, 0);
      }
    } else {
      var i, j :| 0 <= i < j < |rows| && !rows[i].Finished() && rows[j].Open() && Head(rows, j) && Name(rows[i]) == Name(rows[j]);
      ClashDiffers(rows, i, j);
    }
  }

  lemma NoBarWithin(s: string, prefix: string, k: nat)
    requires prefix <= s && '|' !in prefix && k < |s| && s[k] == '|'
    ensures |prefix| <= k
  {
  }

  lemma FirstBar(a: string, b: string, x: string, y: string)
    requires '|' !in a && '|' !in x && a + "|" + b == x + "|" + y
    ensures a == x && b == y
  {
    var s := a + "|" + b;
    assert s[|a|] == '|' && s[|x|] == '|';
    assert s[..|a|] == a && s[..|x|] == x;
    NoBarWithin(s, a, |x|);
    NoBarWithin(s, x, |a|);
    assert s[|a| + 1..] == b && s[|x| + 1..] == y;
  }

  lemma BarFreeName(first: Row, second: Row)
    requires first.consumer == second.consumer && Name(first) == Name(second)
    requires '|' !in first.envelope.tenant && '|' !in first.envelope.aggregateType
    requires '|' !in second.envelope.tenant && '|' !in second.envelope.aggregateType
    ensures first.Stream() == second.Stream()
  {
    var a, b := first.envelope, second.envelope;
    assert Name(first) == a.tenant + "|" + (a.aggregateType + "|" + a.aggregateId);
    assert Name(second) == b.tenant + "|" + (b.aggregateType + "|" + b.aggregateId);
    FirstBar(a.tenant, a.aggregateType + "|" + a.aggregateId, b.tenant, b.aggregateType + "|" + b.aggregateId);
    FirstBar(a.aggregateType, a.aggregateId, b.aggregateType, b.aggregateId);
  }

  /** Parts without a bar keep names apart, so the scan and the subquery agree on them. */
  lemma BarFreeNamesApart(rows: seq<Row>)
    requires forall i :: 0 <= i < |rows| ==>
      rows[i].consumer == None && '|' !in rows[i].envelope.tenant && '|' !in rows[i].envelope.aggregateType
    ensures SameGrants(rows)
  {
    forall i, j | 0 <= i < j < |rows| && !rows[i].Finished() && rows[j].Open() && Head(rows, j)
      ensures Name(rows[i]) != Name(rows[j])
    {
      if Name(rows[i]) == Name(rows[j]) {
        BarFreeName(rows[i], rows[j]);
      }
    }
    ScanGrantsHeads(rows);
  }

  /** Two different streams under one name: the scan withholds the second one. */
  lemma SharedNameBlocks()
    ensures exists rows: seq<Row> :: (forall i :: 0 <= i < |rows| ==> rows[i].consumer == None && rows[i].Fresh()) && !SameGrants(rows)
  {
    var first := Row(None, Envelope("a|b", "e1", "t", "c", "d"), Pending, 0, 0);
    var second := Row(None, Envelope("a", "e2", "t", "b|c", "d"), Pending, 0, 0);
    var rows := [first, second];
    assert Name(first) == "a|b|c|d" == Name(second);
    assert Head(rows, 1);
    assert !NamesApart(rows) by {
      assert Name(rows[0]) == Name(rows[1]);
    }
    ScanGrantsHeads(rows);
  }

  // ----- Statistics -----

  function DeadEntries(rows: seq<Row>, scope: Option<string>): set<nat> {
    set i: nat | i < |rows| && rows[i].consumer == scope && rows[i].status.Dead?
  }

  /** `count(DISTINCT tenant, aggregate type, aggregate id)` over the dead entries of the scope. */
  function BlockedStreams(rows: seq<Row>, scope: Option<string>): set<Stream> {
    set i | i in DeadEntries(rows, scope) :: rows[i].Stream()
  }

  /** In every reachable queue each dead letter blocks a stream of its own. */
  lemma BlockedStreamsAreDeadLetters(max: nat, steps: seq<Step>, scope: Option<string>)
    ensures var rows := Exec(EMPTY, max, steps).rows; |BlockedStreams(rows, scope)| == |DeadEntries(rows, scope)|
  {
    OrderedAlways(max, steps);
    var rows := Exec(EMPTY, max, steps).rows;
    OneDeadPerStream(rows, scope);
  }

  lemma OneDeadPerStream(rows: seq<Row>, scope: Option<string>)
    requires Shape(rows)
    ensures |BlockedStreams(rows, scope)| == |DeadEntries(rows, scope)|
  {
    var stream := (i: nat) => if i < |rows| then rows[i].Stream() else StreamOf(None, "", "", "");
    ImageSize(DeadEntries(rows, scope), stream);
    assert Image(DeadEntries(rows, scope), stream) == BlockedStreams(rows, scope);
  }
}
