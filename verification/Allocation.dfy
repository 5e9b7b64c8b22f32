/**
 Largest-remainder allocation: a total in minor units is split over weighted shares. The loop that
 hands out the leftover units is proved against a definition by rank that no input order enters.
 */
module Allocation {
  import opened Wrappers
  import opened Rounding
  import opened Decimal
  import opened Ordering

  datatype Share = Share(key: Text, weight: Decimal)

  datatype Part = Part(key: Text, amount: Decimal)

  datatype Refusal = NoShares | DuplicateKey | NegativeWeight | WeightTooPrecise | AllWeightsZero

  /** A share with its weight in whole units at the common scale. */
  datatype Claim = Claim(key: Text, weight: nat)

  // ----- Validation and scaling -----

  predicate DistinctKeys(shares: seq<Share>) {
    forall i, j :: 0 <= i < j < |shares| ==> shares[i].key != shares[j].key
  }

  function MaxScale(shares: seq<Share>): nat {
    if shares == [] then 0 else Max(shares[0].weight.scale, MaxScale(shares[1..]))
  }

  /** The weights at the largest scale among them, or none when one needs too many digits there. */
  function Scaled(shares: seq<Share>, scale: nat): Option<seq<Claim>>
    requires forall s :: s in shares ==> s.weight.units >= 0
  {
    if shares == [] then Some([])
    else
      var weight, rest := Rescale(shares[0].weight, scale), Scaled(shares[1..], scale);
      if weight.Ok? && rest.Some? then Some([Claim(shares[0].key, Abs(weight.value.units))] + rest.value) else None
  }

  predicate SomeNegative(shares: seq<Share>) {
    exists s :: s in shares && s.weight.units < 0
  }

  function Validated(shares: seq<Share>): Result<seq<Claim>, Refusal> {
    if shares == [] then Err(NoShares)
    else if !DistinctKeys(shares) then Err(DuplicateKey)
    else if SomeNegative(shares) then Err(NegativeWeight)
    else
      var claims := Scaled(shares, MaxScale(shares));
      if claims.None? then Err(WeightTooPrecise)
      else if Sum(WeightOf(), claims.value) == 0 then Err(AllWeightsZero)
      else Ok(claims.value)
  }

  // ----- Sums -----

  function Sum(f: Claim -> int, claims: seq<Claim>): int {
    if claims == [] then 0 else f(claims[0]) + Sum(f, claims[1..])
  }

  lemma {:induction false} SumInsert(f: Claim -> int, before: (Claim, Claim) -> bool, c: Claim, claims: seq<Claim>)
    ensures Sum(f, Insert(before, c, claims)) == f(c) + Sum(f, claims)
  {
    if claims != [] {
      if !before(c, claims[0]) {
        SumInsert(f, before, c, claims[1..]);
      }
    }
  }

  lemma {:induction false} SumSort(f: Claim -> int, before: (Claim, Claim) -> bool, claims: seq<Claim>)
    ensures Sum(f, Sort(before, claims)) == Sum(f, claims)
  {
    if claims != [] {
      SumSort(f, before, claims[1..]);
      SumInsert(f, before, claims[0], Sort(before, claims[1..]));
    }
  }

  lemma {:induction false} SumBoundsEach(f: Claim -> int, claims: seq<Claim>, c: Claim)
    requires forall x :: f(x) >= 0
    ensures Sum(f, claims) >= 0
    ensures c in claims ==> f(c) <= Sum(f, claims)
  {
    if claims != [] {
      SumBoundsEach(f, claims[1..], c);
    }
  }

  // ----- The allocation of a magnitude -----

  function WeightOf(): Claim -> int {
    (c: Claim) => c.weight
  }

  function FloorOf(units: nat, all: nat): Claim -> int
    requires all > 0
  {
    (c: Claim) => (units * c.weight) / all
  }

  function RemainderOf(units: nat, all: nat): Claim -> int
    requires all > 0
  {
    (c: Claim) => (units * c.weight) % all
  }

  /** Larger remainders first, ties by ascending key. */
  function Ahead(units: nat, all: nat): (Claim, Claim) -> bool
    requires all > 0
  {
    (a: Claim, b: Claim) =>
      RemainderOf(units, all)(a) > RemainderOf(units, all)(b)
      || (RemainderOf(units, all)(a) == RemainderOf(units, all)(b) && Before(a.key, b.key))
  }

  function Leftover(units: nat, claims: seq<Claim>): int
    requires Sum(WeightOf(), claims) > 0
  {
    units - Sum(FloorOf(units, Sum(WeightOf(), claims)), claims)
  }

  /** How many claims come before this one when leftover units are given out. */
  function Rank(units: nat, claims: seq<Claim>, c: Claim): nat
    requires Sum(WeightOf(), claims) > 0
  {
    |Earlier(Ahead(units, Sum(WeightOf(), claims)), claims, c)|
  }

  /** A claim's part: the floor of its exact share, and one unit more when its rank is below the leftover. */
  function Portion(units: nat, claims: seq<Claim>): Claim -> int
    requires Sum(WeightOf(), claims) > 0
  {
    (c: Claim) => FloorOf(units, Sum(WeightOf(), claims))(c) + if Rank(units, claims, c) < Leftover(units, claims) then 1 else 0
  }

  predicate DistinctClaims(claims: seq<Claim>) {
    forall i, j :: 0 <= i < j < |claims| ==> claims[i].key != claims[j].key
  }

  lemma AheadIsStrict(units: nat, all: nat)
    requires all > 0
    ensures StrictOrder(Ahead(units, all))
  {
    forall x: Claim
      ensures !Ahead(units, all)(x, x)
    {
      BeforeIrreflexive(x.key);
    }
    forall x: Claim, y: Claim, z: Claim | Ahead(units, all)(x, y) && Ahead(units, all)(y, z)
      ensures Ahead(units, all)(x, z)
    {
      if Before(x.key, y.key) && Before(y.key, z.key) {
        BeforeTransitive(x.key, y.key, z.key);
      }
    }
  }

  lemma ClaimsComparable(units: nat, all: nat, claims: seq<Claim>)
    requires all > 0 && DistinctClaims(claims)
    ensures Comparable(Ahead(units, all), claims)
  {
    forall i, j | 0 <= i < j < |claims|
      ensures Ahead(units, all)(claims[i], claims[j]) || Ahead(units, all)(claims[j], claims[i])
    {
      BeforeTotal(claims[i].key, claims[j].key);
    }
  }

  lemma DivisionParts(n: nat, d: nat)
    requires d > 0
    ensures d * (n / d) + n % d == n && 0 <= n % d < d && n / d >= 0
  {
  }

  /** Floors and remainders account for every unit. */
  lemma {:induction false} Conservation(units: nat, all: nat, claims: seq<Claim>)
    requires all > 0
    ensures all * Sum(FloorOf(units, all), claims) + Sum(RemainderOf(units, all), claims) == units * Sum(WeightOf(), claims)
  {
    if claims != [] {
      var c, rest := claims[0], claims[1..];
      var floor, floors := FloorOf(units, all)(c), Sum(FloorOf(units, all), rest);
      Conservation(units, all, rest);
      DivisionParts(units * c.weight, all);
      assert all * (floor + floors) == all * floor + all * floors;
      assert units * (c.weight + Sum(WeightOf(), rest)) == units * c.weight + units * Sum(WeightOf(), rest);
    }
  }

  /** Remainders are below the divisor, and nothing where they are zero. */
  lemma {:induction false} RemainderSum(units: nat, all: nat, claims: seq<Claim>, k: nat)
    requires all > 0 && k <= |claims|
    requires forall j :: k <= j < |claims| ==> RemainderOf(units, all)(claims[j]) == 0
    ensures 0 <= Sum(RemainderOf(units, all), claims) <= k * (all - 1)
    decreases |claims|
  {
    if claims != [] {
      var smaller := if k > 0 then k - 1 else 0;
      RemainderSum(units, all, claims[1..], smaller);
      assert k > 0 ==> k * (all - 1) == smaller * (all - 1) + (all - 1);
    }
  }

  lemma LeftoverFrom(all: nat, leftover: int, remainders: int, k: nat)
    requires all > 0 && all * leftover == remainders && 0 <= remainders <= k * (all - 1)
    ensures 0 <= leftover <= k && (k > 0 ==> leftover < k)
  {
    assert all * leftover == leftover * all && k * (all - 1) == k * all - k;
    IntScale(leftover, 0, all);
    IntScale(leftover, k, all);
    IntScale(k, leftover, all);
  }

  lemma LeftoverIsRemainders(units: nat, claims: seq<Claim>, all: nat)
    requires all == Sum(WeightOf(), claims) > 0
    ensures all * Leftover(units, claims) == Sum(RemainderOf(units, all), claims)
  {
    Conservation(units, all, claims);
    var floors := Sum(FloorOf(units, all), claims);
    assert all * (units - floors) == units * all - all * floors;
  }

  /** There are leftover units for some claims but never for all. */
  lemma LeftoverBounds(units: nat, claims: seq<Claim>)
    requires Sum(WeightOf(), claims) > 0
    ensures 0 <= Leftover(units, claims) < |claims|
  {
    var all := Sum(WeightOf(), claims);
    LeftoverIsRemainders(units, claims, all);
    RemainderSum(units, all, claims, |claims|);
    LeftoverFrom(all, Leftover(units, claims), Sum(RemainderOf(units, all), claims), |claims|);
  }

  function Order(units: nat, claims: seq<Claim>): seq<Claim>
    requires Sum(WeightOf(), claims) > 0
  {
    Sort(Ahead(units, Sum(WeightOf(), claims)), claims)
  }

  /** In any sorted arrangement of the claims the position is the rank. */
  lemma RankIsPosition(units: nat, claims: seq<Claim>, order: seq<Claim>, k: nat)
    requires Sum(WeightOf(), claims) > 0 && k < |order|
    requires Sorted(Ahead(units, Sum(WeightOf(), claims)), order) && forall x :: x in order <==> x in claims
    ensures Rank(units, claims, order[k]) == k
  {
    var ahead := Ahead(units, Sum(WeightOf(), claims));
    AheadIsStrict(units, Sum(WeightOf(), claims));
    PositionIsRank(ahead, order, k);
    assert Earlier(ahead, claims, order[k]) == Earlier(ahead, order, order[k]);
  }

  lemma OrderFacts(units: nat, claims: seq<Claim>)
    requires Sum(WeightOf(), claims) > 0 && DistinctClaims(claims)
    ensures Sorted(Ahead(units, Sum(WeightOf(), claims)), Order(units, claims))
    ensures forall x :: x in Order(units, claims) <==> x in claims
  {
    var ahead := Ahead(units, Sum(WeightOf(), claims));
    AheadIsStrict(units, Sum(WeightOf(), claims));
    ClaimsComparable(units, Sum(WeightOf(), claims), claims);
    SortSorts(ahead, claims);
    SortKeeps(ahead, claims);
    SameMembers(Order(units, claims), claims);
  }

  lemma {:induction false} PortionSum(units: nat, claims: seq<Claim>, order: seq<Claim>, from: nat)
    requires Sum(WeightOf(), claims) > 0 && from <= |order|
    requires forall k :: 0 <= k < |order| ==> Rank(units, claims, order[k]) == k
    requires 0 <= Leftover(units, claims) <= |order|
    ensures Sum(Portion(units, claims), order[from..]) == Sum(FloorOf(units, Sum(WeightOf(), claims)), order[from..])
      + if from < Leftover(units, claims) then Leftover(units, claims) - from else 0
    decreases |order| - from
  {
    if from < |order| {
      assert order[from..][0] == order[from] && order[from..][1..] == order[from + 1..];
      PortionSum(units, claims, order, from + 1);
    }
  }

  /** The parts add up to the total. */
  lemma PartsSumToTotal(units: nat, claims: seq<Claim>)
    requires Sum(WeightOf(), claims) > 0 && DistinctClaims(claims)
    ensures Sum(Portion(units, claims), claims) == units
  {
    var all, order := Sum(WeightOf(), claims), Order(units, claims);
    OrderFacts(units, claims);
    forall k | 0 <= k < |order|
      ensures Rank(units, claims, order[k]) == k
    {
      RankIsPosition(units, claims, order, k);
    }
    LeftoverBounds(units, claims);
    PortionSum(units, claims, order, 0);
    assert order[0..] == order;
    SumSort(Portion(units, claims), Ahead(units, all), claims);
    SumSort(FloorOf(units, all), Ahead(units, all), claims);
  }

  /** The units are strictly within one of the exact share `total * weight / all`. */
  predicate NearExactShare(units: int, total: int, weight: int, all: int) {
    -all < units * all - total * weight < all
  }

  /** Each part is strictly within one unit of the exact share `units * weight / all`. */
  lemma WithinOneUnit(units: nat, claims: seq<Claim>, c: Claim)
    requires Sum(WeightOf(), claims) > 0 && DistinctClaims(claims) && c in claims
    ensures NearExactShare(Portion(units, claims)(c), units, c.weight, Sum(WeightOf(), claims))
  {
    var all, floor := Sum(WeightOf(), claims), FloorOf(units, Sum(WeightOf(), claims))(c);
    DivisionParts(units * c.weight, all);
    assert (floor + 1) * all == all * floor + all && floor * all == all * floor;
    if Rank(units, claims, c) < Leftover(units, claims) {
      ZeroRemainderGetsNothing(units, claims, c);
    }
  }

  lemma ZeroRemaindersComeLast(units: nat, all: nat, order: seq<Claim>, k: nat)
    requires all > 0 && Sorted(Ahead(units, all), order) && k < |order| && RemainderOf(units, all)(order[k]) == 0
    ensures forall j :: k <= j < |order| ==> RemainderOf(units, all)(order[j]) == 0
  {
    forall j | k <= j < |order|
      ensures RemainderOf(units, all)(order[j]) == 0
    {
      DivisionParts(units * order[j].weight, all);
      assert j > k ==> Ahead(units, all)(order[k], order[j]);
    }
  }

  lemma LeftoverBelow(units: nat, claims: seq<Claim>, k: nat, all: nat)
    requires all == Sum(WeightOf(), claims) > 0
    requires k < |Order(units, claims)| && Sorted(Ahead(units, all), Order(units, claims))
    requires RemainderOf(units, all)(Order(units, claims)[k]) == 0
    ensures Leftover(units, claims) <= k
  {
    ZeroRemaindersComeLast(units, all, Order(units, claims), k);
    RemainderSum(units, all, Order(units, claims), k);
    SumSort(RemainderOf(units, all), Ahead(units, all), claims);
    LeftoverIsRemainders(units, claims, all);
    LeftoverFrom(all, Leftover(units, claims), Sum(RemainderOf(units, all), claims), k);
  }

  /** A leftover unit only goes to a claim with a remainder. */
  lemma ZeroRemainderGetsNothing(units: nat, claims: seq<Claim>, c: Claim)
    requires Sum(WeightOf(), claims) > 0 && DistinctClaims(claims) && c in claims
    ensures RemainderOf(units, Sum(WeightOf(), claims))(c) == 0 ==> Rank(units, claims, c) >= Leftover(units, claims)
  {
    var order := Order(units, claims);
    OrderFacts(units, claims);
    var k :| 0 <= k < |order| && order[k] == c;
    RankIsPosition(units, claims, order, k);
    if RemainderOf(units, Sum(WeightOf(), claims))(c) == 0 {
      LeftoverBelow(units, claims, k, Sum(WeightOf(), claims));
    }
  }

  lemma ZeroWeightGetsNothing(units: nat, claims: seq<Claim>, c: Claim)
    requires Sum(WeightOf(), claims) > 0 && DistinctClaims(claims) && c in claims && c.weight == 0
    ensures Portion(units, claims)(c) == 0
  {
    assert units * c.weight == 0;
    ZeroRemainderGetsNothing(units, claims, c);
  }

  lemma FloorsKeepOrder(a: nat, b: nat, d: nat)
    requires d > 0 && a <= b
    ensures a / d <= b / d && (a / d == b / d ==> b % d - a % d == b - a)
  {
    DivisionParts(a, d);
    DivisionParts(b, d);
    IntScale(b / d + 1, a / d, d);
    IntScale(a / d, b / d + 1, d);
    assert (b / d + 1) * d == d * (b / d) + d && (a / d) * d == d * (a / d);
  }

  /** What comes before a claim that is behind is a larger set. */
  lemma RankKeepsOrder(units: nat, claims: seq<Claim>, a: Claim, b: Claim)
    requires Sum(WeightOf(), claims) > 0 && Ahead(units, Sum(WeightOf(), claims))(a, b)
    ensures Rank(units, claims, a) <= Rank(units, claims, b)
  {
    var ahead := Ahead(units, Sum(WeightOf(), claims));
    AheadIsStrict(units, Sum(WeightOf(), claims));
    SubsetSize(Earlier(ahead, claims, a), Earlier(ahead, claims, b));
  }

  lemma SubsetSize<T>(a: set<T>, b: set<T>)
    requires a <= b
    ensures |a| <= |b|
  {
    assert b == a + (b - a);
  }

  lemma HeavierHasLargerShare(units: nat, all: nat, light: Claim, heavy: Claim)
    requires all > 0 && units > 0 && light.weight < heavy.weight
    ensures FloorOf(units, all)(light) <= FloorOf(units, all)(heavy)
    ensures FloorOf(units, all)(light) == FloorOf(units, all)(heavy) ==> Ahead(units, all)(heavy, light)
  {
    var a, b := units * light.weight, units * heavy.weight;
    assert b - a == (heavy.weight - light.weight) * units;
    Positive(heavy.weight - light.weight, units);
    FloorsKeepOrder(a, b, all);
    assert FloorOf(units, all)(light) == a / all && FloorOf(units, all)(heavy) == b / all;
    assert RemainderOf(units, all)(light) == a % all && RemainderOf(units, all)(heavy) == b % all;
  }

  lemma NoLeftoverOfNothing(claims: seq<Claim>)
    requires Sum(WeightOf(), claims) > 0
    ensures Leftover(0, claims) == 0
  {
    NothingToShare(Sum(WeightOf(), claims), claims);
  }

  /** A heavier share never gets less. */
  lemma HeavierGetsNoLess(units: nat, claims: seq<Claim>, light: Claim, heavy: Claim)
    requires Sum(WeightOf(), claims) > 0 && light.weight < heavy.weight
    ensures Portion(units, claims)(light) <= Portion(units, claims)(heavy)
  {
    var all := Sum(WeightOf(), claims);
    if units == 0 {
      NoLeftoverOfNothing(claims);
      assert 0 * light.weight == 0 && 0 * heavy.weight == 0;
    } else {
      HeavierHasLargerShare(units, all, light, heavy);
      if FloorOf(units, all)(light) == FloorOf(units, all)(heavy) {
        RankKeepsOrder(units, claims, heavy, light);
      }
    }
  }

  lemma {:induction false} NothingToShare(all: nat, claims: seq<Claim>)
    requires all > 0
    ensures Sum(FloorOf(0, all), claims) == 0
  {
    if claims != [] {
      NothingToShare(all, claims[1..]);
      assert 0 * claims[0].weight == 0;
    }
  }

  // ----- Independence of the input order -----

  lemma SumPermuted(f: Claim -> int, a: seq<Claim>, b: seq<Claim>)
    requires DistinctClaims(a) && DistinctClaims(b) && forall x :: x in a <==> x in b
    ensures Sum(f, a) == Sum(f, b)
  {
    var before := Ahead(0, 1);
    AheadIsStrict(0, 1);
    ClaimsComparable(0, 1, a);
    ClaimsComparable(0, 1, b);
    SortSorts(before, a);
    SortSorts(before, b);
    SortKeeps(before, a);
    SortKeeps(before, b);
    SameMembers(Sort(before, a), a);
    SameMembers(Sort(before, b), b);
    SortedOnce(before, Sort(before, a), Sort(before, b));
    SumSort(f, before, a);
    SumSort(f, before, b);
  }

  /** A claim's part does not depend on the order of the claims. */
  lemma PortionPermuted(units: nat, a: seq<Claim>, b: seq<Claim>, c: Claim)
    requires DistinctClaims(a) && DistinctClaims(b) && forall x :: x in a <==> x in b
    requires Sum(WeightOf(), a) > 0
    ensures Sum(WeightOf(), b) > 0
    ensures Portion(units, a)(c) == Portion(units, b)(c)
  {
    var all := Sum(WeightOf(), a);
    SumPermuted(WeightOf(), a, b);
    SumPermuted(FloorOf(units, all), a, b);
    assert Earlier(Ahead(units, all), a, c) == Earlier(Ahead(units, all), b, c);
  }

  // ----- The algorithm -----

  datatype Entry = Entry(key: Text, index: nat, remainder: int)

  function EntryAhead(): (Entry, Entry) -> bool {
    (a: Entry, b: Entry) => a.remainder > b.remainder || (a.remainder == b.remainder && Before(a.key, b.key))
  }

  predicate Describes(entry: Entry, claims: seq<Claim>, i: nat, units: nat, all: nat)
    requires all > 0 && i < |claims|
  {
    entry == Entry(claims[i].key, i, RemainderOf(units, all)(claims[i]))
  }

  predicate DescribesAll(entries: seq<Entry>, claims: seq<Claim>, units: nat, all: nat)
    requires all > 0
  {
    |entries| == |claims| && forall i :: 0 <= i < |claims| ==> Describes(entries[i], claims, i, units, all)
  }

  lemma EntriesSort(entries: seq<Entry>, claims: seq<Claim>, units: nat, all: nat)
    requires all > 0 && DescribesAll(entries, claims, units, all) && DistinctClaims(claims)
    ensures Sorted(EntryAhead(), Sort(EntryAhead(), entries))
    ensures forall e :: e in Sort(EntryAhead(), entries) <==> e in entries
  {
    forall x: Entry
      ensures !EntryAhead()(x, x)
    {
      BeforeIrreflexive(x.key);
    }
    forall x: Entry, y: Entry, z: Entry | EntryAhead()(x, y) && EntryAhead()(y, z)
      ensures EntryAhead()(x, z)
    {
      if Before(x.key, y.key) && Before(y.key, z.key) {
        BeforeTransitive(x.key, y.key, z.key);
      }
    }
    assert StrictOrder(EntryAhead());
    forall i, j | 0 <= i < j < |entries|
      ensures EntryAhead()(entries[i], entries[j]) || EntryAhead()(entries[j], entries[i])
    {
      assert Describes(entries[i], claims, i, units, all) && Describes(entries[j], claims, j, units, all);
      BeforeTotal(claims[i].key, claims[j].key);
    }
    SortSorts(EntryAhead(), entries);
    SortKeeps(EntryAhead(), entries);
    SameMembers(Sort(EntryAhead(), entries), entries);
  }

  /** The positions an order visits: each position once, and the claim visited k-th has rank k. */
  ghost predicate VisitsByRank(order: seq<Entry>, claims: seq<Claim>, units: nat)
    requires Sum(WeightOf(), claims) > 0
  {
    && |order| == |claims|
    && (forall k :: 0 <= k < |order| ==> order[k].index < |claims|)
    && (forall k :: 0 <= k < |order| ==> Rank(units, claims, claims[order[k].index]) == k)
    && (forall k, l :: 0 <= k < l < |order| ==> order[k].index != order[l].index)
    && (forall i :: 0 <= i < |claims| ==> Visited(order, i))
  }

  predicate Visited(order: seq<Entry>, i: nat) {
    exists k :: 0 <= k < |order| && order[k].index == i
  }

  lemma OrderVisits(entries: seq<Entry>, claims: seq<Claim>, units: nat, all: nat)
    requires all == Sum(WeightOf(), claims) > 0 && DescribesAll(entries, claims, units, all) && DistinctClaims(claims)
    ensures VisitsByRank(Sort(EntryAhead(), entries), claims, units)
  {
    var order := Sort(EntryAhead(), entries);
    EntriesSort(entries, claims, units, all);
    forall k | 0 <= k < |order|
      ensures order[k].index < |claims| && Describes(order[k], claims, order[k].index, units, all)
    {
      assert order[k] in entries;
      var i :| 0 <= i < |entries| && entries[i] == order[k];
      assert Describes(entries[i], claims, i, units, all);
    }
    forall i | 0 <= i < |claims|
      ensures Visited(order, i)
    {
      assert Describes(entries[i], claims, i, units, all) && entries[i] in order;
      var k :| 0 <= k < |order| && order[k] == entries[i];
      assert order[k].index == i;
    }
    var visited := seq(|order|, k requires 0 <= k < |order| => claims[order[k].index]);
    VisitedSorted(order, visited, claims, units, all);
    forall x
      ensures x in visited <==> x in claims
    {
      if x in claims {
        var i :| 0 <= i < |claims| && claims[i] == x;
        assert Visited(order, i);
        var k :| 0 <= k < |order| && order[k].index == i;
        assert visited[k] == x;
      }
    }
    forall k | 0 <= k < |order|
      ensures Rank(units, claims, claims[order[k].index]) == k
    {
      RankIsPosition(units, claims, visited, k);
      assert visited[k] == claims[order[k].index];
    }
  }

  lemma VisitedSorted(order: seq<Entry>, visited: seq<Claim>, claims: seq<Claim>, units: nat, all: nat)
    requires all > 0 && Sorted(EntryAhead(), order) && |visited| == |order|
    requires forall k :: 0 <= k < |order| ==> order[k].index < |claims| && visited[k] == claims[order[k].index]
    requires forall k :: 0 <= k < |order| ==> Describes(order[k], claims, order[k].index, units, all)
    ensures Sorted(Ahead(units, all), visited)
  {
    forall k, l | 0 <= k < l < |visited|
      ensures Ahead(units, all)(visited[k], visited[l])
    {
      assert EntryAhead()(order[k], order[l]);
      assert Describes(order[k], claims, order[k].index, units, all) && Describes(order[l], claims, order[l].index, units, all);
    }
  }

  /** One leftover unit each, in order, until none is left. */
  method HandOut(base: array<int>, order: seq<Entry>, leftover: int) returns (left: int)
    requires 0 <= leftover <= |order|
    requires forall k :: 0 <= k < |order| ==> order[k].index < base.Length
    requires forall k, l :: 0 <= k < l < |order| ==> order[k].index != order[l].index
    modifies base
    ensures left == 0
    ensures forall k :: 0 <= k < |order| ==>
      base[order[k].index] == old(base[order[k].index]) + if k < leftover then 1 else 0
  {
    left := leftover;
    for k := 0 to |order|
      invariant left == leftover - k >= 0
      invariant forall l :: 0 <= l < |order| ==>
        base[order[l].index] == old(base[order[l].index]) + if l < k then 1 else 0
    {
      if left == 0 {
        break;
      }
      base[order[k].index] := base[order[k].index] + 1;
      left := left - 1;
    }
  }

  function Signed(total: int): int {
    if total < 0 then -1 else 1
  }

  /** What allocation returns: one part a claim, in input order, at the total's scale and with its sign. */
  function Parts(total: Decimal, claims: seq<Claim>): (parts: seq<Part>)
    requires Sum(WeightOf(), claims) > 0
    ensures |parts| == |claims|
  {
    seq(|claims|, i requires 0 <= i < |claims| => PartOf(total, claims, claims[i]))
  }

  function PartOf(total: Decimal, claims: seq<Claim>, c: Claim): Part
    requires Sum(WeightOf(), claims) > 0
  {
    Part(c.key, Decimal(Signed(total.units) * Portion(Abs(total.units), claims)(c), total.scale))
  }

  lemma {:induction false} ScaledClaims(shares: seq<Share>, scale: nat)
    requires forall s :: s in shares ==> s.weight.units >= 0 && s.weight.scale <= scale
    requires scale <= MAX_SCALE
    ensures Scaled(shares, scale).Some? <==> forall i :: 0 <= i < |shares| ==> Rescale(shares[i].weight, scale).Ok?
    ensures Scaled(shares, scale).Some? ==> |Scaled(shares, scale).value| == |shares|
    ensures Scaled(shares, scale).Some? ==> forall i :: 0 <= i < |shares| ==>
      Scaled(shares, scale).value[i] == Claim(shares[i].key, Abs(UnitsAt(shares[i].weight, scale)))
  {
    if shares != [] {
      ScaledClaims(shares[1..], scale);
      assert shares[0] in shares;
      forall i | 0 <= i < |shares[1..]|
        ensures shares[1..][i] == shares[i + 1]
      {
      }
      if forall i :: 0 <= i < |shares| ==> Rescale(shares[i].weight, scale).Ok? {
        assert Rescale(shares[0].weight, scale).Ok?;
      }
    }
  }

  /** What the Decimal class guarantees of every weight. */
  predicate WeightsRepresentable(shares: seq<Share>) {
    forall s :: s in shares ==> Representable(s.weight)
  }

  lemma {:induction false} MaxScaleBounds(shares: seq<Share>)
    requires WeightsRepresentable(shares)
    ensures MaxScale(shares) <= MAX_SCALE
    ensures forall s :: s in shares ==> s.weight.scale <= MaxScale(shares)
    ensures shares != [] ==> exists s :: s in shares && s.weight.scale == MaxScale(shares)
  {
    if shares != [] {
      assert forall s :: s in shares <==> s == shares[0] || s in shares[1..];
      MaxScaleBounds(shares[1..]);
    }
  }

  /** Validation succeeds with one claim a share, in order, each weight exact at the common scale. */
  lemma ValidatedClaims(shares: seq<Share>, claims: seq<Claim>)
    requires WeightsRepresentable(shares) && Validated(shares) == Ok(claims)
    ensures |claims| == |shares| > 0 && DistinctClaims(claims) && Sum(WeightOf(), claims) > 0
    ensures MaxScale(shares) <= MAX_SCALE
    ensures forall i :: 0 <= i < |shares| ==> shares[i].weight.scale <= MaxScale(shares)
    ensures forall i :: 0 <= i < |shares| ==> claims[i] == Claim(shares[i].key, Abs(UnitsAt(shares[i].weight, MaxScale(shares))))
  {
    MaxScaleBounds(shares);
    ScaledClaims(shares, MaxScale(shares));
    forall x: Claim
      ensures WeightOf()(x) >= 0
    {
    }
    SumBoundsEach(WeightOf(), claims, claims[0]);
  }

  /** The part of the above that does not speak of the scaled weights. */
  lemma ClaimsShape(shares: seq<Share>, claims: seq<Claim>)
    requires WeightsRepresentable(shares) && Validated(shares) == Ok(claims)
    ensures |claims| == |shares| > 0 && DistinctClaims(claims) && Sum(WeightOf(), claims) > 0
    ensures forall i :: 0 <= i < |shares| ==>
      claims[i].key == shares[i].key && (shares[i].weight.units == 0 ==> claims[i].weight == 0)
  {
    ValidatedClaims(shares, claims);
  }

  // ----- Which shares are refused -----

  predicate SomeNegativeWeight(shares: seq<Share>) {
    exists i :: 0 <= i < |shares| && shares[i].weight.units < 0
  }

  predicate AllZero(shares: seq<Share>) {
    forall i :: 0 <= i < |shares| ==> shares[i].weight.units == 0
  }

  /** At the scale of share `j`, the weight of share `i` needs more than 38 digits. */
  predicate TooPreciseAt(shares: seq<Share>, i: nat, j: nat) {
    && i < |shares| && j < |shares| && shares[i].weight.scale <= shares[j].weight.scale
    && shares[i].weight.units * Pow10(shares[j].weight.scale - shares[i].weight.scale) >= Pow10(38)
  }

  ghost predicate SomeTooPrecise(shares: seq<Share>) {
    exists i: nat, j: nat :: TooPreciseAt(shares, i, j)
  }

  lemma {:induction false} Pow10Grows(a: nat, b: nat)
    requires a <= b
    ensures Pow10(a) <= Pow10(b)
    decreases b
  {
    if a < b {
      Pow10Grows(a, b - 1);
    }
  }

  lemma TimesGrows(u: nat, p: nat, q: nat)
    requires p <= q
    ensures u * p <= u * q
  {
  }

  lemma RescaleUp(d: Decimal, scale: nat)
    requires d.units >= 0 && d.scale <= scale <= MAX_SCALE
    ensures Rescale(d, scale).Ok? <==> d.units * Pow10(scale - d.scale) < Pow10(38)
  {
    MakeFits(UnitsAt(d, scale), scale);
  }

  lemma RescaleTo(shares: seq<Share>, i: nat, top: nat)
    requires i < |shares| && top < |shares| && shares[i].weight.units >= 0
    requires shares[i].weight.scale <= shares[top].weight.scale <= MAX_SCALE
    ensures Rescale(shares[i].weight, shares[top].weight.scale).Ok? <==> !TooPreciseAt(shares, i, top)
  {
    RescaleUp(shares[i].weight, shares[top].weight.scale);
  }

  lemma TopIsWorst(shares: seq<Share>, i: nat, j: nat, top: nat)
    requires TooPreciseAt(shares, i, j) && top < |shares| && shares[i].weight.units >= 0
    requires shares[j].weight.scale <= shares[top].weight.scale
    ensures TooPreciseAt(shares, i, top)
  {
    var u, low, high := shares[i].weight.units, shares[j].weight.scale - shares[i].weight.scale, shares[top].weight.scale - shares[i].weight.scale;
    Pow10Grows(low, high);
    TimesGrows(u, Pow10(low), Pow10(high));
  }

  predicate FitsAt(shares: seq<Share>, i: nat, scale: nat) {
    i < |shares| && Rescale(shares[i].weight, scale).Ok?
  }

  lemma TooPreciseSomewhere(shares: seq<Share>, top: nat)
    requires WeightsRepresentable(shares) && top < |shares| && !SomeNegative(shares)
    requires forall i :: 0 <= i < |shares| ==> shares[i].weight.scale <= shares[top].weight.scale
    ensures SomeTooPrecise(shares) <==> exists i: nat :: i < |shares| && !FitsAt(shares, i, shares[top].weight.scale)
  {
    forall i: nat | i < |shares|
      ensures FitsAt(shares, i, shares[top].weight.scale) <==> !TooPreciseAt(shares, i, top)
    {
      assert shares[i] in shares && shares[top] in shares;
      RescaleTo(shares, i, top);
    }
    forall i: nat, j: nat | TooPreciseAt(shares, i, j)
      ensures TooPreciseAt(shares, i, top)
    {
      assert shares[i] in shares;
      TopIsWorst(shares, i, j, top);
    }
  }

  lemma TooPreciseScaled(shares: seq<Share>, scale: nat)
    requires WeightsRepresentable(shares) && shares != [] && scale == MaxScale(shares) && !SomeNegative(shares)
    ensures Scaled(shares, scale).None? <==> SomeTooPrecise(shares)
  {
    MaxScaleBounds(shares);
    ScaledClaims(shares, scale);
    var top :| 0 <= top < |shares| && shares[top].weight.scale == scale;
    TooPreciseSomewhere(shares, top);
    assert forall i: nat :: i < |shares| ==> (FitsAt(shares, i, scale) <==> Rescale(shares[i].weight, scale).Ok?);
  }

  lemma {:induction false} ZeroSum(claims: seq<Claim>)
    ensures Sum(WeightOf(), claims) >= 0
    ensures Sum(WeightOf(), claims) == 0 <==> forall i :: 0 <= i < |claims| ==> claims[i].weight == 0
  {
    if claims != [] {
      ZeroSum(claims[1..]);
      assert forall i :: 0 < i < |claims| ==> claims[i] == claims[1..][i - 1];
      assert forall i :: 0 <= i < |claims[1..]| ==> claims[1..][i] == claims[i + 1];
    }
  }

  lemma ZeroClaims(shares: seq<Share>, scale: nat)
    requires WeightsRepresentable(shares) && scale == MaxScale(shares) && !SomeNegative(shares) && Scaled(shares, scale).Some?
    ensures Sum(WeightOf(), Scaled(shares, scale).value) == 0 <==> AllZero(shares)
  {
    MaxScaleBounds(shares);
    ScaledClaims(shares, scale);
    var claims := Scaled(shares, scale).value;
    ZeroSum(claims);
    forall i | 0 <= i < |shares|
      ensures claims[i].weight == 0 <==> shares[i].weight.units == 0
    {
      var units, p := shares[i].weight.units, Pow10(scale - shares[i].weight.scale);
      if units != 0 {
        NonZeroProduct(units, p);
      }
    }
  }

  /** Each refusal has exactly its cause, and the causes are looked at in this order. */
  lemma RefusalsHaveCauses(shares: seq<Share>)
    requires WeightsRepresentable(shares)
    ensures Validated(shares) == Err(NoShares) <==> shares == []
    ensures Validated(shares) == Err(DuplicateKey) <==> shares != [] && !DistinctKeys(shares)
    ensures Validated(shares) == Err(NegativeWeight) <==> shares != [] && DistinctKeys(shares) && SomeNegativeWeight(shares)
    ensures Validated(shares) == Err(WeightTooPrecise) <==>
      shares != [] && DistinctKeys(shares) && !SomeNegativeWeight(shares) && SomeTooPrecise(shares)
    ensures Validated(shares) == Err(AllWeightsZero) <==>
      shares != [] && DistinctKeys(shares) && !SomeNegativeWeight(shares) && !SomeTooPrecise(shares) && AllZero(shares)
  {
    NegativeSomewhere(shares);
    if shares != [] && !SomeNegative(shares) {
      TooPreciseScaled(shares, MaxScale(shares));
      if Scaled(shares, MaxScale(shares)).Some? {
        ZeroClaims(shares, MaxScale(shares));
      }
    }
  }

  lemma NegativeSomewhere(shares: seq<Share>)
    ensures SomeNegative(shares) <==> SomeNegativeWeight(shares)
  {
    if SomeNegative(shares) {
      var s :| s in shares && s.weight.units < 0;
    }
    if SomeNegativeWeight(shares) {
      var i :| 0 <= i < |shares| && shares[i].weight.units < 0;
      assert shares[i] in shares;
    }
  }

  lemma PortionNonNegative(units: nat, claims: seq<Claim>, c: Claim)
    requires Sum(WeightOf(), claims) > 0
    ensures Portion(units, claims)(c) >= 0
  {
    var all := Sum(WeightOf(), claims);
    Nest(0, units, c.weight);
    DivisionParts(units * c.weight, all);
    assert FloorOf(units, all)(c) == (units * c.weight) / all;
  }

  /** No part is larger than the total, so none needs more digits than the total has. */
  lemma PortionWithinTotal(units: nat, claims: seq<Claim>, c: Claim)
    requires Sum(WeightOf(), claims) > 0 && DistinctClaims(claims) && c in claims
    ensures 0 <= Portion(units, claims)(c) <= units
  {
    forall x: Claim
      ensures Portion(units, claims)(x) >= 0
    {
      PortionNonNegative(units, claims, x);
    }
    PartsSumToTotal(units, claims);
    SumBoundsEach(Portion(units, claims), claims, c);
  }

  lemma PartFits(total: Decimal, claims: seq<Claim>, c: Claim)
    requires Representable(total) && Sum(WeightOf(), claims) > 0 && DistinctClaims(claims) && c in claims
    ensures FromUnits(Signed(total.units) * Portion(Abs(total.units), claims)(c), total.scale) == Ok(PartOf(total, claims, c).amount)
  {
    PortionWithinTotal(Abs(total.units), claims, c);
    DigitCountFits(Abs(total.units), MAX_PRECISION);
    DigitCountFits(Abs(PartOf(total, claims, c).amount.units), MAX_PRECISION);
  }

  /** Floors and remainders of every claim, in input order. */
  method Divide(units: nat, claims: seq<Claim>, all: nat) returns (base: array<int>, entries: seq<Entry>)
    requires all > 0
    ensures fresh(base) && base.Length == |claims|
    ensures forall i :: 0 <= i < |claims| ==> base[i] == FloorOf(units, all)(claims[i])
    ensures DescribesAll(entries, claims, units, all)
  {
    base, entries := new int[|claims|], [];
    for i := 0 to |claims|
      invariant |entries| == i
      invariant forall j :: 0 <= j < i ==> base[j] == FloorOf(units, all)(claims[j])
      invariant forall j :: 0 <= j < i ==> Describes(entries[j], claims, j, units, all)
    {
      base[i] := units * claims[i].weight / all;
      entries := entries + [Entry(claims[i].key, i, units * claims[i].weight % all)];
    }
  }

  /** The magnitudes of the parts; the loop over the sorted remainders always ends with nothing left. */
  method Portions(units: nat, claims: seq<Claim>) returns (base: array<int>)
    requires Sum(WeightOf(), claims) > 0 && DistinctClaims(claims)
    ensures fresh(base) && base.Length == |claims|
    ensures forall i :: 0 <= i < |claims| ==> base[i] == Portion(units, claims)(claims[i])
    ensures LargestRemainder(units, Sum(WeightOf(), claims), claims, base[..])
  {
    var all := Sum(WeightOf(), claims);
    var entries;
    base, entries := Divide(units, claims, all);
    var leftover := Leftover(units, claims);
    LeftoverBounds(units, claims);
    var order := Sort(EntryAhead(), entries);
    OrderVisits(entries, claims, units, all);
    var left := HandOut(base, order, leftover);
    forall i | 0 <= i < |claims|
      ensures base[i] == Portion(units, claims)(claims[i])
    {
      assert Visited(order, i);
      var k :| 0 <= k < |order| && order[k].index == i;
      assert base[order[k].index] == FloorOf(units, all)(claims[i]) + if k < leftover then 1 else 0;
    }
    PortionsAreLargestRemainder(units, claims, all, base[..]);
  }

  /** The parts as money: no amount is refused for its digits. */
  method Build(total: Decimal, claims: seq<Claim>, base: array<int>) returns (parts: seq<Part>)
    requires Representable(total) && Sum(WeightOf(), claims) > 0 && DistinctClaims(claims) && base.Length == |claims|
    requires forall i :: 0 <= i < |claims| ==> base[i] == Portion(Abs(total.units), claims)(claims[i])
    ensures parts == Parts(total, claims)
  {
    parts := [];
    for i := 0 to |claims|
      invariant |parts| == i
      invariant forall j :: 0 <= j < i ==> parts[j] == PartOf(total, claims, claims[j])
    {
      PartFits(total, claims, claims[i]);
      var amount := FromUnits(Signed(total.units) * base[i], total.scale);
      parts := parts + [Part(claims[i].key, amount.value)];
    }
  }

  /** Splits the total over the shares, or refuses with the first fault in the order the checks are made. */
  method Allocate(total: Decimal, shares: seq<Share>) returns (r: Result<seq<Part>, Refusal>)
    requires Representable(total) && WeightsRepresentable(shares)
    ensures Validated(shares).Err? ==> r == Err(Validated(shares).error)
    ensures Validated(shares).Ok? ==> Sum(WeightOf(), Validated(shares).value) > 0 && r == Ok(Parts(total, Validated(shares).value))
    ensures r.Ok? ==> Validated(shares).Ok? && SharesOut(total, Validated(shares).value, r.value)
  {
    var validated := Validated(shares);
    if validated.Err? {
      return Err(validated.error);
    }
    ClaimsShape(shares, validated.value);
    var base := Portions(Abs(total.units), validated.value);
    var parts := Build(total, validated.value, base);
    PartsShareOut(total, validated.value);
    return Ok(parts);
  }

  // ----- The largest-remainder shares, from units and weights alone -----

  /** One claim comes before another when leftover units are given out: the larger remainder, or the smaller key at equal ones. */
  predicate GoesFirst(units: nat, all: nat, a: Claim, b: Claim)
    requires all > 0
  {
    var r, s := (units * a.weight) % all, (units * b.weight) % all;
    r > s || (r == s && Before(a.key, b.key))
  }

  function SumInts(shares: seq<int>): int {
    if shares == [] then 0 else shares[0] + SumInts(shares[1..])
  }

  /**
   Everybody receives the floor of the exact share or one unit more, those who receive more go before
   those who do not, and the shares sum to the units.
   */
  predicate LargestRemainder(units: nat, all: nat, claims: seq<Claim>, shares: seq<int>)
    requires all > 0
  {
    && |shares| == |claims| && SumInts(shares) == units
    && (forall i :: 0 <= i < |claims| ==> FloorOrMore(units, all, claims[i], shares[i]))
    && (forall i, j :: 0 <= i < |claims| && 0 <= j < |claims|
          && GetsMore(units, all, claims[i], shares[i]) && !GetsMore(units, all, claims[j], shares[j])
          ==> GoesFirst(units, all, claims[i], claims[j]))
  }

  predicate GetsMore(units: nat, all: nat, c: Claim, share: int)
    requires all > 0
  {
    share == (units * c.weight) / all + 1
  }

  predicate FloorOrMore(units: nat, all: nat, c: Claim, share: int)
    requires all > 0
  {
    share == (units * c.weight) / all || GetsMore(units, all, c, share)
  }

  lemma AheadGoesFirst(units: nat, all: nat, a: Claim, b: Claim)
    requires all > 0 && Ahead(units, all)(a, b)
    ensures GoesFirst(units, all, a, b)
  {
    assert RemainderOf(units, all)(a) == (units * a.weight) % all && RemainderOf(units, all)(b) == (units * b.weight) % all;
  }

  /** A claim within the leftover goes before one that is not. */
  lemma ExtraGoesFirst(units: nat, claims: seq<Claim>, all: nat, a: Claim, b: Claim)
    requires all == Sum(WeightOf(), claims) > 0 && DistinctClaims(claims) && a in claims && b in claims
    requires Rank(units, claims, a) < Leftover(units, claims) <= Rank(units, claims, b)
    ensures GoesFirst(units, all, a, b)
  {
    ClaimsComparable(units, all, claims);
    var i :| 0 <= i < |claims| && claims[i] == a;
    var j :| 0 <= j < |claims| && claims[j] == b;
    assert i < j ==> Ahead(units, all)(claims[i], claims[j]) || Ahead(units, all)(claims[j], claims[i]);
    assert j < i ==> Ahead(units, all)(claims[j], claims[i]) || Ahead(units, all)(claims[i], claims[j]);
    if Ahead(units, all)(b, a) {
      RankKeepsOrder(units, claims, b, a);
    }
    AheadGoesFirst(units, all, a, b);
  }

  lemma PortionParts(units: nat, claims: seq<Claim>, all: nat, c: Claim)
    requires all == Sum(WeightOf(), claims) > 0
    ensures FloorOrMore(units, all, c, Portion(units, claims)(c))
    ensures GetsMore(units, all, c, Portion(units, claims)(c)) <==> Rank(units, claims, c) < Leftover(units, claims)
  {
    assert FloorOf(units, all)(c) == (units * c.weight) / all;
  }

  lemma {:induction false} SumOfShares(f: Claim -> int, claims: seq<Claim>, shares: seq<int>)
    requires |shares| == |claims| && forall i :: 0 <= i < |claims| ==> shares[i] == f(claims[i])
    ensures SumInts(shares) == Sum(f, claims)
  {
    if claims != [] {
      SumOfShares(f, claims[1..], shares[1..]);
    }
  }

  lemma PortionsAreLargestRemainder(units: nat, claims: seq<Claim>, all: nat, shares: seq<int>)
    requires all == Sum(WeightOf(), claims) > 0 && DistinctClaims(claims) && |shares| == |claims|
    requires forall i :: 0 <= i < |claims| ==> shares[i] == Portion(units, claims)(claims[i])
    ensures LargestRemainder(units, all, claims, shares)
  {
    SumOfShares(Portion(units, claims), claims, shares);
    PartsSumToTotal(units, claims);
    forall i | 0 <= i < |claims|
      ensures FloorOrMore(units, all, claims[i], shares[i])
      ensures GetsMore(units, all, claims[i], shares[i]) <==> Rank(units, claims, claims[i]) < Leftover(units, claims)
    {
      PortionParts(units, claims, all, claims[i]);
    }
    forall i, j | 0 <= i < |claims| && 0 <= j < |claims|
      && GetsMore(units, all, claims[i], shares[i]) && !GetsMore(units, all, claims[j], shares[j])
      ensures GoesFirst(units, all, claims[i], claims[j])
    {
      ExtraGoesFirst(units, claims, all, claims[i], claims[j]);
    }
  }

  /** The positions of those who receive one unit more. */
  function More(units: nat, all: nat, claims: seq<Claim>, shares: seq<int>): set<nat>
    requires all > 0 && |shares| == |claims|
  {
    set i: nat | i < |claims| && GetsMore(units, all, claims[i], shares[i])
  }

  lemma {:induction false} SumIsFloorsAndMore(units: nat, all: nat, claims: seq<Claim>, shares: seq<int>)
    requires all > 0 && |shares| == |claims| && forall i :: 0 <= i < |claims| ==> FloorOrMore(units, all, claims[i], shares[i])
    ensures SumInts(shares) == Sum(FloorOf(units, all), claims) + |More(units, all, claims, shares)|
  {
    if claims == [] {
      assert More(units, all, claims, shares) == {};
    } else {
      var rest := More(units, all, claims[1..], shares[1..]);
      SumIsFloorsAndMore(units, all, claims[1..], shares[1..]);
      ShiftedMore(units, all, claims, shares);
      assert FloorOf(units, all)(claims[0]) == (units * claims[0].weight) / all;
    }
  }

  lemma ShiftedMore(units: nat, all: nat, claims: seq<Claim>, shares: seq<int>)
    requires all > 0 && |shares| == |claims| > 0
    ensures |More(units, all, claims, shares)| ==
      |More(units, all, claims[1..], shares[1..])| + if GetsMore(units, all, claims[0], shares[0]) then 1 else 0
  {
    var whole, rest := More(units, all, claims, shares), More(units, all, claims[1..], shares[1..]);
    var tail := whole - {0};
    forall i: nat
      ensures i in rest <==> i + 1 in tail
    {
      if i + 1 < |claims| {
        assert claims[1..][i] == claims[i + 1] && shares[1..][i] == shares[i + 1];
      }
    }
    ShiftedSize(tail, rest);
    assert whole == if GetsMore(units, all, claims[0], shares[0]) then tail + {0} else tail;
  }

  lemma {:induction false} ShiftedSize(tail: set<nat>, shifted: set<nat>)
    requires 0 !in tail && forall i: nat :: i in shifted <==> i + 1 in tail
    ensures |tail| == |shifted|
    decreases |tail|
  {
    if tail == {} {
      assert shifted == {};
    } else {
      var i :| i in tail;
      ShiftedSize(tail - {i}, shifted - {i - 1});
    }
  }

  lemma GoesFirstOneWay(units: nat, all: nat, a: Claim, b: Claim)
    requires all > 0 && GoesFirst(units, all, a, b)
    ensures !GoesFirst(units, all, b, a)
  {
    if Before(a.key, b.key) && Before(b.key, a.key) {
      BeforeTransitive(a.key, b.key, a.key);
      BeforeIrreflexive(a.key);
    }
  }

  lemma WithinIsAll(a: set<nat>, b: set<nat>)
    requires |a| == |b| && a <= b
    ensures a == b
  {
    assert b == a + (b - a);
    assert |b| == |a| + |b - a|;
  }

  lemma SameSizeDiffers(a: set<nat>, b: set<nat>) returns (i: nat, j: nat)
    requires |a| == |b| && a != b
    ensures i in a && i !in b && j in b && j !in a
  {
    if a <= b {
      WithinIsAll(a, b);
    }
    if b <= a {
      WithinIsAll(b, a);
    }
    i :| i in a && i !in b;
    j :| j in b && j !in a;
  }

  /** There is only one way to share by largest remainders. */
  lemma LargestRemainderOnce(units: nat, all: nat, claims: seq<Claim>, x: seq<int>, y: seq<int>)
    requires all > 0 && LargestRemainder(units, all, claims, x) && LargestRemainder(units, all, claims, y)
    ensures x == y
  {
    SumIsFloorsAndMore(units, all, claims, x);
    SumIsFloorsAndMore(units, all, claims, y);
    var a, b := More(units, all, claims, x), More(units, all, claims, y);
    if a != b {
      var i, j := SameSizeDiffers(a, b);
      GoesFirstOneWay(units, all, claims[i], claims[j]);
    }
    forall i | 0 <= i < |claims|
      ensures x[i] == y[i]
    {
      assert FloorOrMore(units, all, claims[i], x[i]) && FloorOrMore(units, all, claims[i], y[i]);
      assert i in a <==> i in b;
    }
  }

  /** The magnitudes of some parts. */
  function Magnitudes(parts: seq<Part>): (r: seq<int>)
    ensures |r| == |parts|
  {
    seq(|parts|, i requires 0 <= i < |parts| => Abs(parts[i].amount.units))
  }

  /** The parts are those of the claims in order, at the total's scale and with its sign, shared by largest remainders. */
  predicate SharesOut(total: Decimal, claims: seq<Claim>, parts: seq<Part>)
    requires Sum(WeightOf(), claims) > 0
  {
    && |parts| == |claims|
    && (forall i :: 0 <= i < |parts| ==> parts[i].key == claims[i].key && parts[i].amount.scale == total.scale)
    && (forall i :: 0 <= i < |parts| ==> if total.units < 0 then parts[i].amount.units <= 0 else parts[i].amount.units >= 0)
    && LargestRemainder(Abs(total.units), Sum(WeightOf(), claims), claims, Magnitudes(parts))
  }

  lemma PartsShareOut(total: Decimal, claims: seq<Claim>)
    requires Sum(WeightOf(), claims) > 0 && DistinctClaims(claims)
    ensures SharesOut(total, claims, Parts(total, claims))
  {
    var parts := Parts(total, claims);
    forall i | 0 <= i < |parts|
      ensures Magnitudes(parts)[i] == Portion(Abs(total.units), claims)(claims[i])
      ensures if total.units < 0 then parts[i].amount.units <= 0 else parts[i].amount.units >= 0
    {
      PortionNonNegative(Abs(total.units), claims, claims[i]);
      SignedMagnitude(total.units, Portion(Abs(total.units), claims)(claims[i]));
    }
    PortionsAreLargestRemainder(Abs(total.units), claims, Sum(WeightOf(), claims), Magnitudes(parts));
  }

  lemma SignedMagnitude(total: int, p: int)
    requires p >= 0
    ensures Abs(Signed(total) * p) == p && (if total < 0 then Signed(total) * p <= 0 else Signed(total) * p >= 0)
  {
  }

  // ----- What allocation guarantees -----

  function SumParts(parts: seq<Part>): int {
    if parts == [] then 0 else parts[0].amount.units + SumParts(parts[1..])
  }

  lemma {:induction false} SumOfParts(total: Decimal, claims: seq<Claim>, from: nat)
    requires Sum(WeightOf(), claims) > 0 && from <= |claims|
    ensures SumParts(Parts(total, claims)[from..]) == Signed(total.units) * Sum(Portion(Abs(total.units), claims), claims[from..])
    decreases |claims| - from
  {
    if from < |claims| {
      SumOfParts(total, claims, from + 1);
      assert Parts(total, claims)[from..][1..] == Parts(total, claims)[from + 1..];
      assert claims[from..][1..] == claims[from + 1..];
    }
  }

  /** The parts sum exactly to the total. */
  lemma AllocationSumsToTotal(total: Decimal, shares: seq<Share>, claims: seq<Claim>)
    requires WeightsRepresentable(shares) && Validated(shares) == Ok(claims)
    ensures Sum(WeightOf(), claims) > 0 && SumParts(Parts(total, claims)) == total.units
  {
    ClaimsShape(shares, claims);
    SumOfParts(total, claims, 0);
    PartsSumToTotal(Abs(total.units), claims);
    assert Parts(total, claims)[0..] == Parts(total, claims) && claims[0..] == claims;
  }

  lemma WithinOneUnitSigned(total: int, p: int, weight: int, all: int)
    requires NearExactShare(p, Abs(total), weight, all)
    ensures NearExactShare(Signed(total) * p, total, weight, all)
  {
    if total < 0 {
      assert Signed(total) * p == -p;
      assert (-p) * all == -(p * all) && (-total) * weight == -(total * weight);
    }
  }

  lemma PartNear(total: Decimal, claims: seq<Claim>, c: Claim)
    requires Sum(WeightOf(), claims) > 0 && DistinctClaims(claims) && c in claims
    ensures NearExactShare(PartOf(total, claims, c).amount.units, total.units, c.weight, Sum(WeightOf(), claims))
    ensures c.weight == 0 ==> PartOf(total, claims, c).amount.units == 0
  {
    var p := Portion(Abs(total.units), claims)(c);
    WithinOneUnit(Abs(total.units), claims, c);
    WithinOneUnitSigned(total.units, p, c.weight, Sum(WeightOf(), claims));
    if c.weight == 0 {
      ZeroWeightGetsNothing(Abs(total.units), claims, c);
    }
  }

  /** A part is strictly within one minor unit of `total * weight / all`, and zero for a zero weight. */
  lemma PartIsNearExactShare(total: Decimal, shares: seq<Share>, claims: seq<Claim>, i: nat)
    requires WeightsRepresentable(shares) && Validated(shares) == Ok(claims) && i < |shares|
    ensures |claims| == |shares| && Sum(WeightOf(), claims) > 0
    ensures Parts(total, claims)[i].key == shares[i].key && Parts(total, claims)[i].amount.scale == total.scale
    ensures NearExactShare(Parts(total, claims)[i].amount.units, total.units, claims[i].weight, Sum(WeightOf(), claims))
    ensures shares[i].weight.units == 0 ==> Parts(total, claims)[i].amount.units == 0
  {
    ClaimsShape(shares, claims);
    PartNear(total, claims, claims[i]);
  }

  /** A heavier share never gets less in magnitude, weights being compared as the decimals they are. */
  lemma HeavierShareGetsNoLess(total: Decimal, shares: seq<Share>, claims: seq<Claim>, i: nat, j: nat)
    requires WeightsRepresentable(shares) && Validated(shares) == Ok(claims) && i < |shares| && j < |shares|
    requires Compare(shares[i].weight, shares[j].weight) < 0
    ensures |claims| == |shares| && Sum(WeightOf(), claims) > 0
    ensures Abs(Parts(total, claims)[i].amount.units) <= Abs(Parts(total, claims)[j].amount.units)
  {
    ClaimsShape(shares, claims);
    LighterClaim(shares, claims, i, j);
    HeavierGetsNoLess(Abs(total.units), claims, claims[i], claims[j]);
    PortionNonNegative(Abs(total.units), claims, claims[i]);
    PortionNonNegative(Abs(total.units), claims, claims[j]);
  }

  lemma UnitsAtNonNegative(d: Decimal, scale: nat)
    requires d.scale <= scale && d.units >= 0
    ensures UnitsAt(d, scale) >= 0
  {
    Nest(0, Pow10(scale - d.scale), d.units);
  }

  lemma LighterClaim(shares: seq<Share>, claims: seq<Claim>, i: nat, j: nat)
    requires WeightsRepresentable(shares) && Validated(shares) == Ok(claims) && i < |shares| && j < |shares|
    requires Compare(shares[i].weight, shares[j].weight) < 0
    ensures |claims| == |shares| && claims[i].weight < claims[j].weight
  {
    ValidatedClaims(shares, claims);
    var a, b, scale := shares[i].weight, shares[j].weight, MaxScale(shares);
    CompareAt(a, b, scale);
    assert shares[i] in shares && shares[j] in shares;
    UnitsAtNonNegative(a, scale);
    UnitsAtNonNegative(b, scale);
  }

  // ----- Any permutation of the input gives the same parts by key -----

  lemma {:induction false} DistinctCountsOnce(shares: seq<Share>, s: Share)
    requires DistinctKeys(shares)
    ensures multiset(shares)[s] <= 1
  {
    if shares != [] {
      assert shares == [shares[0]] + shares[1..];
      DistinctCountsOnce(shares[1..], s);
      if s == shares[0] {
        assert s !in shares[1..];
      }
    }
  }

  lemma RepeatCountsTwice(shares: seq<Share>, i: nat, j: nat)
    requires i < j < |shares| && shares[i] == shares[j]
    ensures multiset(shares)[shares[i]] >= 2
  {
    assert shares == shares[..j] + [shares[j]] + shares[j + 1..];
    assert shares[i] in shares[..j];
    assert multiset(shares) == multiset(shares[..j]) + multiset{shares[j]} + multiset(shares[j + 1..]);
    assert shares[i] in multiset(shares[..j]);
  }

  lemma DistinctKeysPermuted(a: seq<Share>, b: seq<Share>)
    requires multiset(a) == multiset(b) && DistinctKeys(a)
    ensures DistinctKeys(b)
  {
    SameMembers(a, b);
    forall i, j | 0 <= i < j < |b|
      ensures b[i].key != b[j].key
    {
      assert b[i] in a && b[j] in a;
      DistinctCountsOnce(a, b[i]);
      if b[i] == b[j] {
        RepeatCountsTwice(b, i, j);
      }
    }
  }

  lemma MaxScalePermuted(a: seq<Share>, b: seq<Share>)
    requires WeightsRepresentable(a) && WeightsRepresentable(b) && forall s :: s in a <==> s in b
    requires a != [] && b != []
    ensures MaxScale(a) == MaxScale(b)
  {
    MaxScaleBounds(a);
    MaxScaleBounds(b);
  }

  predicate Scalable(shares: seq<Share>, scale: nat) {
    scale <= MAX_SCALE && forall s :: s in shares ==> s.weight.units >= 0 && s.weight.scale <= scale
  }

  lemma ScaledMembers(a: seq<Share>, b: seq<Share>, scale: nat)
    requires Scalable(a, scale) && Scalable(b, scale) && forall s :: s in a ==> s in b
    requires Scaled(b, scale).Some?
    ensures Scaled(a, scale).Some?
    ensures forall c :: c in Scaled(a, scale).value ==> c in Scaled(b, scale).value
  {
    ScaledClaims(a, scale);
    ScaledClaims(b, scale);
    forall i | 0 <= i < |a|
      ensures Rescale(a[i].weight, scale).Ok?
    {
      assert a[i] in b;
      var j :| 0 <= j < |b| && b[j] == a[i];
    }
    forall c | c in Scaled(a, scale).value
      ensures c in Scaled(b, scale).value
    {
      var i :| 0 <= i < |a| && Scaled(a, scale).value[i] == c;
      assert a[i] in b;
      var j :| 0 <= j < |b| && b[j] == a[i];
      assert Scaled(b, scale).value[j] == c;
    }
  }

  lemma ScaledDistinct(shares: seq<Share>, scale: nat)
    requires Scalable(shares, scale) && DistinctKeys(shares) && Scaled(shares, scale).Some?
    ensures DistinctClaims(Scaled(shares, scale).value)
  {
    ScaledClaims(shares, scale);
  }

  /** Validation, its refusals included, does not depend on the order of the shares. */
  lemma ValidatedPermuted(a: seq<Share>, b: seq<Share>)
    requires WeightsRepresentable(a) && multiset(a) == multiset(b)
    ensures WeightsRepresentable(b)
    ensures Validated(a).Err? || Validated(b).Err? ==> Validated(a) == Validated(b)
    ensures Validated(a).Ok? && Validated(b).Ok? ==> forall c :: c in Validated(a).value <==> c in Validated(b).value
  {
    SameMembers(a, b);
    assert |a| == |multiset(a)| == |multiset(b)| == |b|;
    assert DistinctKeys(a) <==> DistinctKeys(b) by {
      if DistinctKeys(a) {
        DistinctKeysPermuted(a, b);
      }
      if DistinctKeys(b) {
        DistinctKeysPermuted(b, a);
      }
    }
    if a != [] && DistinctKeys(a) && !SomeNegative(a) {
      MaxScalePermuted(a, b);
      MaxScaleBounds(a);
      ScaledPermuted(a, b, MaxScale(a));
    }
  }

  lemma ScaledPermuted(a: seq<Share>, b: seq<Share>, scale: nat)
    requires Scalable(a, scale) && Scalable(b, scale) && DistinctKeys(a) && DistinctKeys(b)
    requires forall s :: s in a <==> s in b
    ensures Scaled(a, scale).None? <==> Scaled(b, scale).None?
    ensures Scaled(a, scale).Some? ==> forall c :: c in Scaled(a, scale).value <==> c in Scaled(b, scale).value
    ensures Scaled(a, scale).Some? ==> Sum(WeightOf(), Scaled(a, scale).value) == Sum(WeightOf(), Scaled(b, scale).value)
  {
    if Scaled(b, scale).Some? {
      ScaledMembers(a, b, scale);
    }
    if Scaled(a, scale).Some? {
      ScaledMembers(b, a, scale);
      ScaledDistinct(a, scale);
      ScaledDistinct(b, scale);
      SumPermuted(WeightOf(), Scaled(a, scale).value, Scaled(b, scale).value);
    }
  }

  lemma SameClaim(x: seq<Claim>, y: seq<Claim>, i: nat, j: nat)
    requires i < |x| && j < |y| && x[i].key == y[j].key && DistinctClaims(y) && x[i] in y
    ensures x[i] == y[j]
  {
    var k :| 0 <= k < |y| && y[k] == x[i];
  }

  lemma PartPermuted(total: Decimal, x: seq<Claim>, y: seq<Claim>, c: Claim)
    requires DistinctClaims(x) && DistinctClaims(y) && forall d :: d in x <==> d in y
    requires Sum(WeightOf(), x) > 0 && Sum(WeightOf(), y) > 0
    ensures PartOf(total, x, c) == PartOf(total, y, c)
  {
    PortionPermuted(Abs(total.units), x, y, c);
  }

  /** The amount a key receives does not depend on where its share stands in the input. */
  lemma AllocationIgnoresOrder(total: Decimal, a: seq<Share>, b: seq<Share>, x: seq<Claim>, y: seq<Claim>, i: nat, j: nat)
    requires WeightsRepresentable(a) && multiset(a) == multiset(b)
    requires Validated(a) == Ok(x) && Validated(b) == Ok(y)
    requires i < |a| && j < |b| && a[i].key == b[j].key
    ensures |x| == |a| && |y| == |b| && Sum(WeightOf(), x) > 0 && Sum(WeightOf(), y) > 0
    ensures Parts(total, x)[i] == Parts(total, y)[j]
  {
    ValidatedPermuted(a, b);
    ClaimsShape(a, x);
    ClaimsShape(b, y);
    assert x[i] in x;
    SameClaim(x, y, i, j);
    PartPermuted(total, x, y, x[i]);
  }
}
