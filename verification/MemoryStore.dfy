/**
 The in-process key/value store with least-recently-used eviction and expiry, and how stores of
 different capacities relate when they see the same operations and clock.
 */
module MemoryStore {
  import opened Wrappers

  datatype Entry<V> = Entry(value: V, expiresAt: Option<int>)

  /** The entries as an ordered map holds them: the least recently used first. */
  datatype Item<V> = Item(key: string, entry: Entry<V>)

  function Find<V>(items: seq<Item<V>>, key: string): Option<Entry<V>> {
    if items == [] then None
    else if items[0].key == key then Some(items[0].entry)
    else Find(items[1..], key)
  }

  function Without<V>(items: seq<Item<V>>, key: string): seq<Item<V>> {
    if items == [] then []
    else if items[0].key == key then Without(items[1..], key)
    else [items[0]] + Without(items[1..], key)
  }

  predicate Expired<V>(entry: Entry<V>, now: int) {
    entry.expiresAt.Some? && entry.expiresAt.value <= now
  }

  /** The newest items that fit; without a capacity, all of them. */
  function Newest<V>(items: seq<Item<V>>, capacity: Option<nat>): seq<Item<V>> {
    if capacity.None? || |items| <= capacity.value then items else items[|items| - capacity.value..]
  }

  datatype Operation<V> = Get(key: string, now: int) | Set(key: string, entry: Entry<V>) | Delete(key: string)

  /** What a get tells its caller. */
  function Returned<V>(items: seq<Item<V>>, key: string, now: int): Option<V> {
    if Hit(items, key, now) then Some(Find(items, key).value.value) else None
  }

  /** Setting a value at a time, for so many seconds or for ever. */
  function SetAt<V>(key: string, value: V, ttlSeconds: Option<int>, now: int): Operation<V> {
    Set(key, Entry(value, if ttlSeconds.None? then None else Some(now + ttlSeconds.value * 1000)))
  }

  /** A get that finds a live entry. */
  predicate Hit<V>(items: seq<Item<V>>, key: string, now: int) {
    Find(items, key).Some? && !Expired(Find(items, key).value, now)
  }

  function Apply<V>(items: seq<Item<V>>, capacity: Option<nat>, op: Operation<V>): seq<Item<V>> {
    match op
    case Get(key, now) =>
      if Find(items, key).None? then items
      else if Expired(Find(items, key).value, now) then Without(items, key)
      else Without(items, key) + [Item(key, Find(items, key).value)]
    case Set(key, entry) => Newest(Without(items, key) + [Item(key, entry)], capacity)
    case Delete(key) => Without(items, key)
  }

  function Exec<V>(capacity: Option<nat>, ops: seq<Operation<V>>): seq<Item<V>> {
    if ops == [] then [] else Apply(Exec(capacity, ops[..|ops| - 1]), capacity, ops[|ops| - 1])
  }

  // ----- The store -----

  class Store<V(==)> {
    var entries: seq<Item<V>>
    const maxEntries: nat
    const defaultTtlSeconds: Option<int>

    predicate Valid()
      reads this
    {
      maxEntries >= 1 && |entries| <= maxEntries && DistinctKeys(entries)
    }

    /** The source refuses a capacity below one. */
    constructor (maxEntries: nat, defaultTtlSeconds: Option<int>)
      requires maxEntries >= 1
      ensures Valid() && entries == [] && this.maxEntries == maxEntries && this.defaultTtlSeconds == defaultTtlSeconds
    {
      this.maxEntries, this.defaultTtlSeconds, entries := maxEntries, defaultTtlSeconds, [];
    }

    method Get(key: string, now: int) returns (value: Option<V>)
      requires Valid()
      modifies this`entries
      ensures Valid() && entries == Apply(old(entries), Some(maxEntries), Operation.Get(key, now))
      ensures value == Returned(old(entries), key, now)
    {
      ApplyKeepsShape(entries, Some(maxEntries), Operation.Get(key, now));
      var entry := Find(entries, key);
      if entry.None? {
        return None;
      }
      entries := Without(entries, key);
      if Expired(entry.value, now) {
        return None;
      }
      entries := entries + [Item(key, entry.value)];
      return Some(entry.value.value);
    }

    /** A time to live that is not positive is refused before anything changes. */
    method Set(key: string, value: V, ttlSeconds: Option<int>, now: int) returns (accepted: bool)
      requires Valid()
      modifies this`entries
      ensures Valid()
      ensures var ttl := if ttlSeconds.Some? then ttlSeconds else defaultTtlSeconds;
        && accepted == (ttl.None? || ttl.value > 0)
        && entries == if !accepted then old(entries) else Apply(old(entries), Some(maxEntries), SetAt(key, value, ttl, now))
    {
      var ttl := if ttlSeconds.Some? then ttlSeconds else defaultTtlSeconds;
      if ttl.Some? && ttl.value <= 0 {
        return false;
      }
      var entry := Entry(value, if ttl.None? then None else Some(now + ttl.value * 1000));
      ApplyKeepsShape(entries, Some(maxEntries), Operation.Set(key, entry));
      entries := Without(entries, key) + [Item(key, entry)];
      TrimToCapacity();
      return true;
    }

    /** Drops the oldest entry while there are too many. */
    method TrimToCapacity()
      modifies this`entries
      ensures entries == Newest(old(entries), Some(maxEntries))
    {
      ghost var all := entries;
      while |entries| > maxEntries
        invariant |entries| <= |all| && entries == all[|all| - |entries|..]
        invariant |entries| >= |Newest(all, Some(maxEntries))|
      {
        entries := entries[1..];
      }
    }

    method Delete(key: string)
      requires Valid()
      modifies this`entries
      ensures Valid() && entries == Apply(old(entries), Some(maxEntries), Operation<V>.Delete(key))
    {
      ApplyKeepsShape(entries, Some(maxEntries), Operation<V>.Delete(key));
      entries := Without(entries, key);
    }
  }

  // ----- Shape: distinct keys, never more entries than the capacity -----

  predicate DistinctKeys<V>(items: seq<Item<V>>) {
    forall i, j :: 0 <= i < j < |items| ==> items[i].key != items[j].key
  }

  lemma {:induction false} WithoutMembers<V>(items: seq<Item<V>>, key: string)
    ensures forall x :: x in Without(items, key) <==> x in items && x.key != key
    ensures forall j :: 0 <= j < |Without(items, key)| ==> Without(items, key)[j] in items && Without(items, key)[j].key != key
    ensures |Without(items, key)| <= |items|
    ensures Find(items, key).Some? ==> |Without(items, key)| < |items|
  {
    if items != [] {
      WithoutMembers(items[1..], key);
      assert forall x :: x in items <==> x == items[0] || x in items[1..];
    }
  }

  lemma {:induction false} WithoutDistinct<V>(items: seq<Item<V>>, key: string)
    requires DistinctKeys(items)
    ensures DistinctKeys(Without(items, key))
  {
    if items != [] {
      WithoutDistinct(items[1..], key);
      WithoutMembers(items[1..], key);
      var rest := Without(items[1..], key);
      forall j | 0 <= j < |rest|
        ensures rest[j].key != items[0].key
      {
        var i :| 0 <= i < |items[1..]| && items[1..][i] == rest[j];
        assert items[i + 1] == rest[j];
      }
    }
  }

  lemma PushDistinct<V>(items: seq<Item<V>>, item: Item<V>)
    requires DistinctKeys(items)
    ensures DistinctKeys(Without(items, item.key) + [item])
  {
    WithoutDistinct(items, item.key);
    WithoutMembers(items, item.key);
    var rest := Without(items, item.key);
    forall j | 0 <= j < |rest|
      ensures rest[j].key != item.key
    {
    }
  }

  predicate Fits<V>(items: seq<Item<V>>, capacity: Option<nat>) {
    capacity.Some? ==> |items| <= capacity.value
  }

  lemma ApplyKeepsShape<V>(items: seq<Item<V>>, capacity: Option<nat>, op: Operation<V>)
    requires DistinctKeys(items) && Fits(items, capacity)
    ensures DistinctKeys(Apply(items, capacity, op)) && Fits(Apply(items, capacity, op), capacity)
  {
    WithoutDistinct(items, op.key);
    WithoutMembers(items, op.key);
    match op
    case Get(key, _) =>
      if Find(items, key).Some? {
        PushDistinct(items, Item(key, Find(items, key).value));
      }
    case Set(key, entry) => PushDistinct(items, Item(key, entry));
    case Delete(_) =>
  }

  lemma {:induction false} ShapeAlways<V>(capacity: Option<nat>, ops: seq<Operation<V>>)
    ensures DistinctKeys(Exec(capacity, ops)) && Fits(Exec(capacity, ops), capacity)
  {
    if ops != [] {
      ShapeAlways(capacity, ops[..|ops| - 1]);
      ApplyKeepsShape(Exec(capacity, ops[..|ops| - 1]), capacity, ops[|ops| - 1]);
    }
  }

  // ----- Inclusion -----

  /** The items with the given keys, in their order. */
  function Restrict<V>(items: seq<Item<V>>, keys: set<string>): seq<Item<V>> {
    if items == [] then []
    else if items[0].key in keys then [items[0]] + Restrict(items[1..], keys)
    else Restrict(items[1..], keys)
  }

  lemma {:induction false} RestrictMembers<V>(items: seq<Item<V>>, keys: set<string>)
    ensures forall x :: x in Restrict(items, keys) <==> x in items && x.key in keys
    ensures |Restrict(items, keys)| <= |items|
  {
    if items != [] {
      RestrictMembers(items[1..], keys);
      assert forall x :: x in items <==> x == items[0] || x in items[1..];
    }
  }

  lemma {:induction false} RestrictWithout<V>(items: seq<Item<V>>, keys: set<string>, key: string)
    ensures Without(Restrict(items, keys), key) == Restrict(Without(items, key), keys)
    ensures Restrict(Without(items, key), keys) == Restrict(items, keys - {key})
  {
    if items != [] {
      RestrictWithout(items[1..], keys, key);
      if items[0].key in keys {
        assert Restrict(items, keys)[1..] == Restrict(items[1..], keys);
      }
    }
  }

  lemma {:induction false} RestrictPush<V>(items: seq<Item<V>>, keys: set<string>, item: Item<V>)
    requires forall i :: 0 <= i < |items| ==> items[i].key != item.key
    ensures Restrict(items + [item], keys + {item.key}) == Restrict(items, keys) + [item]
  {
    if items == [] {
      assert [] + [item] == [item] && [item][1..] == [];
    } else {
      assert (items + [item])[1..] == items[1..] + [item];
      RestrictPush(items[1..], keys, item);
    }
  }

  lemma {:induction false} FindRestricted<V>(items: seq<Item<V>>, keys: set<string>, key: string)
    ensures Find(Restrict(items, keys), key) == if key in keys then Find(items, key) else None
  {
    if items != [] {
      FindRestricted(items[1..], keys, key);
      if items[0].key in keys {
        assert Restrict(items, keys)[1..] == Restrict(items[1..], keys);
      }
    }
  }

  /** Dropping the oldest item, or leaving it out of the restriction, leaves the rest. */
  lemma RestrictTail<V>(items: seq<Item<V>>, keys: set<string>)
    requires items != []
    ensures Restrict(items[1..], keys) == if items[0].key in keys then Restrict(items, keys)[1..] else Restrict(items, keys)
  {
  }

  /** `small` is `large` with some keys left out: the same entries in the same order. */
  ghost predicate Included<V>(small: seq<Item<V>>, large: seq<Item<V>>) {
    exists keys: set<string> :: small == Restrict(large, keys)
  }

  /** The larger store never has more room left than the smaller. */
  predicate RoomKept<V>(small: seq<Item<V>>, large: seq<Item<V>>, smaller: nat, larger: Option<nat>) {
    larger.Some? ==> |large| - |small| <= larger.value - smaller
  }

  lemma {:induction false} RestrictFewer<V>(items: seq<Item<V>>, keys: set<string>, key: string)
    requires DistinctKeys(items)
    ensures |Restrict(items, keys)| - |Restrict(items, keys - {key})| == if key in keys && Find(items, key).Some? then 1 else 0
    ensures |items| - |Without(items, key)| == if Find(items, key).Some? then 1 else 0
  {
    if items != [] {
      var rest := items[1..];
      RestrictFewer(rest, keys, key);
      if items[0].key == key {
        NotFound(rest, key);
      }
    }
  }

  lemma {:induction false} NotFound<V>(items: seq<Item<V>>, key: string)
    requires forall i :: 0 <= i < |items| ==> items[i].key != key
    ensures Find(items, key).None?
  {
    if items != [] {
      NotFound(items[1..], key);
    }
  }

  lemma RemovalIncludes<V>(large: seq<Item<V>>, keys: set<string>, key: string, smaller: nat, larger: Option<nat>)
    requires DistinctKeys(large) && RoomKept(Restrict(large, keys), large, smaller, larger)
    ensures Without(Restrict(large, keys), key) == Restrict(Without(large, key), keys)
    ensures RoomKept(Without(Restrict(large, keys), key), Without(large, key), smaller, larger)
  {
    RestrictWithout(large, keys, key);
    RestrictFewer(large, keys, key);
  }

  lemma PushIncludes<V>(large: seq<Item<V>>, keys: set<string>, item: Item<V>, smaller: nat, larger: Option<nat>)
    requires DistinctKeys(large) && RoomKept(Restrict(large, keys), large, smaller, larger)
    ensures var small := Restrict(large, keys);
      && Without(small, item.key) + [item] == Restrict(Without(large, item.key) + [item], keys + {item.key})
      && RoomKept(Without(small, item.key) + [item], Without(large, item.key) + [item], smaller, larger)
  {
    RemovalIncludes(large, keys, item.key, smaller, larger);
    WithoutMembers(large, item.key);
    RestrictPush(Without(large, item.key), keys, item);
  }

  /** Trimming both keeps the inclusion: when the larger drops its oldest item, the smaller is full too. */
  lemma TrimIncludes<V>(large: seq<Item<V>>, keys: set<string>, smaller: nat, larger: Option<nat>)
    requires smaller >= 1 && (larger.Some? ==> smaller <= larger.value && |large| <= larger.value + 1)
    requires DistinctKeys(large) && |Restrict(large, keys)| <= smaller + 1 && RoomKept(Restrict(large, keys), large, smaller, larger)
    ensures Included(Newest(Restrict(large, keys), Some(smaller)), Newest(large, larger))
    ensures RoomKept(Newest(Restrict(large, keys), Some(smaller)), Newest(large, larger), smaller, larger)
  {
    var small := Restrict(large, keys);
    RestrictMembers(large, keys);
    if larger.Some? && |large| == larger.value + 1 {
      RestrictTail(large, keys);
      assert Newest(large, larger) == large[1..];
      if large[0].key in keys {
        assert Newest(small, Some(smaller)) == Restrict(large[1..], keys);
      } else {
        TrimSmall(large[1..], keys, smaller);
      }
    } else {
      TrimSmall(large, keys, smaller);
    }
  }

  lemma TrimSmall<V>(large: seq<Item<V>>, keys: set<string>, smaller: nat)
    requires DistinctKeys(large) && |Restrict(large, keys)| <= smaller + 1
    ensures Included(Newest(Restrict(large, keys), Some(smaller)), large)
  {
    var small := Restrict(large, keys);
    if |small| == smaller + 1 {
      DropFirst(large, keys);
      assert Newest(small, Some(smaller)) == small[1..];
    }
  }

  lemma {:induction false} DropFirst<V>(items: seq<Item<V>>, keys: set<string>)
    requires DistinctKeys(items) && Restrict(items, keys) != []
    ensures Restrict(items, keys)[1..] == Restrict(items, keys - {Restrict(items, keys)[0].key})
  {
    if items[0].key in keys {
      RestrictAbsent(items[1..], keys, items[0].key);
    } else {
      DropFirst(items[1..], keys);
    }
  }

  lemma {:induction false} RestrictAbsent<V>(items: seq<Item<V>>, keys: set<string>, key: string)
    requires forall i :: 0 <= i < |items| ==> items[i].key != key
    ensures Restrict(items, keys - {key}) == Restrict(items, keys)
  {
    if items != [] {
      RestrictAbsent(items[1..], keys, key);
    }
  }

  /** Two stores that saw the same operations: inclusion, and what keeps it. */
  ghost predicate Related<V>(small: seq<Item<V>>, large: seq<Item<V>>, smaller: nat, larger: Option<nat>) {
    && Included(small, large) && RoomKept(small, large, smaller, larger)
    && DistinctKeys(large) && Fits(small, Some(smaller)) && Fits(large, larger)
  }

  lemma DeleteKeepsRelated<V>(small: seq<Item<V>>, large: seq<Item<V>>, smaller: nat, larger: Option<nat>, key: string)
    requires Related(small, large, smaller, larger)
    ensures Related(Without(small, key), Without(large, key), smaller, larger)
  {
    var keys: set<string> :| small == Restrict(large, keys);
    RemovalIncludes(large, keys, key, smaller, larger);
    WithoutDistinct(large, key);
    WithoutMembers(large, key);
    WithoutMembers(small, key);
  }

  lemma SetKeepsRelated<V>(small: seq<Item<V>>, large: seq<Item<V>>, smaller: nat, larger: Option<nat>, item: Item<V>)
    requires smaller >= 1 && (larger.Some? ==> smaller <= larger.value) && Related(small, large, smaller, larger)
    ensures Related(Newest(Without(small, item.key) + [item], Some(smaller)), Newest(Without(large, item.key) + [item], larger), smaller, larger)
  {
    var keys: set<string> :| small == Restrict(large, keys);
    PushIncludes(large, keys, item, smaller, larger);
    PushDistinct(large, item);
    WithoutMembers(large, item.key);
    WithoutMembers(small, item.key);
    TrimIncludes(Without(large, item.key) + [item], keys + {item.key}, smaller, larger);
  }

  lemma MoveInBoth<V>(large: seq<Item<V>>, keys: set<string>, item: Item<V>, smaller: nat, larger: Option<nat>)
    requires Related(Restrict(large, keys), large, smaller, larger) && item.key in keys
    requires Find(large, item.key) == Some(item.entry)
    ensures Related(Without(Restrict(large, keys), item.key) + [item], Without(large, item.key) + [item], smaller, larger)
  {
    FindRestricted(large, keys, item.key);
    PushIncludes(large, keys, item, smaller, larger);
    PushDistinct(large, item);
    WithoutMembers(large, item.key);
    WithoutMembers(Restrict(large, keys), item.key);
  }

  /** A hit in the larger store that the smaller misses only moves the entry in the larger. */
  lemma MoveInLarger<V>(large: seq<Item<V>>, keys: set<string>, item: Item<V>, smaller: nat, larger: Option<nat>)
    requires Related(Restrict(large, keys), large, smaller, larger) && item.key !in keys
    requires Find(large, item.key) == Some(item.entry)
    ensures Related(Restrict(large, keys), Without(large, item.key) + [item], smaller, larger)
  {
    var moved := Without(large, item.key) + [item];
    RestrictWithout(large, keys, item.key);
    assert keys - {item.key} == keys;
    RestrictLast(Without(large, item.key), keys, item);
    RestrictFewer(large, keys, item.key);
    PushDistinct(large, item);
    assert Restrict(moved, keys) == Restrict(large, keys);
  }

  lemma MoveKeepsRelated<V>(small: seq<Item<V>>, large: seq<Item<V>>, smaller: nat, larger: Option<nat>, key: string)
    requires Related(small, large, smaller, larger) && Find(large, key).Some?
    ensures var item := Item(key, Find(large, key).value);
      Related(if Find(small, key).Some? then Without(small, key) + [item] else small, Without(large, key) + [item], smaller, larger)
  {
    var item := Item(key, Find(large, key).value);
    var keys: set<string> :| small == Restrict(large, keys);
    FindRestricted(large, keys, key);
    if key in keys {
      MoveInBoth(large, keys, item, smaller, larger);
    } else {
      MoveInLarger(large, keys, item, smaller, larger);
    }
  }

  lemma {:induction false} RestrictLast<V>(items: seq<Item<V>>, keys: set<string>, item: Item<V>)
    requires item.key !in keys
    ensures Restrict(items + [item], keys) == Restrict(items, keys)
  {
    if items == [] {
      assert [] + [item] == [item] && [item][1..] == [];
    } else {
      assert (items + [item])[1..] == items[1..] + [item];
      RestrictLast(items[1..], keys, item);
    }
  }

  lemma GetKeepsRelated<V>(small: seq<Item<V>>, large: seq<Item<V>>, smaller: nat, larger: Option<nat>, key: string, now: int)
    requires Related(small, large, smaller, larger)
    ensures Related(Apply(small, Some(smaller), Operation.Get(key, now)), Apply(large, larger, Operation.Get(key, now)), smaller, larger)
  {
    var keys: set<string> :| small == Restrict(large, keys);
    FindRestricted(large, keys, key);
    if Find(large, key).Some? {
      if Expired(Find(large, key).value, now) {
        DeleteKeepsRelated(small, large, smaller, larger, key);
        if Find(small, key).None? {
          WithoutAbsent(small, key);
        }
      } else {
        MoveKeepsRelated(small, large, smaller, larger, key);
      }
    }
  }

  lemma {:induction false} WithoutAbsent<V>(items: seq<Item<V>>, key: string)
    requires Find(items, key).None?
    ensures Without(items, key) == items
  {
    if items != [] {
      WithoutAbsent(items[1..], key);
    }
  }

  lemma ApplyKeepsRelated<V>(small: seq<Item<V>>, large: seq<Item<V>>, smaller: nat, larger: Option<nat>, op: Operation<V>)
    requires smaller >= 1 && (larger.Some? ==> smaller <= larger.value) && Related(small, large, smaller, larger)
    ensures Related(Apply(small, Some(smaller), op), Apply(large, larger, op), smaller, larger)
  {
    match op
    case Get(key, now) => GetKeepsRelated(small, large, smaller, larger, key, now);
    case Set(key, entry) => SetKeepsRelated(small, large, smaller, larger, Item(key, entry));
    case Delete(key) => DeleteKeepsRelated(small, large, smaller, larger, key);
  }

  lemma {:induction false} AlwaysRelated<V>(smaller: nat, larger: Option<nat>, ops: seq<Operation<V>>)
    requires smaller >= 1 && (larger.Some? ==> smaller <= larger.value)
    ensures Related(Exec(Some(smaller), ops), Exec(larger, ops), smaller, larger)
  {
    if ops == [] {
      assert Restrict<V>([], {}) == [];
    } else {
      var front := ops[..|ops| - 1];
      AlwaysRelated(smaller, larger, front);
      ApplyKeepsRelated(Exec(Some(smaller), front), Exec(larger, front), smaller, larger, ops[|ops| - 1]);
    }
  }

  /**
   For the same operations and clock, a store with the smaller capacity holds a part of what a larger,
   or an unbounded, one holds: the same entries in the same relative order of recency.
   */
  lemma SmallerIsIncluded<V>(smaller: nat, larger: Option<nat>, ops: seq<Operation<V>>)
    requires smaller >= 1 && (larger.Some? ==> smaller <= larger.value)
    ensures Included(Exec(Some(smaller), ops), Exec(larger, ops))
    ensures forall key :: Find(Exec(Some(smaller), ops), key).Some? ==>
      Find(Exec(larger, ops), key) == Find(Exec(Some(smaller), ops), key)
  {
    AlwaysRelated(smaller, larger, ops);
    var keys: set<string> :| Exec(Some(smaller), ops) == Restrict(Exec(larger, ops), keys);
    forall key | Find(Exec(Some(smaller), ops), key).Some?
      ensures Find(Exec(larger, ops), key) == Find(Exec(Some(smaller), ops), key)
    {
      FindRestricted(Exec(larger, ops), keys, key);
    }
  }

  // ----- Against a plain map -----

  /** Without a deadline, or before it. */
  predicate Lasts<V>(entry: Entry<V>, now: int) {
    entry.expiresAt.None? || now < entry.expiresAt.value
  }

  function LastingValue<V>(m: map<string, Entry<V>>, key: string, now: int): Option<V> {
    if key in m && Lasts(m[key], now) then Some(m[key].value) else None
  }

  /** What a map without capacity or order would hold. */
  function Reference<V>(ops: seq<Operation<V>>): map<string, Entry<V>> {
    if ops == [] then map[]
    else
      var before := Reference(ops[..|ops| - 1]);
      match ops[|ops| - 1]
      case Get(key, now) => if key in before && !Lasts(before[key], now) then before - {key} else before
      case Set(key, entry) => before[key := entry]
      case Delete(key) => before - {key}
  }

  predicate Agrees<V(==)>(items: seq<Item<V>>, m: map<string, Entry<V>>, key: string) {
    Find(items, key) == if key in m then Some(m[key]) else None
  }

  lemma {:induction false} FindWithout<V>(items: seq<Item<V>>, key: string, other: string)
    ensures Find(Without(items, key), other) == if other == key then None else Find(items, other)
  {
    if items != [] {
      FindWithout(items[1..], key, other);
    }
  }

  lemma {:induction false} FindPushed<V>(items: seq<Item<V>>, item: Item<V>, other: string)
    ensures Find(items + [item], other) ==
      if Find(items, other).Some? then Find(items, other) else if item.key == other then Some(item.entry) else None
  {
    if items == [] {
      assert [] + [item] == [item] && [item][1..] == [];
    } else {
      assert (items + [item])[1..] == items[1..] + [item];
      FindPushed(items[1..], item, other);
    }
  }

  /** Without a capacity the store is the map. */
  lemma {:induction false} UnboundedIsTheMap<V>(ops: seq<Operation<V>>, key: string)
    ensures Agrees(Exec(None, ops), Reference(ops), key)
    ensures forall now :: Returned(Exec(None, ops), key, now) == LastingValue(Reference(ops), key, now)
  {
    if ops != [] {
      var front, op := ops[..|ops| - 1], ops[|ops| - 1];
      var items := Exec(None, front);
      UnboundedIsTheMap(front, key);
      UnboundedIsTheMap(front, op.key);
      FindWithout(items, op.key, key);
      match op
      case Get(k, now) =>
        if Find(items, k).Some? {
          FindPushed(Without(items, k), Item(k, Find(items, k).value), key);
        }
      case Set(k, entry) => FindPushed(Without(items, k), Item(k, entry), key);
      case Delete(_) =>
    }
  }

  /** A bounded store may have forgotten a key, but what it returns is what the map holds. */
  lemma BoundedReturnsTheMap<V>(capacity: nat, ops: seq<Operation<V>>, key: string)
    requires capacity >= 1 && Find(Exec(Some(capacity), ops), key).Some?
    ensures Agrees(Exec(Some(capacity), ops), Reference(ops), key)
  {
    SmallerIsIncluded(capacity, None, ops);
    UnboundedIsTheMap(ops, key);
  }

  // ----- What an eviction takes -----

  /** The key an operation sets or hits. */
  function Touch<V>(items: seq<Item<V>>, op: Operation<V>): Option<string> {
    match op
    case Get(key, now) => if Hit(items, key, now) then Some(key) else None
    case Set(key, _) => Some(key)
    case Delete(_) => None
  }

  /** The keys set or hit so far, in time order. */
  function Touches<V>(capacity: Option<nat>, ops: seq<Operation<V>>): seq<string> {
    if ops == [] then []
    else
      var touched := Touch(Exec(capacity, ops[..|ops| - 1]), ops[|ops| - 1]);
      Touches(capacity, ops[..|ops| - 1]) + if touched.Some? then [touched.value] else []
  }

  /** What was touched after the last touch of the key. */
  function Since(touches: seq<string>, key: string): seq<string> {
    if touches == [] || touches[|touches| - 1] == key then []
    else Since(touches[..|touches| - 1], key) + [touches[|touches| - 1]]
  }

  predicate TouchedSince(touches: seq<string>, key: string, other: string) {
    other in Since(touches, key)
  }

  lemma SinceMore(touches: seq<string>, next: string, key: string)
    ensures Since(touches + [next], key) == if next == key then [] else Since(touches, key) + [next]
  {
    assert (touches + [next])[..|touches|] == touches;
  }

  /** Whatever stands behind an entry was touched after it. */
  predicate Recency<V>(items: seq<Item<V>>, touches: seq<string>) {
    forall i, j :: 0 <= i < j < |items| ==> TouchedSince(touches, items[i].key, items[j].key)
  }

  /** Taking an entry out leaves the rest in order. */
  lemma {:induction false} RecencyWithout<V>(items: seq<Item<V>>, touches: seq<string>, key: string)
    requires Recency(items, touches)
    ensures Recency(Without(items, key), touches)
  {
    if items != [] {
      var rest := items[1..];
      RecencyWithout(rest, touches, key);
      WithoutMembers(rest, key);
      if items[0].key != key {
        forall j | 0 <= j < |Without(rest, key)|
          ensures TouchedSince(touches, items[0].key, Without(rest, key)[j].key)
        {
          var i :| 0 <= i < |rest| && rest[i] == Without(rest, key)[j];
          assert items[i + 1] == rest[i];
        }
      }
    }
  }

  lemma RecencyPush<V>(items: seq<Item<V>>, touches: seq<string>, item: Item<V>)
    requires Recency(items, touches) && DistinctKeys(items)
    ensures Recency(Without(items, item.key) + [item], touches + [item.key])
  {
    var rest, after := Without(items, item.key), Without(items, item.key) + [item];
    RecencyWithout(items, touches, item.key);
    WithoutMembers(items, item.key);
    forall i, j | 0 <= i < j < |after|
      ensures TouchedSince(touches + [item.key], after[i].key, after[j].key)
    {
      SinceMore(touches, item.key, after[i].key);
      assert j < |rest| ==> TouchedSince(touches, rest[i].key, rest[j].key);
    }
  }

  lemma RecencyNewest<V>(items: seq<Item<V>>, touches: seq<string>, capacity: Option<nat>)
    requires Recency(items, touches)
    ensures Recency(Newest(items, capacity), touches)
  {
  }

  lemma {:induction false} RecencyAlways<V>(capacity: Option<nat>, ops: seq<Operation<V>>)
    ensures Recency(Exec(capacity, ops), Touches(capacity, ops))
  {
    if ops != [] {
      var front, op := ops[..|ops| - 1], ops[|ops| - 1];
      RecencyAlways(capacity, front);
      ShapeAlways(capacity, front);
      RecencyStep(Exec(capacity, front), Touches(capacity, front), capacity, op);
    }
  }

  lemma RecencyStep<V>(items: seq<Item<V>>, touches: seq<string>, capacity: Option<nat>, op: Operation<V>)
    requires Recency(items, touches) && DistinctKeys(items)
    ensures Recency(Apply(items, capacity, op), touches + if Touch(items, op).Some? then [Touch(items, op).value] else [])
  {
    assert touches + [] == touches;
    match op
    case Get(key, now) =>
      if Hit(items, key, now) {
        RecencyPush(items, touches, Item(key, Find(items, key).value));
      } else {
        RecencyWithout(items, touches, key);
      }
    case Set(key, entry) =>
      RecencyPush(items, touches, Item(key, entry));
      RecencyNewest(Without(items, key) + [Item(key, entry)], touches + [key], capacity);
    case Delete(key) => RecencyWithout(items, touches, key);
  }

  /** The distinct keys among some touches. */
  function KeysOf(touches: seq<string>): set<string> {
    set k | k in touches
  }

  /**
   A key that setting another one pushes out was followed, since its last touch, by touches of at least
   as many distinct other keys as the store has room for.
   */
  lemma EvictionTakesCapacityManyKeys<V>(capacity: nat, ops: seq<Operation<V>>, key: string)
    requires ops != [] && ops[|ops| - 1].Set? && ops[|ops| - 1].key != key
    requires Find(Exec(Some(capacity), ops[..|ops| - 1]), key).Some? && Find(Exec(Some(capacity), ops), key).None?
    ensures var since := KeysOf(Since(Touches(Some(capacity), ops), key));
      key !in since && |since| >= capacity
  {
    var front, op := ops[..|ops| - 1], ops[|ops| - 1];
    var items, touches := Exec(Some(capacity), front), Touches(Some(capacity), ops);
    var all := Without(items, op.key) + [Item(op.key, op.entry)];
    ShapeAlways(Some(capacity), front);
    RecencyAlways(Some(capacity), front);
    RecencyPush(items, Touches(Some(capacity), front), Item(op.key, op.entry));
    PushDistinct(items, Item(op.key, op.entry));
    assert touches == Touches(Some(capacity), front) + [op.key];
    FindWithout(items, op.key, key);
    FindPushed(Without(items, op.key), Item(op.key, op.entry), key);
    WithoutMembers(items, op.key);
    PushedOut(all, capacity, key);
    BehindTheFirst(all, touches);
    NotSinceItself(touches, key);
  }

  lemma PushedOut<V>(all: seq<Item<V>>, capacity: nat, key: string)
    requires |all| <= capacity + 1 && Find(all, key).Some? && Find(Newest(all, Some(capacity)), key).None?
    ensures |all| == capacity + 1 && all[0].key == key
  {
    if |all| == capacity + 1 {
      assert Newest(all, Some(capacity)) == all[1..];
    }
  }

  lemma {:induction false} NotSinceItself(touches: seq<string>, key: string)
    ensures key !in Since(touches, key)
  {
    if touches != [] && touches[|touches| - 1] != key {
      NotSinceItself(touches[..|touches| - 1], key);
    }
  }

  /** The keys behind the first item are distinct and were touched since. */
  lemma BehindTheFirst<V>(all: seq<Item<V>>, touches: seq<string>)
    requires all != [] && DistinctKeys(all) && Recency(all, touches)
    ensures |KeysOf(Since(touches, all[0].key))| >= |all| - 1
  {
    var since := KeysOf(Since(touches, all[0].key));
    forall j | 1 <= j < |all|
      ensures all[j].key in since
    {
      assert TouchedSince(touches, all[0].key, all[j].key);
    }
    CountKeys(all[1..], since);
  }

  lemma {:induction false} CountKeys<V>(items: seq<Item<V>>, keys: set<string>)
    requires DistinctKeys(items) && forall j :: 0 <= j < |items| ==> items[j].key in keys
    ensures |keys| >= |items|
  {
    if items != [] {
      forall j | 0 <= j < |items[1..]|
        ensures items[1..][j].key in keys - {items[0].key}
      {
        assert items[1..][j] == items[j + 1];
      }
      CountKeys(items[1..], keys - {items[0].key});
    }
  }

  // ----- How long a value can be read -----

  /** The operation keeps what was set under the key: it neither sets nor deletes it, nor reads it late. */
  predicate Spares<V>(op: Operation<V>, key: string, expiresAt: Option<int>) {
    op.key == key ==> op.Get? && (expiresAt.Some? ==> op.now < expiresAt.value)
  }

  /** The other keys that some operations name. */
  function OtherKeys<V>(ops: seq<Operation<V>>, key: string): set<string> {
    set i | 0 <= i < |ops| && ops[i].key != key :: ops[i].key
  }

  lemma MoreOtherKeys<V>(front: seq<Operation<V>>, after: seq<Operation<V>>, key: string)
    requires after != [] && front == after[..|after| - 1]
    ensures OtherKeys(front, key) <= OtherKeys(after, key)
    ensures after[|after| - 1].key != key ==> after[|after| - 1].key in OtherKeys(after, key)
  {
    forall k | k in OtherKeys(front, key)
      ensures k in OtherKeys(after, key)
    {
      var i :| 0 <= i < |front| && front[i].key == k && front[i].key != key;
      assert after[i].key == k;
    }
  }

  lemma TouchesMore<V>(capacity: Option<nat>, front: seq<Operation<V>>, op: Operation<V>, key: string)
    ensures forall k :: k in Since(Touches(capacity, front + [op]), key) ==> k in Since(Touches(capacity, front), key) || (k == op.key && k != key)
  {
    assert (front + [op])[..|front|] == front;
    var touched := Touch(Exec(capacity, front), op);
    if touched.Some? {
      SinceMore(Touches(capacity, front), touched.value, key);
    } else {
      assert Touches(capacity, front) + [] == Touches(capacity, front);
    }
  }

  lemma {:induction false} TouchedWithin<V>(capacity: Option<nat>, before: seq<Operation<V>>, stored: Operation<V>, after: seq<Operation<V>>)
    requires stored.Set?
    ensures forall k :: k in Since(Touches(capacity, before + [stored] + after), stored.key) ==> k in OtherKeys(after, stored.key)
  {
    if after == [] {
      assert before + [stored] + after == before + [stored] && (before + [stored])[..|before|] == before;
      SinceMore(Touches(capacity, before), stored.key, stored.key);
    } else {
      var front, op := after[..|after| - 1], after[|after| - 1];
      TouchedWithin(capacity, before, stored, front);
      MoreOtherKeys(front, after, stored.key);
      TouchesMore(capacity, before + [stored] + front, op, stored.key);
      assert before + [stored] + after == before + [stored] + front + [op];
    }
  }

  /** Operations on other keys leave an entry alone, or drop it as the oldest of too many. */
  lemma OtherKeepsEntry<V>(items: seq<Item<V>>, capacity: Option<nat>, op: Operation<V>, key: string)
    requires DistinctKeys(items) && op.key != key
    ensures Find(Apply(items, capacity, op), key) == Find(items, key) || (op.Set? && Find(Apply(items, capacity, op), key).None?)
  {
    FindWithout(items, op.key, key);
    match op
    case Get(k, now) =>
      if Find(items, k).Some? {
        FindPushed(Without(items, k), Item(k, Find(items, k).value), key);
      }
    case Set(k, entry) =>
      FindPushed(Without(items, k), Item(k, entry), key);
      PushDistinct(items, Item(k, entry));
      FindNewest(Without(items, k) + [Item(k, entry)], capacity, key);
    case Delete(_) =>
  }

  lemma FindNewest<V>(items: seq<Item<V>>, capacity: Option<nat>, key: string)
    requires DistinctKeys(items)
    ensures Find(Newest(items, capacity), key) in {None, Find(items, key)}
  {
    if capacity.Some? && |items| > capacity.value {
      FindInTail(items, |items| - capacity.value, key);
    }
  }

  lemma {:induction false} FindInTail<V>(items: seq<Item<V>>, from: nat, key: string)
    requires DistinctKeys(items) && from <= |items|
    ensures Find(items[from..], key) in {None, Find(items, key)}
  {
    if from > 0 {
      assert items[from..] == items[1..][from - 1..];
      FindInTail(items[1..], from - 1, key);
      if items[0].key == key {
        NotFound(items[1..][from - 1..], key);
      }
    }
  }

  /** A get in time finds the entry again, a late one drops it. */
  lemma GetKeepsEntry<V>(items: seq<Item<V>>, capacity: Option<nat>, key: string, now: int)
    ensures Find(Apply(items, capacity, Operation.Get(key, now)), key) == if Hit(items, key, now) then Find(items, key) else None
  {
    FindWithout(items, key, key);
    if Find(items, key).Some? {
      FindPushed(Without(items, key), Item(key, Find(items, key).value), key);
    }
  }

  lemma SetStores<V>(items: seq<Item<V>>, capacity: Option<nat>, key: string, entry: Entry<V>)
    requires capacity.Some? ==> capacity.value >= 1
    ensures Find(Apply(items, capacity, Operation.Set(key, entry)), key) == Some(entry)
  {
    var all := Without(items, key) + [Item(key, entry)];
    FindWithout(items, key, key);
    WithoutMembers(items, key);
    FindLast(all, if capacity.None? || |all| <= capacity.value then 0 else |all| - capacity.value);
  }

  /** The last item is found, unless its key stands before it, in every tail that has it. */
  lemma {:induction false} FindLast<V>(items: seq<Item<V>>, from: nat)
    requires from < |items| && forall i :: 0 <= i < |items| - 1 ==> items[i].key != items[|items| - 1].key
    ensures Find(items[from..], items[|items| - 1].key) == Some(items[|items| - 1].entry)
    decreases |items| - from
  {
    if from < |items| - 1 {
      assert items[from..][1..] == items[from + 1..];
      FindLast(items, from + 1);
    }
  }

  /** One more operation that spares the key leaves its entry, unless it pushes it out. */
  lemma SparingStep<V>(capacity: Option<nat>, front: seq<Operation<V>>, op: Operation<V>, key: string, entry: Entry<V>)
    requires Find(Exec(capacity, front), key) == Some(entry) && Spares(op, key, entry.expiresAt)
    ensures Find(Exec(capacity, front + [op]), key) == Some(entry) || (op.key != key && Find(Exec(capacity, front + [op]), key).None?)
  {
    assert (front + [op])[..|front|] == front;
    if op.key == key {
      GetKeepsEntry(Exec(capacity, front), capacity, key, op.now);
    } else {
      ShapeAlways(capacity, front);
      OtherKeepsEntry(Exec(capacity, front), capacity, op, key);
    }
  }

  /** Fewer other keys than the capacity cannot push the entry out. */
  lemma {:induction false} StaysStored<V>(capacity: Option<nat>, before: seq<Operation<V>>, stored: Operation<V>, after: seq<Operation<V>>)
    requires stored.Set? && (capacity.Some? ==> |OtherKeys(after, stored.key)| < capacity.value)
    requires forall i :: 0 <= i < |after| ==> Spares(after[i], stored.key, stored.entry.expiresAt)
    ensures Find(Exec(capacity, before + [stored] + after), stored.key) == Some(stored.entry)
  {
    if after == [] {
      assert before + [stored] + after == before + [stored] && (before + [stored])[..|before|] == before;
      SetStores(Exec(capacity, before), capacity, stored.key, stored.entry);
    } else {
      var front, op := after[..|after| - 1], after[|after| - 1];
      MoreOtherKeys(front, after, stored.key);
      FewerKeys(OtherKeys(front, stored.key), OtherKeys(after, stored.key));
      StaysStored(capacity, before, stored, front);
      SparingStep(capacity, before + [stored] + front, op, stored.key, stored.entry);
      assert before + [stored] + after == before + [stored] + front + [op];
      if op.key != stored.key {
        NotPushedOut(capacity, before, stored, after);
      }
    }
  }

  lemma FewerKeys(a: set<string>, b: set<string>)
    requires a <= b
    ensures |a| <= |b|
  {
    assert b == a + (b - a);
  }

  lemma NotPushedOut<V>(capacity: Option<nat>, before: seq<Operation<V>>, stored: Operation<V>, after: seq<Operation<V>>)
    requires stored.Set? && after != [] && after[|after| - 1].key != stored.key
    requires capacity.Some? ==> |OtherKeys(after, stored.key)| < capacity.value
    requires Find(Exec(capacity, before + [stored] + after[..|after| - 1]), stored.key).Some?
    ensures Find(Exec(capacity, before + [stored] + after), stored.key).Some?
  {
    var ops, front, op := before + [stored] + after, before + [stored] + after[..|after| - 1], after[|after| - 1];
    assert ops[..|ops| - 1] == front && ops[|ops| - 1] == op;
    ShapeAlways(capacity, front);
    OtherKeepsEntry(Exec(capacity, front), capacity, op, stored.key);
    if capacity.None? {
      FindWithout(Exec(capacity, front), op.key, stored.key);
      if op.Set? {
        FindPushed(Without(Exec(capacity, front), op.key), Item(op.key, op.entry), stored.key);
      }
    } else if Find(Exec(capacity, ops), stored.key).None? {
      EvictionTakesCapacityManyKeys(capacity.value, ops, stored.key);
      TouchedWithin(capacity, before, stored, after);
      FewerKeys(KeysOf(Since(Touches(capacity, ops), stored.key)), OtherKeys(after, stored.key));
    }
  }

  /**
   A value set for so many seconds, or for ever, is returned until then, whatever came before, as long as
   nobody sets, deletes or reads it too late, and fewer other keys are named than the store has room for.
   */
  lemma ReadableUntilExpiry<V>(capacity: Option<nat>, before: seq<Operation<V>>, key: string, value: V, ttlSeconds: Option<int>,
                               setAt: int, after: seq<Operation<V>>, now: int)
    requires capacity.Some? ==> |OtherKeys(after, key)| < capacity.value
    requires forall i :: 0 <= i < |after| && after[i].key == key ==>
      after[i].Get? && (ttlSeconds.Some? ==> after[i].now < setAt + ttlSeconds.value * 1000)
    requires ttlSeconds.Some? ==> now < setAt + ttlSeconds.value * 1000
    ensures Returned(Exec(capacity, before + [SetAt(key, value, ttlSeconds, setAt)] + after), key, now) == Some(value)
  {
    StaysStored(capacity, before, SetAt(key, value, ttlSeconds, setAt), after);
  }

  /** The operation neither sets nor deletes the key. */
  predicate Untouching<V>(op: Operation<V>, key: string) {
    op.key == key ==> op.Get?
  }

  /** What is stored under a key was set there last, and has not been read late since. */
  lemma {:induction false} StoredWasSet<V>(capacity: Option<nat>, ops: seq<Operation<V>>, key: string) returns (i: nat)
    requires Find(Exec(capacity, ops), key).Some?
    ensures i < |ops| && ops[i] == Operation.Set(key, Find(Exec(capacity, ops), key).value)
    ensures forall j :: i < j < |ops| ==> Untouching(ops[j], key)
  {
    var front, op := ops[..|ops| - 1], ops[|ops| - 1];
    var items := Exec(capacity, front);
    ShapeAlways(capacity, front);
    if op.key != key {
      OtherKeepsEntry(items, capacity, op, key);
      i := StoredWasSet(capacity, front, key);
    } else if op.Get? {
      GetKeepsEntry(items, capacity, key, op.now);
      i := StoredWasSet(capacity, front, key);
    } else if op.Set? {
      i := |ops| - 1;
      PushDistinct(items, Item(key, op.entry));
      FindWithout(items, key, key);
      FindPushed(Without(items, key), Item(key, op.entry), key);
      FindNewest(Without(items, key) + [Item(key, op.entry)], capacity, key);
    } else {
      FindWithout(items, key, key);
    }
  }

  /** A get returns nothing but the value set last under the key, and not after its time: at its expiry it is gone. */
  lemma ReturnsTheLastSet<V>(capacity: Option<nat>, ops: seq<Operation<V>>, key: string, now: int) returns (i: nat)
    requires Returned(Exec(capacity, ops), key, now).Some?
    ensures i < |ops| && ops[i].Set? && ops[i].key == key && ops[i].entry.value == Returned(Exec(capacity, ops), key, now).value
    ensures ops[i].entry.expiresAt.Some? ==> now < ops[i].entry.expiresAt.value
    ensures forall j :: i < j < |ops| ==> Untouching(ops[j], key)
  {
    i := StoredWasSet(capacity, ops, key);
  }

  /** At its expiry and after it a value is not returned, whatever happened meanwhile short of setting the key again. */
  lemma GoneAtExpiry<V>(capacity: Option<nat>, before: seq<Operation<V>>, key: string, value: V, ttlSeconds: int, setAt: int,
                        after: seq<Operation<V>>, now: int)
    requires forall j :: 0 <= j < |after| && after[j].key == key ==> !after[j].Set?
    requires now >= setAt + ttlSeconds * 1000
    ensures Returned(Exec(capacity, before + [SetAt(key, value, Some(ttlSeconds), setAt)] + after), key, now) == None
  {
    var stored := SetAt(key, value, Some(ttlSeconds), setAt);
    var ops := before + [stored] + after;
    if Returned(Exec(capacity, ops), key, now).Some? {
      var i := ReturnsTheLastSet(capacity, ops, key, now);
      LastSetIs(before, stored, after, i);
    }
  }

  lemma LastSetIs<V>(before: seq<Operation<V>>, stored: Operation<V>, after: seq<Operation<V>>, i: nat)
    requires stored.Set? && i < |before + [stored] + after|
    requires (before + [stored] + after)[i].Set? && (before + [stored] + after)[i].key == stored.key
    requires forall j :: i < j < |before + [stored] + after| ==> Untouching((before + [stored] + after)[j], stored.key)
    requires forall j :: 0 <= j < |after| && after[j].key == stored.key ==> !after[j].Set?
    ensures (before + [stored] + after)[i] == stored
  {
    var ops := before + [stored] + after;
    assert ops[|before|] == stored && !Untouching(stored, stored.key);
    if i > |before| {
      AfterAt(before, stored, after, i);
    }
  }

  lemma AfterAt<V>(before: seq<Operation<V>>, stored: Operation<V>, after: seq<Operation<V>>, i: nat)
    requires |before| < i < |before + [stored] + after|
    ensures exists j :: 0 <= j < |after| && after[j] == (before + [stored] + after)[i]
  {
    assert after[i - |before| - 1] == (before + [stored] + after)[i];
  }
}
