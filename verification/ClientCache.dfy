/** A recency list: what the per-caller client cache is meant to be. Oldest entry first. */
module RecencyList {
  import opened Wrappers

  datatype Entry<V> = Entry(key: string, value: V, created: int)

  /** Go's zero time, which the cache treats as "not stamped yet". */
  const ZERO_TIME: int := 0

  predicate Distinct<V>(list: seq<Entry<V>>)
  {
    forall i, j :: 0 <= i < j < |list| ==> list[i].key != list[j].key
  }

  function IndexFrom<V>(list: seq<Entry<V>>, key: string, start: nat): (p: nat)
    requires start <= |list|
    ensures start <= p <= |list| && (p < |list| ==> list[p].key == key)
    ensures forall i :: start <= i < p ==> list[i].key != key
    decreases |list| - start
  {
    if start == |list| || list[start].key == key then start else IndexFrom(list, key, start + 1)
  }

  /** Position of a key, or the length of the list. */
  function IndexOf<V>(list: seq<Entry<V>>, key: string): (p: nat)
    ensures p <= |list| && (p < |list| ==> list[p].key == key)
    ensures forall i :: 0 <= i < p ==> list[i].key != key
  {
    IndexFrom(list, key, 0)
  }

  predicate Has<V>(list: seq<Entry<V>>, key: string)
  {
    IndexOf(list, key) < |list|
  }

  function Without<V>(list: seq<Entry<V>>, key: string): seq<Entry<V>>
  {
    var p := IndexOf(list, key);
    if p < |list| then list[..p] + list[p + 1..] else list
  }

  function Stamped<V>(e: Entry<V>, now: int): Entry<V>
  {
    if e.created == ZERO_TIME then e.(created := now) else e
  }

  /** Move an entry to the recent end. */
  function Touched<V>(list: seq<Entry<V>>, key: string, now: int): seq<Entry<V>>
    requires Has(list, key)
  {
    Without(list, key) + [Stamped(list[IndexOf(list, key)], now)]
  }

  function Newest<V>(list: seq<Entry<V>>, capacity: nat): seq<Entry<V>>
  {
    if |list| > capacity then list[|list| - capacity..] else list
  }

  lemma NewestDropsFirst<V>(list: seq<Entry<V>>, capacity: nat)
    requires |list| > capacity
    ensures Newest(list[1..], capacity) == Newest(list, capacity)
  {
  }

  predicate Expired<V>(e: Entry<V>, now: int, ttl: int)
  {
    now - Stamped(e, now).created >= ttl
  }

  /** A hit moves the entry to the recent end; an expired entry is dropped and misses. */
  function Lookup<V>(list: seq<Entry<V>>, key: string, now: int, ttl: int): (Option<V>, seq<Entry<V>>)
  {
    if !Has(list, key) then (None, list)
    else if Expired(list[IndexOf(list, key)], now, ttl) then (None, Without(list, key))
    else (Some(list[IndexOf(list, key)].value), Touched(list, key, now))
  }

  /** Storing returns the client to use: an existing one wins; otherwise the oldest beyond capacity goes. */
  function Store<V>(list: seq<Entry<V>>, key: string, value: V, now: int, capacity: nat): (V, seq<Entry<V>>)
  {
    if Has(list, key) then (list[IndexOf(list, key)].value, Touched(list, key, now))
    else (value, Newest(list + [Entry(key, value, now)], capacity))
  }

  datatype Op<V> = Look(key: string, now: int) | Put(key: string, value: V, now: int)

  function Apply<V>(list: seq<Entry<V>>, op: Op<V>, capacity: nat, ttl: int): seq<Entry<V>>
  {
    match op
    case Look(key, now) => Lookup(list, key, now, ttl).1
    case Put(key, value, now) => Store(list, key, value, now, capacity).1
  }

  function ApplyAll<V>(list: seq<Entry<V>>, ops: seq<Op<V>>, capacity: nat, ttl: int): seq<Entry<V>>
    decreases ops
  {
    if ops == [] then list else ApplyAll(Apply(list, ops[0], capacity, ttl), ops[1..], capacity, ttl)
  }

  predicate Bounded<V>(list: seq<Entry<V>>, capacity: nat)
  {
    Distinct(list) && |list| <= capacity
  }

  lemma TouchedDistinct<V>(list: seq<Entry<V>>, key: string, now: int)
    requires Distinct(list) && Has(list, key)
    ensures Distinct(Touched(list, key, now)) && |Touched(list, key, now)| == |list|
  {
  }

  lemma ApplyKeepsBounded<V>(list: seq<Entry<V>>, op: Op<V>, capacity: nat, ttl: int)
    requires Bounded(list, capacity)
    ensures Bounded(Apply(list, op, capacity, ttl), capacity)
  {
    if Has(list, op.key) {
      TouchedDistinct(list, op.key, op.now);
    } else if op.Put? {
      assert Distinct(list + [Entry(op.key, op.value, op.now)]);
    }
  }

  /** Storing makes the key the most recent one, so the key just stored is never the one evicted. */
  lemma StoreKeepsOwnKey<V>(list: seq<Entry<V>>, key: string, value: V, now: int, capacity: nat)
    requires capacity >= 1
    ensures var after := Store(list, key, value, now, capacity).1;
      after != [] && after[|after| - 1].key == key
        && after[|after| - 1].value == Store(list, key, value, now, capacity).0
  {
  }

  /** `e` sits at position `i`, and everything more recent is about keys in `others`. */
  ghost predicate SitsBefore<V>(list: seq<Entry<V>>, i: nat, e: Entry<V>, others: set<string>)
  {
    i < |list| && list[i] == e && forall j :: i < j < |list| ==> list[j].key in others
  }

  function KeysFrom<V>(list: seq<Entry<V>>, i: nat): (s: set<string>)
    requires i <= |list|
    decreases |list| - i
  {
    if i == |list| then {} else {list[i].key} + KeysFrom(list, i + 1)
  }

  lemma {:induction false} KeysFromSize<V>(list: seq<Entry<V>>, i: nat, others: set<string>)
    requires i <= |list| && Distinct(list) && forall j :: i <= j < |list| ==> list[j].key in others
    ensures KeysFrom(list, i) <= others && |KeysFrom(list, i)| == |list| - i
    ensures forall k :: k in KeysFrom(list, i) ==> exists j :: i <= j < |list| && list[j].key == k
    decreases |list| - i
  {
    if i < |list| {
      KeysFromSize(list, i + 1, others);
    }
  }

  lemma TouchKeeps<V>(list: seq<Entry<V>>, key: string, now: int, i: nat, e: Entry<V>, others: set<string>)
    returns (i': nat)
    requires Has(list, key) && SitsBefore(list, i, e, others) && key != e.key && key in others
    ensures SitsBefore(Without(list, key), i', e, others) && SitsBefore(Touched(list, key, now), i', e, others)
  {
    var p, rest := IndexOf(list, key), Without(list, key);
    assert forall k :: 0 <= k < |rest| ==> rest[k] == if k < p then list[k] else list[k + 1];
    i' := if p < i then i - 1 else i;
  }

  lemma AppendKeeps<V>(list: seq<Entry<V>>, x: Entry<V>, capacity: nat, i: nat, e: Entry<V>, others: set<string>)
    returns (i': nat)
    requires Bounded(list, capacity) && !Has(list, x.key) && SitsBefore(list, i, e, others)
    requires x.key in others && |others| < capacity
    ensures SitsBefore(Newest(list + [x], capacity), i', e, others)
  {
    i' := i;
    if |list| == capacity {
      if i == 0 {
        KeysFromSize(list, 1, others);
        SubsetSize(KeysFrom(list, 1) + {x.key}, others);
      }
      i' := i - 1;
    }
  }

  /** One operation on another key cannot push `e` out while fewer than `capacity` others are in play. */
  lemma OtherOpKeeps<V>(
    list: seq<Entry<V>>, op: Op<V>, capacity: nat, ttl: int, i: nat, e: Entry<V>, others: set<string>)
    returns (i': nat)
    requires Bounded(list, capacity) && SitsBefore(list, i, e, others)
    requires op.key != e.key && op.key in others && |others| < capacity
    ensures SitsBefore(Apply(list, op, capacity, ttl), i', e, others)
  {
    if Has(list, op.key) {
      i' := TouchKeeps(list, op.key, op.now, i, e, others);
    } else if op.Put? {
      i' := AppendKeeps(list, Entry(op.key, op.value, op.now), capacity, i, e, others);
    } else {
      i' := i;
    }
  }

  /**
   The least-recently-used guarantee. After a key is touched, it survives every sequence of operations on
   fewer than `capacity` distinct other keys, with its value and creation stamp: only its age can lose it.
   */
  lemma {:induction false} RecentSurvives<V>(
    list: seq<Entry<V>>, ops: seq<Op<V>>, capacity: nat, ttl: int, i: nat, e: Entry<V>, others: set<string>)
    returns (i': nat)
    requires Bounded(list, capacity) && SitsBefore(list, i, e, others) && |others| < capacity
    requires forall k :: 0 <= k < |ops| ==> ops[k].key != e.key && ops[k].key in others
    ensures SitsBefore(ApplyAll(list, ops, capacity, ttl), i', e, others)
    ensures Bounded(ApplyAll(list, ops, capacity, ttl), capacity)
    decreases ops
  {
    if ops == [] {
      i' := i;
    } else {
      var next := OtherOpKeeps(list, ops[0], capacity, ttl, i, e, others);
      ApplyKeepsBounded(list, ops[0], capacity, ttl);
      i' := RecentSurvives(Apply(list, ops[0], capacity, ttl), ops[1..], capacity, ttl, next, e, others);
    }
  }

  /** The cached entry of a key that is not yet `ttl` old; one without a stamp counts as created now. */
  ghost predicate YoungEntry<V>(list: seq<Entry<V>>, i: nat, key: string, now: int, ttl: int)
  {
    i < |list| && list[i].key == key && (list[i].created == 0 || now - list[i].created < ttl)
  }

  /** Everything about other keys, in the order it had. */
  ghost predicate OthersKept<V>(before: seq<Entry<V>>, after: seq<Entry<V>>, key: string)
  {
    exists p: nat :: p < |before| && before[p].key == key && after == before[..p] + before[p + 1..]
  }

  lemma IndexOfEntry<V>(list: seq<Entry<V>>, i: nat)
    requires Distinct(list) && i < |list|
    ensures Has(list, list[i].key) && IndexOf(list, list[i].key) == i
  {
  }

  /** A lookup hits exactly when a young entry has the key, and returns that entry's value. */
  lemma HitIff<V>(list: seq<Entry<V>>, key: string, now: int, ttl: int, value: V)
    requires Distinct(list) && ttl > 0
    ensures Lookup(list, key, now, ttl).0 == Some(value) <==>
      exists i: nat :: YoungEntry(list, i, key, now, ttl) && list[i].value == value
  {
    if i: nat :| YoungEntry(list, i, key, now, ttl) && list[i].value == value {
      IndexOfEntry(list, i);
    }
    if Lookup(list, key, now, ttl).0 == Some(value) {
      assert YoungEntry(list, IndexOf(list, key), key, now, ttl);
    }
  }

  /**
   What a lookup does to the cache: a hit makes the entry the most recent one and leaves the stamp of its creation
   alone; an entry that is too old is gone; nothing else changes.
   */
  lemma LookupEffect<V>(list: seq<Entry<V>>, key: string, now: int, ttl: int, i: nat)
    requires Distinct(list) && ttl > 0 && i < |list| && list[i].key == key
    ensures var after := Lookup(list, key, now, ttl).1;
      if YoungEntry(list, i, key, now, ttl) then
        && after != [] && OthersKept(list, after[..|after| - 1], key)
        && after[|after| - 1] == Entry(key, list[i].value, if list[i].created == 0 then now else list[i].created)
      else OthersKept(list, after, key) && forall j :: 0 <= j < |after| ==> after[j].key != key
  {
    IndexOfEntry(list, i);
    var after := Lookup(list, key, now, ttl).1;
    if YoungEntry(list, i, key, now, ttl) {
      assert after[..|after| - 1] == list[..i] + list[i + 1..];
    }
  }

  /** A lookup's answer in plain terms: the value of a young entry with the key, or none when there is no such entry. */
  ghost predicate ServesYoung<V>(list: seq<Entry<V>>, key: string, now: int, ttl: int, hit: Option<V>)
  {
    if hit.Some? then exists i: nat :: YoungEntry(list, i, key, now, ttl) && list[i].value == hit.value
    else forall i: nat :: !YoungEntry(list, i, key, now, ttl)
  }

  lemma LookupServesYoung<V>(list: seq<Entry<V>>, key: string, now: int, ttl: int)
    requires Distinct(list) && ttl > 0
    ensures ServesYoung(list, key, now, ttl, Lookup(list, key, now, ttl).0)
  {
    var hit := Lookup(list, key, now, ttl).0;
    if hit.Some? {
      HitIff(list, key, now, ttl, hit.value);
    } else if i: nat :| YoungEntry(list, i, key, now, ttl) {
      HitIff(list, key, now, ttl, list[i].value);
    }
  }

  /** After a miss the key is free, so what is stored next is what its caller built. */
  lemma MissThenStore<V>(list: seq<Entry<V>>, key: string, now: int, ttl: int, value: V, later: int, capacity: nat)
    requires Distinct(list) && Lookup(list, key, now, ttl).0.None?
    ensures Store(Lookup(list, key, now, ttl).1, key, value, later, capacity).0 == value
  {
  }

  /**
   What storing does: a cached client wins and becomes the most recent; a new one pushes out the oldest beyond
   capacity.
   */
  lemma StoreEffect<V>(list: seq<Entry<V>>, key: string, value: V, now: int, capacity: nat)
    requires Distinct(list)
    ensures var (kept, after) := Store(list, key, value, now, capacity);
      if i: nat :| i < |list| && list[i].key == key then
        && kept == list[i].value && after != [] && OthersKept(list, after[..|after| - 1], key)
        && after[|after| - 1] == Entry(key, kept, if list[i].created == 0 then now else list[i].created)
      else
        var all := list + [Entry(key, value, now)];
        kept == value && |after| == (if |all| > capacity then capacity else |all|) && after == all[|all| - |after|..]
  {
    if i: nat :| i < |list| && list[i].key == key {
      IndexOfEntry(list, i);
      var after := Store(list, key, value, now, capacity).1;
      assert after[..|after| - 1] == list[..i] + list[i + 1..];
    }
  }

  /** Consequently the next lookup hits exactly when the entry is younger than the TTL. */
  lemma RecentHits<V>(
    list: seq<Entry<V>>, ops: seq<Op<V>>, capacity: nat, ttl: int, now: int, others: set<string>)
    requires Bounded(list, capacity) && list != [] && |others| < capacity && ttl > 0
    requires forall k :: 0 <= k < |ops| ==> ops[k].key != list[|list| - 1].key && ops[k].key in others
    ensures var e := list[|list| - 1];
      Lookup(ApplyAll(list, ops, capacity, ttl), e.key, now, ttl).0 ==
        if e.created == 0 || now - e.created < ttl then Some(e.value) else None
  {
    var e := list[|list| - 1];
    var i := RecentSurvives(list, ops, capacity, ttl, |list| - 1, e, others);
    var after := ApplyAll(list, ops, capacity, ttl);
    assert IndexOf(after, e.key) == i;
  }
}

/** A map described by a sequence of its items. */
module KeyedItems {
  predicate Distinct<T>(items: seq<(string, T)>)
  {
    forall i, j :: 0 <= i < j < |items| ==> items[i].0 != items[j].0
  }

  function MapUpTo<T>(items: seq<(string, T)>, n: nat): map<string, T>
    requires n <= |items|
  {
    if n == 0 then map[] else MapUpTo(items, n - 1)[items[n - 1].0 := items[n - 1].1]
  }

  function MapOf<T>(items: seq<(string, T)>): map<string, T>
  {
    MapUpTo(items, |items|)
  }

  function RemoveAt<T>(s: seq<T>, p: nat): (r: seq<T>)
    requires p < |s|
    ensures |r| == |s| - 1
  {
    s[..p] + s[p + 1..]
  }

  lemma RemovedAt<T>(s: seq<T>, p: nat)
    requires p < |s|
    ensures forall k :: 0 <= k < |s| - 1 ==> RemoveAt(s, p)[k] == if k < p then s[k] else s[k + 1]
  {
    var r := RemoveAt(s, p);
    forall k | 0 <= k < |s| - 1
      ensures r[k] == if k < p then s[k] else s[k + 1]
    {
    }
  }

  lemma {:induction false} MapGet<T>(items: seq<(string, T)>, n: nat, i: nat)
    requires Distinct(items) && i < n <= |items|
    ensures items[i].0 in MapUpTo(items, n) && MapUpTo(items, n)[items[i].0] == items[i].1
  {
    if i < n - 1 {
      MapGet(items, n - 1, i);
    }
  }

  lemma {:induction false} MapFind<T>(items: seq<(string, T)>, n: nat, key: string) returns (i: nat)
    requires n <= |items| && key in MapUpTo(items, n)
    ensures i < n && items[i].0 == key
  {
    if items[n - 1].0 == key {
      i := n - 1;
    } else {
      i := MapFind(items, n - 1, key);
    }
  }

  lemma {:induction false} MapSize<T>(items: seq<(string, T)>, n: nat)
    requires Distinct(items) && n <= |items|
    ensures |MapUpTo(items, n)| == n
  {
    if n > 0 {
      MapSize(items, n - 1);
      if items[n - 1].0 in MapUpTo(items, n - 1) {
        var i := MapFind(items, n - 1, items[n - 1].0);
      }
      assert MapUpTo(items, n).Keys == MapUpTo(items, n - 1).Keys + {items[n - 1].0};
    }
  }

  lemma {:induction false} MapPrefix<T>(a: seq<(string, T)>, b: seq<(string, T)>, n: nat)
    requires n <= |a| && n <= |b| && a[..n] == b[..n]
    ensures MapUpTo(a, n) == MapUpTo(b, n)
  {
    if n > 0 {
      assert a[..n - 1] == a[..n][..n - 1] && b[..n - 1] == b[..n][..n - 1];
      assert a[n - 1] == a[..n][n - 1] && b[n - 1] == b[..n][n - 1];
      MapPrefix(a, b, n - 1);
    }
  }

  lemma MapAppend<T>(items: seq<(string, T)>, x: (string, T))
    ensures MapOf(items + [x]) == MapOf(items)[x.0 := x.1]
  {
    assert (items + [x])[..|items|] == items[..|items|];
    MapPrefix(items + [x], items, |items|);
  }

  lemma MapReput<T>(m: map<string, T>, key: string, value: T)
    ensures (m - {key})[key := value] == m[key := value]
  {
  }

  lemma {:induction false} MapRemoveUpTo<T>(items: seq<(string, T)>, p: nat, n: nat)
    requires Distinct(items) && p < n <= |items|
    ensures MapUpTo(RemoveAt(items, p), n - 1) == MapUpTo(items, n) - {items[p].0}
  {
    var rest := RemoveAt(items, p);
    if n == p + 1 {
      assert rest[..p] == items[..p];
      MapPrefix(rest, items, p);
      if items[p].0 in MapUpTo(items, p) {
        var i := MapFind(items, p, items[p].0);
      }
    } else {
      MapRemoveUpTo(items, p, n - 1);
      assert rest[n - 2] == items[n - 1];
    }
  }

  lemma MapRemove<T>(items: seq<(string, T)>, p: nat)
    requires Distinct(items) && p < |items|
    ensures MapOf(RemoveAt(items, p)) == MapOf(items) - {items[p].0}
  {
    MapRemoveUpTo(items, p, |items|);
  }
}

/**
 The per-caller client caches of ClientFactory (tenant/client.go): unordered maps of clients and usage
 records that share one logical clock. Each public call is one atomic step.
 */
module ClientCache {
  import opened Wrappers
  import opened RecencyList
  import opened KeyedItems

  const DEFAULT_CAPACITY: nat := 128
  const DEFAULT_TTL: int := 600

  datatype Record = Record(created: int, lastUsed: nat)

  class CacheClock {
    var ticks: nat

    constructor ()
      ensures ticks == 0
    {
      ticks := 0;
    }

    method Next() returns (t: nat)
      modifies this
      ensures ticks == old(ticks) + 1 && t == ticks
    {
      ticks := ticks + 1;
      t := ticks;
    }
  }

  ghost function Clients<V>(recency: seq<Entry<V>>): (items: seq<(string, V)>)
    ensures |items| == |recency|
    ensures forall i :: 0 <= i < |items| ==> items[i] == (recency[i].key, recency[i].value)
  {
    seq(|recency|, i requires 0 <= i < |recency| => (recency[i].key, recency[i].value))
  }

  ghost function Records<V>(recency: seq<Entry<V>>, ages: seq<nat>): (items: seq<(string, Record)>)
    requires |ages| == |recency|
    ensures |items| == |recency|
    ensures forall i :: 0 <= i < |items| ==> items[i] == (recency[i].key, Record(recency[i].created, ages[i]))
  {
    seq(|recency|, i requires 0 <= i < |recency| => (recency[i].key, Record(recency[i].created, ages[i])))
  }

  predicate Increasing(ages: seq<nat>)
  {
    forall i, j :: 0 <= i < j < |ages| ==> ages[i] < ages[j]
  }

  /**
   The maps hold exactly the entries of the recency list. The `lastUsed` ticks of its entries are `ages`: distinct,
   in list order, and none ahead of the clock.
   */
  ghost predicate Represents<V>(
    hot: map<string, V>, meta: map<string, Record>, ticks: nat, recency: seq<Entry<V>>, ages: seq<nat>)
  {
    && |ages| == |recency| && RecencyList.Distinct(recency)
    && hot == MapOf(Clients(recency)) && meta == MapOf(Records(recency, ages))
    && Increasing(ages) && (ages != [] ==> ages[|ages| - 1] <= ticks)
  }

  lemma FindRepresented<V>(
    hot: map<string, V>, meta: map<string, Record>, ticks: nat, recency: seq<Entry<V>>, ages: seq<nat>, key: string)
    requires Represents(hot, meta, ticks, recency, ages)
    ensures key in hot <==> Has(recency, key)
    ensures key in meta <==> Has(recency, key)
    ensures Has(recency, key) ==>
      var p := IndexOf(recency, key);
      hot[key] == recency[p].value && meta[key] == Record(recency[p].created, ages[p])
  {
    if key in hot {
      var i := MapFind(Clients(recency), |recency|, key);
    }
    if key in meta {
      var i := MapFind(Records(recency, ages), |recency|, key);
    }
    if Has(recency, key) {
      MapGet(Clients(recency), |recency|, IndexOf(recency, key));
      MapGet(Records(recency, ages), |recency|, IndexOf(recency, key));
    }
  }

  lemma ClientsRemove<V>(recency: seq<Entry<V>>, p: nat)
    requires p < |recency|
    ensures Clients(RemoveAt(recency, p)) == RemoveAt(Clients(recency), p)
  {
    RemovedAt(recency, p);
  }

  lemma RecordsRemove<V>(recency: seq<Entry<V>>, ages: seq<nat>, p: nat)
    requires p < |recency| == |ages|
    ensures Records(RemoveAt(recency, p), RemoveAt(ages, p)) == RemoveAt(Records(recency, ages), p)
  {
    RemovedAt(recency, p);
    RemovedAt(ages, p);
  }

  lemma OrderRemove<V>(recency: seq<Entry<V>>, ages: seq<nat>, p: nat)
    requires p < |recency| == |ages| && RecencyList.Distinct(recency) && Increasing(ages)
    ensures RecencyList.Distinct(RemoveAt(recency, p)) && Increasing(RemoveAt(ages, p))
    ensures RemoveAt(ages, p) != [] ==> RemoveAt(ages, p)[|ages| - 2] <= ages[|ages| - 1]
  {
    RemovedAt(recency, p);
    RemovedAt(ages, p);
  }

  lemma ClientsWithout<V>(recency: seq<Entry<V>>, p: nat)
    requires RecencyList.Distinct(recency) && p < |recency|
    ensures MapOf(Clients(RemoveAt(recency, p))) == MapOf(Clients(recency)) - {recency[p].key}
  {
    MapRemove(Clients(recency), p);
    ClientsRemove(recency, p);
  }

  lemma RecordsWithout<V>(recency: seq<Entry<V>>, ages: seq<nat>, p: nat)
    requires RecencyList.Distinct(recency) && p < |recency| == |ages|
    ensures MapOf(Records(RemoveAt(recency, p), RemoveAt(ages, p))) == MapOf(Records(recency, ages)) - {recency[p].key}
  {
    MapRemove(Records(recency, ages), p);
    RecordsRemove(recency, ages, p);
  }

  lemma RemoveRepresented<V>(
    hot: map<string, V>, meta: map<string, Record>, ticks: nat, recency: seq<Entry<V>>, ages: seq<nat>, p: nat)
    requires Represents(hot, meta, ticks, recency, ages) && p < |recency|
    ensures Represents(hot - {recency[p].key}, meta - {recency[p].key}, ticks, RemoveAt(recency, p), RemoveAt(ages, p))
  {
    OrderRemove(recency, ages, p);
    ClientsWithout(recency, p);
    RecordsWithout(recency, ages, p);
  }

  lemma AppendRepresented<V>(
    hot: map<string, V>, meta: map<string, Record>, ticks: nat, recency: seq<Entry<V>>, ages: seq<nat>, e: Entry<V>)
    requires Represents(hot, meta, ticks, recency, ages) && !Has(recency, e.key)
    ensures Represents(
      hot[e.key := e.value], meta[e.key := Record(e.created, ticks + 1)], ticks + 1, recency + [e], ages + [ticks + 1])
  {
    MapAppend(Clients(recency), (e.key, e.value));
    assert Clients(recency + [e]) == Clients(recency) + [(e.key, e.value)];
    MapAppend(Records(recency, ages), (e.key, Record(e.created, ticks + 1)));
    assert Records(recency + [e], ages + [ticks + 1]) ==
      Records(recency, ages) + [(e.key, Record(e.created, ticks + 1))];
  }

  lemma GetRepresented<V>(
    hot: map<string, V>, meta: map<string, Record>, ticks: nat, recency: seq<Entry<V>>, ages: seq<nat>, p: nat)
    requires Represents(hot, meta, ticks, recency, ages) && p < |recency|
    ensures recency[p].key in hot && hot[recency[p].key] == recency[p].value
  {
    MapGet(Clients(recency), |recency|, p);
  }

  lemma RemovedIsAbsent<V>(recency: seq<Entry<V>>, p: nat)
    requires p < |recency| && RecencyList.Distinct(recency)
    ensures !Has(RemoveAt(recency, p), recency[p].key)
  {
  }

  /** Using an entry under a fresh tick moves it to the recent end. */
  lemma TouchRepresented<V>(
    hot: map<string, V>, meta: map<string, Record>, ticks: nat, recency: seq<Entry<V>>, ages: seq<nat>, p: nat,
    e: Entry<V>)
    requires Represents(hot, meta, ticks, recency, ages) && p < |recency|
    requires e.key == recency[p].key && e.value == recency[p].value
    ensures Represents(hot, meta[e.key := Record(e.created, ticks + 1)], ticks + 1,
                       RemoveAt(recency, p) + [e], RemoveAt(ages, p) + [ticks + 1])
  {
    GetRepresented(hot, meta, ticks, recency, ages, p);
    RemovedIsAbsent(recency, p);
    RemoveRepresented(hot, meta, ticks, recency, ages, p);
    AppendRepresented(hot - {e.key}, meta - {e.key}, ticks, RemoveAt(recency, p), RemoveAt(ages, p), e);
    MapReput(hot, e.key, e.value);
    assert hot[e.key := e.value] == hot;
    MapReput(meta, e.key, Record(e.created, ticks + 1));
  }

  lemma UseRepresented<V>(
    hot: map<string, V>, meta: map<string, Record>, ticks: nat, recency: seq<Entry<V>>, ages: seq<nat>, key: string,
    now: int)
    returns (recency': seq<Entry<V>>, ages': seq<nat>, record: Record)
    requires Represents(hot, meta, ticks, recency, ages) && Has(recency, key)
    ensures key in hot && key in meta && hot[key] == recency[IndexOf(recency, key)].value
    ensures record == Record(if meta[key].created == ZERO_TIME then now else meta[key].created, ticks + 1)
    ensures recency' == Touched(recency, key, now) && |recency'| == |recency|
    ensures Represents(hot, meta[key := record], ticks + 1, recency', ages')
  {
    var p := IndexOf(recency, key);
    var e := Stamped(recency[p], now);
    FindRepresented(hot, meta, ticks, recency, ages, key);
    TouchRepresented(hot, meta, ticks, recency, ages, p, e);
    recency', ages' := RemoveAt(recency, p) + [e], RemoveAt(ages, p) + [ticks + 1];
    record := Record(e.created, ticks + 1);
  }

  lemma SizeRepresented<V>(
    hot: map<string, V>, meta: map<string, Record>, ticks: nat, recency: seq<Entry<V>>, ages: seq<nat>)
    requires Represents(hot, meta, ticks, recency, ages)
    ensures |hot| == |recency|
  {
    MapSize(Clients(recency), |recency|);
  }

  /** Distinct ticks make the least recently used record unique: it is the front of the list. */
  lemma OldestIsFirst<V>(
    hot: map<string, V>, meta: map<string, Record>, ticks: nat, recency: seq<Entry<V>>, ages: seq<nat>, oldest: string)
    requires Represents(hot, meta, ticks, recency, ages) && recency != []
    requires oldest in meta && forall k :: k in meta ==> meta[oldest].lastUsed <= meta[k].lastUsed
    ensures recency[0].key == oldest
  {
    FindRepresented(hot, meta, ticks, recency, ages, oldest);
    FindRepresented(hot, meta, ticks, recency, ages, recency[0].key);
  }

  /** The minimum-search over usage records, in whatever order the runtime ranges over the map. */
  method OldestKey(meta: map<string, Record>) returns (oldest: string)
    ensures meta == map[] ==> oldest == ""
    ensures meta != map[] && "" !in meta ==>
      oldest in meta && forall k :: k in meta ==> meta[oldest].lastUsed <= meta[k].lastUsed
  {
    oldest := "";
    var least: nat := 0;
    var remaining := meta.Keys;
    while remaining != {}
      invariant remaining <= meta.Keys
      invariant oldest == "" ==> "" in meta || remaining == meta.Keys
      invariant oldest != "" ==> oldest in meta && least == meta[oldest].lastUsed
      invariant oldest != "" && "" !in meta ==> forall k :: k in meta.Keys - remaining ==> least <= meta[k].lastUsed
      decreases |remaining|
    {
      var key :| key in remaining;
      if oldest == "" || meta[key].lastUsed < least {
        oldest, least := key, meta[key].lastUsed;
      }
      remaining := remaining - {key};
    }
  }

  class ClientCache<V> {
    const clock: CacheClock
    const capacity: int
    const ttl: int
    var hot: map<string, V>
    var meta: map<string, Record>
    ghost var recency: seq<Entry<V>>
    ghost var ages: seq<nat>

    function Capacity(): (c: nat)
      ensures c >= 1
    {
      if capacity > 0 then capacity else DEFAULT_CAPACITY
    }

    function Ttl(): (t: int)
      ensures t > 0
    {
      if ttl > 0 then ttl else DEFAULT_TTL
    }

    ghost predicate Valid()
      reads this, clock
    {
      Represents(hot, meta, clock.ticks, recency, ages) && "" !in meta && |recency| <= Capacity()
    }

    constructor (clock: CacheClock, capacity: int, ttl: int)
      ensures Valid() && recency == [] && this.clock == clock && this.capacity == capacity && this.ttl == ttl
    {
      this.clock, this.capacity, this.ttl := clock, capacity, ttl;
      hot, meta := map[], map[];
      recency, ages := [], [];
    }

    /** The record of a cached key is used once more. */
    method Use(key: string, now: int) returns (r: V)
      requires Valid() && Has(recency, key) && key in hot && key in meta
      modifies this, clock
      ensures Valid() && clock.ticks == old(clock.ticks) + 1 && hot == old(hot)
      ensures r == old(recency)[IndexOf(old(recency), key)].value && recency == Touched(old(recency), key, now)
    {
      ghost var recency', ages', used := UseRepresented(hot, meta, clock.ticks, recency, ages, key, now);
      var record := meta[key];
      if record.created == ZERO_TIME {
        record := record.(created := now);
      }
      var tick := clock.Next();
      record := record.(lastUsed := tick);
      assert record == used;
      meta, recency, ages := meta[key := record], recency', ages';
      r := hot[key];
    }

    /** dynamicFromCache and authFromCache. */
    method FromCache(key: string, now: int) returns (r: Option<V>)
      requires Valid()
      modifies this, clock
      ensures Valid() && clock.ticks >= old(clock.ticks)
      ensures (r, recency) == Lookup(old(recency), key, now, Ttl())
    {
      FindRepresented(hot, meta, clock.ticks, recency, ages, key);
      if key !in hot {
        return None;
      }
      var record := meta[key];
      if record.created == ZERO_TIME {
        record := record.(created := now);
      }
      if now - record.created >= Ttl() {
        RemoveRepresented(hot, meta, clock.ticks, recency, ages, IndexOf(recency, key));
        hot, meta := hot - {key}, meta - {key};
        ages := RemoveAt(ages, IndexOf(recency, key));
        recency := Without(recency, key);
        return None;
      }
      var client := Use(key, now);
      return Some(client);
    }

    /** storeDynamic and storeAuth. Every caller's key is `cluster:hash`, never empty. */
    method StoreClient(key: string, value: V, now: int) returns (r: V)
      requires Valid() && key != ""
      modifies this, clock
      ensures Valid() && clock.ticks >= old(clock.ticks)
      ensures (r, recency) == Store(old(recency), key, value, now, Capacity())
    {
      FindRepresented(hot, meta, clock.ticks, recency, ages, key);
      if key in hot {
        r := Use(key, now);
        return;
      }
      AppendRepresented(hot, meta, clock.ticks, recency, ages, Entry(key, value, now));
      var tick := clock.Next();
      hot := hot[key := value];
      meta := meta[key := Record(now, tick)];
      recency, ages := recency + [Entry(key, value, now)], ages + [tick];
      Evict();
      return value;
    }

    method EvictOldest()
      requires Represents(hot, meta, clock.ticks, recency, ages) && "" !in meta && recency != []
      modifies this
      ensures Represents(hot, meta, clock.ticks, recency, ages) && "" !in meta
      ensures recency == old(recency)[1..]
    {
      FindRepresented(hot, meta, clock.ticks, recency, ages, recency[0].key);
      var oldest := OldestKey(meta);
      OldestIsFirst(hot, meta, clock.ticks, recency, ages, oldest);
      RemoveRepresented(hot, meta, clock.ticks, recency, ages, 0);
      hot, meta := hot - {oldest}, meta - {oldest};
      recency, ages := RemoveAt(recency, 0), RemoveAt(ages, 0);
    }

    method Evict()
      requires Represents(hot, meta, clock.ticks, recency, ages) && "" !in meta
      modifies this
      ensures Valid() && recency == Newest(old(recency), Capacity())
    {
      SizeRepresented(hot, meta, clock.ticks, recency, ages);
      while |hot| > Capacity()
        invariant Represents(hot, meta, clock.ticks, recency, ages) && "" !in meta && |hot| == |recency|
        invariant Newest(recency, Capacity()) == Newest(old(recency), Capacity())
        decreases |hot|
      {
        NewestDropsFirst(recency, Capacity());
        EvictOldest();
        SizeRepresented(hot, meta, clock.ticks, recency, ages);
      }
    }

    /** What SetBaseConfig does to a cache: no client of the previous host survives. */
    method Clear()
      modifies this
      ensures Valid() && recency == [] && hot == map[]
    {
      hot, meta := map[], map[];
      recency, ages := [], [];
    }
  }
}
