// internal/http/analytics_service.py: the TTL cache of responses, bounded in size.
module ResponseCache {
  import opened Basics

  datatype Entry<V> = Entry(value: V, expiresAt: real)

  // time.time(): some later moment on every reading.
  class Clock {
    var time: real

    constructor () {
      time := 0.0;
    }

    method Now() returns (t: real)
      modifies this
      ensures old(time) <= time && t == time
    {
      var passed: real := *;
      if passed > 0.0 {
        time := time + passed;
      }
      t := time;
    }
  }

  // ----- A dict, with the order of its keys -----------------------------------------------------

  datatype Dict<K, V> = Dict(keys: seq<K>, items: map<K, V>)
  {
    ghost predicate Valid() {
      Distinct(keys) && (forall k :: k in keys ==> k in items) && forall k :: k in items ==> k in keys
    }
  }

  // A new key comes last; a known one keeps its place.
  function Put<K(==), V>(d: Dict<K, V>, key: K, value: V): Dict<K, V> {
    Dict(if key in d.items then d.keys else d.keys + [key], d.items[key := value])
  }

  lemma PutKeepsPlaces<K, V>(d: Dict<K, V>, key: K, value: V, other: K)
    requires d.Valid()
    ensures other in Put(d, key, value).items <==> other in d.items || other == key
    ensures other in d.items && other != key ==> Put(d, key, value).items[other] == d.items[other]
    ensures key in d.items ==> (Precedes(Put(d, key, value).keys, key, other) <==> Precedes(d.keys, key, other))
    ensures key !in d.items && other in d.items ==> Precedes(Put(d, key, value).keys, other, key)
  {
    if key !in d.items && other in d.items {
      var i :| 0 <= i < |d.keys| && d.keys[i] == other;
      assert (d.keys + [key])[i] == other && (d.keys + [key])[|d.keys|] == key;
    }
  }

  // The keys in `these`, in their order.
  function Kept<K(==)>(keys: seq<K>, these: set<K>): seq<K> {
    if keys == [] then []
    else
      var n := |keys| - 1;
      Kept(keys[..n], these) + (if keys[n] in these then [keys[n]] else [])
  }

  // The dict with the other keys popped.
  function Only<K(==), V>(d: Dict<K, V>, these: set<K>): Dict<K, V> {
    Dict(Kept(d.keys, these), map k | k in d.items && k in these :: d.items[k])
  }

  lemma {:induction false} KeptAre<K(!new)>(keys: seq<K>, these: set<K>)
    ensures forall k :: k in Kept(keys, these) <==> k in keys && k in these
  {
    if keys != [] {
      var n := |keys| - 1;
      KeptAre(keys[..n], these);
      assert keys == keys[..n] + [keys[n]];
    }
  }

  lemma {:induction false} KeptDistinct<K(!new)>(keys: seq<K>, these: set<K>)
    requires Distinct(keys)
    ensures Distinct(Kept(keys, these))
  {
    if keys != [] {
      var n := |keys| - 1;
      KeptDistinct(keys[..n], these);
      KeptAre(keys[..n], these);
      assert keys[n] !in keys[..n];
    }
  }

  lemma {:induction false} KeptInOrder<K(!new)>(keys: seq<K>, these: set<K>, a: K, b: K)
    requires Precedes(Kept(keys, these), a, b)
    ensures Precedes(keys, a, b)
  {
    var n := |keys| - 1;
    var kept := Kept(keys[..n], these);
    var i, j :| 0 <= i < j < |Kept(keys, these)| && Kept(keys, these)[i] == a && Kept(keys, these)[j] == b;
    if j < |kept| {
      assert Precedes(kept, a, b);
      KeptInOrder(keys[..n], these, a, b);
      var p, q :| 0 <= p < q < n && keys[..n][p] == a && keys[..n][q] == b;
      assert keys[p] == a && keys[q] == b;
    } else {
      KeptAre(keys[..n], these);
      assert kept[i] in keys[..n];
      var p :| 0 <= p < n && keys[p] == a;
      assert keys[n] == b;
    }
  }

  lemma PrecedesOrFollows<K>(keys: seq<K>, a: K, b: K)
    requires Distinct(keys) && a in keys && b in keys && a != b
    ensures Precedes(keys, a, b) <==> !Precedes(keys, b, a)
  {
    var i :| 0 <= i < |keys| && keys[i] == a;
    var j :| 0 <= j < |keys| && keys[j] == b;
    assert i < j ==> Precedes(keys, a, b);
    assert j < i ==> Precedes(keys, b, a);
  }

  lemma KeptSnoc<K>(keys: seq<K>, k: K, these: set<K>)
    ensures Kept(keys + [k], these) == Kept(keys, these) + (if k in these then [k] else [])
  {
    assert (keys + [k])[..|keys|] == keys;
  }

  lemma {:induction false} KeptKept<K>(keys: seq<K>, these: set<K>, those: set<K>)
    ensures Kept(Kept(keys, these), those) == Kept(keys, these * those)
  {
    if keys != [] {
      var n := |keys| - 1;
      KeptKept(keys[..n], these, those);
      if keys[n] in these {
        KeptSnoc(Kept(keys[..n], these), keys[n], those);
      } else {
        assert Kept(keys, these) == Kept(keys[..n], these);
      }
    }
  }

  lemma {:induction false} KeptAll<K>(keys: seq<K>, these: set<K>)
    requires forall k :: k in keys ==> k in these
    ensures Kept(keys, these) == keys
  {
    if keys != [] {
      var n := |keys| - 1;
      KeptAll(keys[..n], these);
      assert keys == keys[..n] + [keys[n]];
    }
  }

  lemma OnlyValid<K(!new), V>(d: Dict<K, V>, these: set<K>)
    requires d.Valid()
    ensures Only(d, these).Valid() && Only(d, these).items.Keys == d.items.Keys * these
  {
    KeptAre(d.keys, these);
    KeptDistinct(d.keys, these);
  }

  lemma OnlyOnly<K, V>(d: Dict<K, V>, these: set<K>, those: set<K>)
    ensures Only(Only(d, these), those) == Only(d, these * those)
  {
    KeptKept(d.keys, these, those);
  }

  lemma OnlyAll<K, V>(d: Dict<K, V>, these: set<K>)
    requires d.Valid() && d.items.Keys <= these
    ensures Only(d, these) == d
  {
    KeptAll(d.keys, these);
    assert Only(d, these).items == d.items;
  }

  lemma KeysSize<K, V>(d: Dict<K, V>)
    requires d.Valid()
    ensures |d.keys| == |d.items| == |d.items.Keys|
  {
    DistinctSize(d.keys);
    assert Elements(d.keys) == d.items.Keys;
  }

  lemma PutValid<K, V>(d: Dict<K, V>, key: K, value: V)
    requires d.Valid()
    ensures Put(d, key, value).Valid()
  {
  }

  // ----- Pruning, as a rule for each key -----------------------------------------------------------

  type Entries<K, V> = Dict<K, Entry<V>>

  ghost function Live<K(!new), V(!new)>(d: Entries<K, V>, now: real): Entries<K, V> {
    Only(d, set k | k in d.items && d.items[k].expiresAt > now)
  }

  // a goes before b: it expires earlier, or at the same moment and is the earlier in the dict.
  ghost predicate GoesBefore<K(!new), V(!new)>(d: Entries<K, V>, a: K, b: K) {
    a in d.items && b in d.items &&
    (d.items[a].expiresAt < d.items[b].expiresAt || (d.items[a].expiresAt == d.items[b].expiresAt && Precedes(d.keys, a, b)))
  }

  ghost function Outlasting<K(!new), V(!new)>(d: Entries<K, V>, key: K): set<K> {
    set k | k in d.items && GoesBefore(d, key, k)
  }

  // The `limit` keys that go last.
  ghost function Last<K(!new), V(!new)>(d: Entries<K, V>, limit: nat): set<K> {
    set k | k in d.items && |Outlasting(d, k)| < limit
  }

  // Pruning does nothing below the limit.  Above it, the expired entries go, and then all but
  // the last.
  ghost function Pruned<K(!new), V(!new)>(d: Entries<K, V>, now: real, limit: nat): Entries<K, V> {
    if |d.keys| <= limit then d else Only(Live(d, now), Last(Live(d, now), limit))
  }

  // For two keys of a dict, either goes before the other.
  lemma GoesBeforeIsTotal<K(!new), V(!new)>(d: Entries<K, V>, a: K, b: K)
    requires d.Valid() && a in d.items && b in d.items && a != b
    ensures GoesBefore(d, a, b) <==> !GoesBefore(d, b, a)
  {
    PrecedesOrFollows(d.keys, a, b);
  }

  lemma NotBeforeItself<K(!new), V(!new)>(d: Entries<K, V>, a: K)
    requires d.Valid()
    ensures !GoesBefore(d, a, a)
  {
  }

  // Whatever has gone goes before whatever stays.
  ghost predicate LeavesLast<K(!new), V(!new)>(d: Entries<K, V>, stay: set<K>) {
    && stay <= d.items.Keys
    && forall k, gone :: k in stay && gone in d.items && gone !in stay ==> GoesBefore(d, gone, k)
  }

  // If `limit` of them stay, these are the last.
  lemma StayingAreLast<K(!new), V(!new)>(d: Entries<K, V>, stay: set<K>, limit: nat)
    requires d.Valid() && LeavesLast(d, stay) && |stay| <= limit && (stay == d.items.Keys || |stay| == limit)
    ensures stay == Last(d, limit)
  {
    forall k | k in d.items
      ensures k in stay <==> |Outlasting(d, k)| < limit
    {
      if k in stay {
        StayingIsLast(d, stay, k);
      } else {
        assert stay <= Outlasting(d, k);
        SubsetSize(stay, Outlasting(d, k));
      }
    }
  }

  lemma StayingIsLast<K(!new), V(!new)>(d: Entries<K, V>, stay: set<K>, k: K)
    requires d.Valid() && stay <= d.items.Keys && k in stay
    requires forall gone :: gone in d.items && gone !in stay ==> GoesBefore(d, gone, k)
    ensures |Outlasting(d, k)| < |stay|
  {
    forall j | j in Outlasting(d, k)
      ensures j in stay - {k}
    {
      NotBeforeItself(d, k);
      GoesBeforeIsTotal(d, j, k);
    }
    SubsetSize(Outlasting(d, k), stay - {k});
  }

  // ----- The cache ------------------------------------------------------------------------------------

  class Cache<K(==,!new), V(!new)> {
    const clock: Clock
    const maxEntries: nat
    const defaultTtl: real
    var entries: Entries<K, V>
    ghost var latest: map<K, Entry<V>>

    // What is stored is what was most recently set, and there is not too much of it.
    ghost predicate Valid()
      reads this
    {
      entries.Valid() && Latest() && |entries.keys| <= maxEntries
    }

    ghost predicate Latest()
      reads this
    {
      forall k :: k in entries.items ==> k in latest && entries.items[k] == latest[k]
    }

    constructor (clock: Clock, maxEntries: int, defaultTtl: real)
      ensures Valid() && entries == Dict([], map[]) && latest == map[] && this.clock == clock
      ensures this.maxEntries == if maxEntries < 64 then 64 else maxEntries
      ensures this.defaultTtl == if defaultTtl < 5.0 then 5.0 else defaultTtl
    {
      this.clock := clock;
      this.maxEntries := if maxEntries < 64 then 64 else maxEntries;
      this.defaultTtl := if defaultTtl < 5.0 then 5.0 else defaultTtl;
      entries, latest := Dict([], map[]), map[];
    }

    // A hit returns the value most recently set for the key, which has not expired; an
    // entry found expired is dropped.
    method Get(key: K) returns (found: Option<V>)
      requires Valid()
      modifies this, clock
      ensures Valid() && latest == old(latest) && old(clock.time) <= clock.time
      ensures found.Some? <==> key in old(entries).items && clock.time < old(entries).items[key].expiresAt
      ensures found.Some? ==> key in latest && found.value == latest[key].value && clock.time < latest[key].expiresAt
      ensures entries == if found.Some? then old(entries) else Only(old(entries), old(entries).items.Keys - {key})
    {
      var now := clock.Now();
      if key !in entries.items {
        OnlyAll(entries, entries.items.Keys - {key});
        return None;
      }
      if entries.items[key].expiresAt <= now {
        OnlyValid(entries, entries.items.Keys - {key});
        ghost var before := entries;
        entries := Only(entries, entries.items.Keys - {key});
        FewerKeys(before, entries);
        return None;
      }
      found := Some(entries.items[key].value);
    }

    // The value is the key's latest; the cache is pruned.
    method Set(key: K, value: V, ttl: Option<real>)
      requires Valid()
      modifies this, clock
      ensures Valid() && old(clock.time) <= clock.time
      ensures key in latest && latest == old(latest)[key := latest[key]] && latest[key].value == value
      ensures var lifetime := match ttl case None => defaultTtl case Some(seconds) => seconds;
        old(clock.time) <= latest[key].expiresAt - lifetime <= clock.time
      ensures entries == Pruned(Put(old(entries), key, latest[key]), clock.time, maxEntries)
      ensures OutlivesItsSet(old(entries), key, latest[key])
    {
      var now := clock.Now();
      var entry := Entry(value, now + Lifetime(ttl));
      PutValid(entries, key, entry);
      entries := Put(entries, key, entry);
      latest := latest[key := entry];
      ghost var before, full := old(entries), entries;
      Prune();
      SurvivesExactlyWhen(full, clock.time, maxEntries, key);
      if key !in before.items && entry.expiresAt > clock.time {
        NewEntrySurvivesExactlyWhen(before, key, entry, clock.time, maxEntries);
      }
    }

    // Whether the entry just put is still there: if it has not yet expired, exactly when fewer
    // than the maximum outlast it; for a new key, exactly when fewer expire later.
    ghost predicate OutlivesItsSet(before: Entries<K, V>, key: K, entry: Entry<V>)
      reads this, clock
    {
      var full := Put(before, key, entry);
      entry.expiresAt > clock.time ==>
        && (key in entries.items <==> |Outlasting(Live(full, clock.time), key)| < maxEntries)
        && (key !in before.items ==> (key in entries.items <==> |Longer(full, clock.time, key)| < maxEntries))
    }

    function Lifetime(ttl: Option<real>): real {
      if ttl.Some? then ttl.value else defaultTtl
    }

    method Prune()
      requires entries.Valid() && Latest()
      modifies this`entries, clock
      ensures Valid() && old(clock.time) <= clock.time
      ensures entries == Pruned(old(entries), clock.time, maxEntries)
    {
      if |entries.keys| <= maxEntries {
        return;
      }
      var now := clock.Now();
      var live := DropExpired(entries, now);
      OnlyValid(entries, set k | k in entries.items && entries.items[k].expiresAt > now);
      var kept := DropEarliest(live, maxEntries);
      entries := kept;
    }
  }

  lemma FewerKeys<K(!new), V(!new)>(more: Entries<K, V>, fewer: Entries<K, V>)
    requires more.Valid() && fewer.Valid() && fewer.items.Keys <= more.items.Keys
    ensures |fewer.keys| <= |more.keys|
  {
    KeysSize(more);
    KeysSize(fewer);
    SubsetSize(fewer.items.Keys, more.items.Keys);
  }

  // The keys left when those before i have been looked at.
  ghost function NotDropped<K(!new), V(!new)>(d: Entries<K, V>, now: real, i: nat): set<K>
    requires i <= |d.keys|
  {
    set k | k in d.items && (k in d.keys[i..] || d.items[k].expiresAt > now)
  }

  // The loop over list(items()).
  method DropExpired<K(==,!new), V(!new)>(entries: Entries<K, V>, now: real) returns (live: Entries<K, V>)
    requires entries.Valid()
    ensures live == Live(entries, now)
  {
    live := entries;
    OnlyAll(entries, NotDropped(entries, now, 0));
    for i := 0 to |entries.keys|
      invariant live == Only(entries, NotDropped(entries, now, i))
    {
      var k := entries.keys[i];
      DropStep(entries, now, i);
      if entries.items[k].expiresAt <= now {
        PopOne(entries, NotDropped(entries, now, i), k);
        live := Only(live, live.items.Keys - {k});
      }
    }
    assert NotDropped(entries, now, |entries.keys|) == set k | k in entries.items && entries.items[k].expiresAt > now;
  }

  lemma DropStep<K(!new), V(!new)>(d: Entries<K, V>, now: real, i: nat)
    requires d.Valid() && i < |d.keys|
    ensures d.keys[i] in d.items
    ensures NotDropped(d, now, i + 1) ==
      if d.items[d.keys[i]].expiresAt <= now then NotDropped(d, now, i) - {d.keys[i]} else NotDropped(d, now, i)
  {
    assert d.keys[i..] == [d.keys[i]] + d.keys[i + 1..];
    assert d.keys[i] !in d.keys[i + 1..];
  }

  // dict.pop
  lemma PopOne<K(!new), V>(d: Dict<K, V>, these: set<K>, k: K)
    requires d.Valid() && these <= d.items.Keys
    ensures Only(Only(d, these), Only(d, these).items.Keys - {k}) == Only(d, these - {k})
  {
    OnlyValid(d, these);
    assert Only(d, these).items.Keys - {k} == these - {k};
    OnlyOnly(d, these, these - {k});
    assert these * (these - {k}) == these - {k};
  }

  // min(cache, key = expiry): the first in the dict of those that expire earliest.
  method EarliestKey<K(==,!new), V(!new)>(d: Entries<K, V>) returns (e: K)
    requires d.Valid() && d.keys != []
    ensures e in d.items && forall k :: k in d.items && k != e ==> GoesBefore(d, e, k)
  {
    ghost var at := 0;
    e := d.keys[0];
    for i := 1 to |d.keys|
      invariant 0 <= at < i && e == d.keys[at]
      invariant forall j :: 0 <= j < i ==> d.keys[j] in d.items && d.items[e].expiresAt <= d.items[d.keys[j]].expiresAt
      invariant forall j :: 0 <= j < at ==> d.items[e].expiresAt < d.items[d.keys[j]].expiresAt
    {
      var k := d.keys[i];
      if d.items[k].expiresAt < d.items[e].expiresAt {
        e, at := k, i;
      }
    }
    forall k | k in d.items && k != e
      ensures GoesBefore(d, e, k)
    {
      var j :| 0 <= j < |d.keys| && d.keys[j] == k;
      assert j > at ==> Precedes(d.keys, e, k);
    }
  }

  // Ends, because every round removes one entry.
  method DropEarliest<K(==,!new), V(!new)>(entries: Entries<K, V>, limit: nat) returns (kept: Entries<K, V>)
    requires entries.Valid()
    ensures kept.Valid() && |kept.keys| <= limit
    ensures kept == Only(entries, Last(entries, limit))
  {
    kept := entries;
    ghost var stay := entries.items.Keys;
    OnlyAll(entries, stay);
    KeysSize(entries);
    while |kept.keys| > limit
      invariant kept.Valid() && kept == Only(entries, stay) && |kept.keys| == |stay|
      invariant stay == entries.items.Keys || |stay| >= limit
      invariant LeavesLast(entries, stay)
      decreases |stay|
    {
      var e := EarliestKey(kept);
      PopEarliest(entries, stay, e);
      kept := Only(kept, kept.items.Keys - {e});
      stay := stay - {e};
    }
    StayingAreLast(entries, stay, limit);
  }

  // One round.
  lemma PopEarliest<K(!new), V(!new)>(d: Entries<K, V>, stay: set<K>, e: K)
    requires d.Valid() && LeavesLast(d, stay) && e in Only(d, stay).items
    requires forall k :: k in Only(d, stay).items && k != e ==> GoesBefore(Only(d, stay), e, k)
    ensures e in stay && LeavesLast(d, stay - {e})
    ensures Only(Only(d, stay), Only(d, stay).items.Keys - {e}) == Only(d, stay - {e})
    ensures Only(d, stay - {e}).Valid() && |Only(d, stay - {e}).keys| == |stay - {e}|
  {
    EarliestOfAll(d, stay, e);
    PopOne(d, stay, e);
    OnlyValid(d, stay - {e});
    KeysSize(Only(d, stay - {e}));
    assert Only(d, stay - {e}).items.Keys == stay - {e};
  }

  // What goes first among those that stay goes before them in the whole dict too.
  lemma EarliestOfAll<K(!new), V(!new)>(d: Entries<K, V>, stay: set<K>, e: K)
    requires e in Only(d, stay).items
    requires forall k :: k in Only(d, stay).items && k != e ==> GoesBefore(Only(d, stay), e, k)
    ensures forall k :: k in stay && k in d.items && k != e ==> GoesBefore(d, e, k)
  {
    forall k | k in stay && k in d.items && k != e
      ensures GoesBefore(d, e, k)
    {
      assert GoesBefore(Only(d, stay), e, k);
      OnlyKeepsOrder(d, stay, e, k);
    }
  }

  lemma OnlyKeepsOrder<K(!new), V(!new)>(d: Entries<K, V>, these: set<K>, a: K, b: K)
    requires GoesBefore(Only(d, these), a, b)
    ensures GoesBefore(d, a, b)
  {
    if Precedes(Only(d, these).keys, a, b) {
      KeptInOrder(d.keys, these, a, b);
    }
  }

  // ----- Which entries survive ---------------------------------------------------------------------

  // The live entries that outlast `key`'s, and those that last at least as long.
  ghost function Longer<K(!new), V(!new)>(d: Entries<K, V>, now: real, key: K): set<K>
    requires key in d.items
  {
    set k | k in d.items && k != key && d.items[k].expiresAt > now && d.items[k].expiresAt > d.items[key].expiresAt
  }

  ghost function AsLong<K(!new), V(!new)>(d: Entries<K, V>, now: real, key: K): set<K>
    requires key in d.items
  {
    set k | k in d.items && k != key && d.items[k].expiresAt > now && d.items[k].expiresAt >= d.items[key].expiresAt
  }

  lemma LiveKeys<K(!new), V(!new)>(d: Entries<K, V>, now: real)
    requires d.Valid()
    ensures Live(d, now).Valid()
    ensures forall k :: k in Live(d, now).items <==> k in d.items && d.items[k].expiresAt > now
  {
    OnlyValid(d, set k | k in d.items && d.items[k].expiresAt > now);
  }

  // Any entry, ties included: above the limit it survives exactly when it is live and fewer
  // than `limit` live others go after it.
  lemma SurvivesExactlyWhen<K(!new), V(!new)>(d: Entries<K, V>, now: real, limit: nat, key: K)
    requires d.Valid() && key in d.items
    ensures key in Pruned(d, now, limit).items <==>
      |d.keys| <= limit || (d.items[key].expiresAt > now && |Outlasting(Live(d, now), key)| < limit)
    ensures d.items[key].expiresAt > now ==>
      (key in Pruned(d, now, limit).items <==> |Outlasting(Live(d, now), key)| < limit)
  {
    LiveKeys(d, now);
    if |d.keys| <= limit && d.items[key].expiresAt > now {
      StayingIsLast(Live(d, now), Live(d, now).items.Keys, key);
      SubsetSize(Live(d, now).items.Keys, d.items.Keys);
      KeysSize(d);
    }
  }

  // What outlasts an entry lies between what lasts longer and what lasts as long.
  lemma OutlastingBounds<K(!new), V(!new)>(d: Entries<K, V>, now: real, key: K)
    requires d.Valid() && key in d.items && d.items[key].expiresAt > now
    ensures |Longer(d, now, key)| <= |Outlasting(Live(d, now), key)| <= |AsLong(d, now, key)|
  {
    LiveKeys(d, now);
    NotBeforeItself(Live(d, now), key);
    assert Longer(d, now, key) <= Outlasting(Live(d, now), key) <= AsLong(d, now, key);
    SubsetSize(Longer(d, now, key), Outlasting(Live(d, now), key));
    SubsetSize(Outlasting(Live(d, now), key), AsLong(d, now, key));
  }

  // An entry that expires before `limit` live others does not survive the pruning.
  lemma ShortLivedEntryIsEvicted<K(!new), V(!new)>(d: Entries<K, V>, now: real, limit: nat, key: K)
    requires d.Valid() && key in d.items && |Longer(d, now, key)| >= limit
    ensures key !in Pruned(d, now, limit).items
  {
    SurvivesExactlyWhen(d, now, limit, key);
    if d.items[key].expiresAt > now {
      OutlastingBounds(d, now, key);
    } else {
      assert Longer(d, now, key) + {key} <= d.items.Keys;
      SubsetSize(Longer(d, now, key) + {key}, d.items.Keys);
      KeysSize(d);
    }
  }

  // A live entry survives if fewer than `limit` live others last at least as long.
  lemma LongLivedEntrySurvives<K(!new), V(!new)>(d: Entries<K, V>, now: real, limit: nat, key: K)
    requires d.Valid() && key in d.items && d.items[key].expiresAt > now && |AsLong(d, now, key)| < limit
    ensures key in Pruned(d, now, limit).items
  {
    SurvivesExactlyWhen(d, now, limit, key);
    OutlastingBounds(d, now, key);
  }

  // ----- A freshly set entry can be its own victim ---------------------------------------------

  // A key that was not there comes last, so that ties go its way: put in with a life still
  // ahead, it stays exactly when fewer than `limit` live entries expire after it.
  lemma NewEntrySurvivesExactlyWhen<K(!new), V(!new)>(d: Entries<K, V>, key: K, entry: Entry<V>, now: real, limit: nat)
    requires d.Valid() && key !in d.items && entry.expiresAt > now
    ensures key in Pruned(Put(d, key, entry), now, limit).items <==> |Longer(Put(d, key, entry), now, key)| < limit
  {
    var full := Put(d, key, entry);
    PutValid(d, key, entry);
    SurvivesExactlyWhen(full, now, limit, key);
    LiveKeys(full, now);
    forall k | k in Outlasting(Live(full, now), key)
      ensures k in Longer(full, now, key)
    {
      OnlyKeepsOrder(full, (set j | j in full.items && full.items[j].expiresAt > now), key, k);
      LastPrecedesNone(d, key, entry, k);
    }
    assert Longer(full, now, key) == Outlasting(Live(full, now), key);
  }

  lemma LastPrecedesNone<K(!new), V(!new)>(d: Entries<K, V>, key: K, entry: Entry<V>, k: K)
    requires d.Valid() && key !in d.items
    ensures !Precedes(Put(d, key, entry).keys, key, k)
  {
    assert key !in d.keys;
  }

  // ----- A full cache, concretely ---------------------------------------------------------------

  // n entries, numbered from 0, that expire together.
  function Full(n: nat, expiresAt: real): (d: Entries<nat, int>)
    ensures d.Valid() && |d.keys| == n && (forall i: nat :: i in d.items <==> i < n)
    ensures forall i: nat :: i < n ==> d.items[i].expiresAt == expiresAt
  {
    if n == 0 then Dict([], map[]) else Put(Full(n - 1, expiresAt), n - 1, Entry(0, expiresAt))
  }

  lemma AllLive<K(!new), V(!new)>(d: Entries<K, V>, now: real)
    requires d.Valid() && forall k :: k in d.items ==> d.items[k].expiresAt > now
    ensures Live(d, now) == d
  {
    OnlyAll(d, set k | k in d.items && d.items[k].expiresAt > now);
  }

  // One more entry, with a shorter life than those that fill the cache, is the one that goes.
  lemma ShorterLifeGoesFirst<K(!new), V(!new)>(full: Entries<K, V>, key: K, entry: Entry<V>, now: real)
    requires full.Valid() && key !in full.items && now < entry.expiresAt
    requires forall k :: k in full.items ==> full.items[k].expiresAt > entry.expiresAt
    ensures Pruned(Put(full, key, entry), now, |full.keys|) == full
  {
    AllLive(Put(full, key, entry), now);
    ShorterIsNotLast(full, key, entry);
    WithoutTheLast(full, key, entry);
  }

  lemma ShorterIsNotLast<K(!new), V(!new)>(full: Entries<K, V>, key: K, entry: Entry<V>)
    requires full.Valid() && key !in full.items
    requires forall k :: k in full.items ==> full.items[k].expiresAt > entry.expiresAt
    ensures Last(Put(full, key, entry), |full.keys|) == full.items.Keys
  {
    PutValid(full, key, entry);
    KeysSize(full);
    assert LeavesLast(Put(full, key, entry), full.items.Keys);
    StayingAreLast(Put(full, key, entry), full.items.Keys, |full.keys|);
  }

  lemma WithoutTheLast<K(!new), V(!new)>(full: Entries<K, V>, key: K, entry: Entry<V>)
    requires full.Valid() && key !in full.items
    ensures Only(Put(full, key, entry), full.items.Keys) == full
  {
    PutKeepsKeys(full, key, entry);
    assert Only(Put(full, key, entry), full.items.Keys).items == full.items;
  }

  lemma PutKeepsKeys<K(!new), V(!new)>(full: Entries<K, V>, key: K, entry: Entry<V>)
    requires full.Valid() && key !in full.items
    ensures Kept(Put(full, key, entry).keys, full.items.Keys) == full.keys
  {
    KeptSnoc(full.keys, key, full.items.Keys);
    KeptAll(full.keys, full.items.Keys);
  }
}
