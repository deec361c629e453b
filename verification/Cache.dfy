/** The in-memory cache of API responses (`cache.py`): three parallel dictionaries with lazy
    expiry, periodic sweeps and batch eviction, against the plain map it stands for. */
module Cache {
  import opened Options
  import opened Sorting

  type Key = string
  type Value = string

  const SWEEP_INTERVAL: nat := 50

  datatype Store = Store(data: map<Key, Value>, expires: map<Key, real>, access: map<Key, real>,
                         writes: nat, evicted: nat, swept: nat)

  const EMPTY := Store(map[], map[], map[], 0, 0, 0)

  /** A quarter of the capacity, and at least one. */
  function BatchSize(max: nat): nat { if max / 4 >= 1 then max / 4 else 1 }

  function Drop(s: Store, keys: set<Key>): Store {
    s.(data := s.data - keys, expires := s.expires - keys, access := s.access - keys)
  }

  function ExpiredKeys(s: Store, now: real): set<Key> {
    set k | k in s.expires && s.expires[k] <= now
  }

  function Swept(s: Store, now: real): Store {
    Drop(s, ExpiredKeys(s, now)).(swept := s.swept + |ExpiredKeys(s, now)|)
  }

  /** `expiry and now > expiry`: a zero expiry never counts as passed. */
  predicate Stale(s: Store, key: Key, now: real) {
    key in s.expires && s.expires[key] != 0.0 && now > s.expires[key]
  }

  function Got(s: Store, key: Key, now: real): (r: (Store, Option<Value>)) {
    if Stale(s, key, now) then (Drop(s, {key}), None)
    else if key in s.data then (s.(access := s.access[key := now]), Some(s.data[key]))
    else (s, None)
  }

  predicate HasPrefix(key: Key, prefix: string) { prefix <= key }

  function Prefixed(s: Store, prefix: string): set<Key> {
    set k | k in s.data && HasPrefix(k, prefix)
  }

  /** `victims` are `n` keys, none accessed later than a key that stays. */
  ghost predicate Oldest(access: map<Key, real>, victims: set<Key>, n: nat) {
    && victims <= access.Keys && |victims| == n
    && forall v, k | v in victims && k in access && k !in victims :: access[v] <= access[k]
  }

  /** Eviction; which keys go is open only between equal access times. */
  ghost predicate EvictedTo(max: nat, s: Store, s': Store) {
    if |s.data| < max then s' == s
    else
      exists victims ::
        && Oldest(s.access, victims, if BatchSize(max) <= |s.access| then BatchSize(max) else |s.access|)
        && s' == Drop(s, victims).(evicted := s.evicted + BatchSize(max))
  }

  /** A write with its three clock readings: for the expiry, the access time and the sweep. */
  datatype Put = Put(key: Key, value: Value, ttl: Option<int>, t1: real, t2: real, t3: real)

  function Lifetime(ttl: Option<int>, default: int): int {
    if ttl.None? || ttl.value == 0 then default else ttl.value
  }

  function Expiry(p: Put, default: int): real { p.t1 + Lifetime(p.ttl, default) as real }

  function Stored(s: Store, p: Put, default: int): Store {
    s.(data := s.data[p.key := p.value], expires := s.expires[p.key := Expiry(p, default)],
       access := s.access[p.key := p.t2], writes := s.writes + 1)
  }

  ghost predicate SetTo(max: nat, default: int, s: Store, p: Put, s': Store) {
    exists mid ::
      && (if |s.data| >= max && p.key !in s.data then EvictedTo(max, s, mid) else mid == s)
      && s' == (var u := Stored(mid, p, default);
                if u.writes % SWEEP_INTERVAL == 0 then Swept(u, p.t3) else u)
  }

  // ----------------------------------------------------------------- the client

  class CacheClient {
    const maxEntries: nat
    const defaultTtl: int
    var data: map<Key, Value>
    var expires: map<Key, real>
    var access: map<Key, real>
    var writes: nat
    var evicted: nat
    var swept: nat

    constructor (maxEntries: nat, defaultTtl: int)
      ensures this.maxEntries == maxEntries && this.defaultTtl == defaultTtl && Snapshot() == EMPTY
    {
      this.maxEntries, this.defaultTtl := maxEntries, defaultTtl;
      data, expires, access := map[], map[], map[];
      writes, evicted, swept := 0, 0, 0;
    }

    function Snapshot(): Store
      reads this
    {
      Store(data, expires, access, writes, evicted, swept)
    }

    method PopAll(keys: seq<Key>)
      modifies this`data, this`expires, this`access
      ensures Snapshot() == Drop(old(Snapshot()), Elements(keys))
    {
      var i := 0;
      ghost var s := Snapshot();
      while i < |keys|
        invariant i <= |keys|
        invariant Snapshot() == Drop(s, Elements(keys[..i]))
      {
        DropMore(s, keys, i);
        data, expires, access := data - {keys[i]}, expires - {keys[i]}, access - {keys[i]};
        i := i + 1;
      }
      assert keys[..i] == keys;
    }

    method Disconnect()
      modifies this
      ensures Snapshot() == Store(map[], map[], map[], old(writes), old(evicted), old(swept))
    {
      data, expires, access := map[], map[], map[];
    }

    method SweepExpired(now: real)
      modifies this
      ensures Snapshot() == Swept(old(Snapshot()), now)
    {
      var gone := set k | k in expires && expires[k] <= now;
      var keys := Listed(gone);
      PopAll(keys);
      swept := swept + |gone|;
    }

    method EvictLru()
      modifies this
      ensures EvictedTo(maxEntries, old(Snapshot()), Snapshot())
    {
      if |data| < maxEntries {
        return;
      }
      var keys := Listed(access.Keys);
      ghost var s := Snapshot();
      var stamps := access;
      var order := (a: Key, b: Key) => StampOf(stamps, a) <= StampOf(stamps, b);
      var sorted := Sort(keys, order);
      SortSorts(keys, order);
      assert |sorted| == |keys| by { assert |multiset(sorted)| == |multiset(keys)|; }
      var n := if BatchSize(maxEntries) <= |sorted| then BatchSize(maxEntries) else |sorted|;
      FirstAreOldest(access, sorted, order, n);
      PopAll(sorted[..n]);
      evicted := evicted + BatchSize(maxEntries);
      assert Snapshot() == Drop(s, Elements(sorted[..n])).(evicted := s.evicted + BatchSize(maxEntries));
    }

    method GetJson(key: Key, now: real) returns (r: Option<Value>)
      modifies this
      ensures (Snapshot(), r) == Got(old(Snapshot()), key, now)
    {
      if key in expires && expires[key] != 0.0 && now > expires[key] {
        data, expires, access := data - {key}, expires - {key}, access - {key};
        return None;
      }
      if key in data {
        access := access[key := now];
      }
      r := if key in data then Some(data[key]) else None;
    }

    method SetJson(p: Put)
      modifies this
      ensures SetTo(maxEntries, defaultTtl, old(Snapshot()), p, Snapshot())
    {
      if |data| >= maxEntries && p.key !in data {
        EvictLru();
      }
      ghost var mid := Snapshot();
      data := data[p.key := p.value];
      expires := expires[p.key := Expiry(p, defaultTtl)];
      access := access[p.key := p.t2];
      writes := writes + 1;
      assert Snapshot() == Stored(mid, p, defaultTtl);
      if writes % SWEEP_INTERVAL == 0 {
        SweepExpired(p.t3);
      }
    }

    method DeletePrefix(prefix: string)
      modifies this
      ensures Snapshot() == Drop(old(Snapshot()), Prefixed(old(Snapshot()), prefix))
    {
      var gone := set k | k in data && HasPrefix(k, prefix);
      var keys := Listed(gone);
      PopAll(keys);
    }
  }

  function Elements(s: seq<Key>): set<Key> { set k | k in s }

  lemma DropMore(s: Store, keys: seq<Key>, i: nat)
    requires i < |keys|
    ensures Drop(Drop(s, Elements(keys[..i])), {keys[i]}) == Drop(s, Elements(keys[..i + 1]))
  {
    assert keys[..i + 1] == keys[..i] + [keys[i]];
    assert Elements(keys[..i + 1]) == Elements(keys[..i]) + {keys[i]};
  }

  /** The elements of a set, each once. */
  method Listed(keys: set<Key>) returns (s: seq<Key>)
    ensures multiset(s) == multiset(keys) && Elements(s) == keys
  {
    s := [];
    var rest := keys;
    while rest != {}
      invariant rest <= keys && multiset(s) + multiset(rest) == multiset(keys)
    {
      var k :| k in rest;
      s, rest := s + [k], rest - {k};
    }
    assert forall k :: k in s <==> k in multiset(s);
  }

  function StampOf(access: map<Key, real>, k: Key): real { if k in access then access[k] else 0.0 }

  lemma FirstAreDistinct(keys: set<Key>, sorted: seq<Key>, n: nat)
    requires multiset(sorted) == multiset(keys) && n <= |sorted|
    ensures Elements(sorted[..n]) <= keys && |Elements(sorted[..n])| == n
    ensures forall k | k in keys :: k in sorted
  {
    var first := Elements(sorted[..n]);
    assert sorted == sorted[..n] + sorted[n..];
    forall k ensures multiset(sorted[..n])[k] == (if k in first then 1 else 0) {
      assert multiset(sorted)[k] == multiset(sorted[..n])[k] + multiset(sorted[n..])[k];
      assert multiset(keys)[k] <= 1;
      assert k in first <==> k in multiset(sorted[..n]);
    }
    assert multiset(first) == multiset(sorted[..n]);
    forall v | v in first ensures v in keys { assert v in multiset(sorted); }
    assert |first| == |multiset(first)|;
    forall k | k in keys ensures k in sorted { assert k in multiset(sorted); }
  }

  lemma FirstAreOldest(access: map<Key, real>, sorted: seq<Key>, order: (Key, Key) -> bool, n: nat)
    requires multiset(sorted) == multiset(access.Keys) && n <= |sorted|
    requires forall a, b :: order(a, b) <==> StampOf(access, a) <= StampOf(access, b)
    requires SortedBy(sorted, order)
    ensures Oldest(access, Elements(sorted[..n]), n)
  {
    var first := Elements(sorted[..n]);
    FirstAreDistinct(access.Keys, sorted, n);
    assert forall t | 0 <= t < n :: sorted[..n][t] in first;
    forall v, k | v in first && k in access && k !in first ensures access[v] <= access[k] {
      var i :| 0 <= i < n && sorted[i] == v;
      var j :| 0 <= j < |sorted| && sorted[j] == k;
      assert order(sorted[i], sorted[j]);
    }
  }
}
