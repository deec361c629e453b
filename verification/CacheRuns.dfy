/** Whole runs of the cache: it refines a plain map, keeps its bound, and evicts only what
    has not been used recently. */
module CacheRuns {
  import opened Arithmetic
  import opened Cache
  import opened Options

  datatype Op = Get(key: Key, now: real) | Set(p: Put) | DeletePrefix(prefix: string) | Disconnect

  ghost predicate Does(max: nat, default: int, s: Store, op: Op, s': Store) {
    match op
    case Get(key, now) => s' == Got(s, key, now).0
    case Set(p) => SetTo(max, default, s, p, s')
    case DeletePrefix(prefix) => s' == Drop(s, Prefixed(s, prefix))
    case Disconnect => s' == Store(map[], map[], map[], s.writes, s.evicted, s.swept)
  }

  ghost predicate DoesAt(max: nat, default: int, ops: seq<Op>, ss: seq<Store>, i: nat)
    requires i < |ops| && |ss| == |ops| + 1
  {
    Does(max, default, ss[i], ops[i], ss[i + 1])
  }

  /** `ss[i]` is the cache before operation `i`. */
  ghost predicate IsRun(max: nat, default: int, ops: seq<Op>, ss: seq<Store>) {
    && |ss| == |ops| + 1 && ss[0] == EMPTY
    && forall i | 0 <= i < |ops| :: DoesAt(max, default, ops, ss, i)
  }

  lemma RunCut(max: nat, default: int, ops: seq<Op>, ss: seq<Store>, n: nat)
    requires IsRun(max, default, ops, ss) && n <= |ops|
    ensures IsRun(max, default, ops[..n], ss[..n + 1])
    ensures n < |ops| ==> Does(max, default, ss[n], ops[n], ss[n + 1])
  {
    var ops', ss' := ops[..n], ss[..n + 1];
    forall i | 0 <= i < n ensures DoesAt(max, default, ops', ss', i) {
      assert DoesAt(max, default, ops, ss, i);
    }
    assert n < |ops| ==> DoesAt(max, default, ops, ss, n);
  }

  // ------------------------------------------------- one key set, within capacity

  ghost predicate Aligned(max: nat, s: Store) {
    s.data.Keys == s.expires.Keys == s.access.Keys && |s.data| <= max
  }

  lemma DropSize(m: map<Key, Value>, keys: set<Key>)
    ensures |m - keys| <= |m|
    ensures keys <= m.Keys ==> |m - keys| == |m| - |keys|
  {
    assert (m - keys).Keys == m.Keys - keys;
    assert |m.Keys - keys| + |m.Keys * keys| == |m.Keys|;
    assert keys <= m.Keys ==> m.Keys * keys == keys;
  }

  lemma DropAligned(max: nat, s: Store, keys: set<Key>)
    requires Aligned(max, s)
    ensures Aligned(max, Drop(s, keys))
  {
    DropSize(s.data, keys);
  }

  /** A full cache gives up a whole batch. */
  lemma EvictionFrees(max: nat, s: Store, s': Store)
    requires max >= 1 && Aligned(max, s) && EvictedTo(max, s, s')
    ensures Aligned(max, s') && |s'.data| < max
  {
    if |s.data| >= max {
      var n := if BatchSize(max) <= |s.access| then BatchSize(max) else |s.access|;
      var victims :| Oldest(s.access, victims, n) && s' == Drop(s, victims).(evicted := s.evicted + BatchSize(max));
      assert |s.access.Keys| == |s.data.Keys|;
      DropSize(s.data, victims);
      DropAligned(max, s, victims);
    }
  }

  lemma StoredAligned(max: nat, s: Store, p: Put, default: int)
    requires Aligned(max, s) && (p.key in s.data || |s.data| < max)
    ensures Aligned(max, Stored(s, p, default))
  {
    var s' := Stored(s, p, default);
    assert s'.data.Keys == s.data.Keys + {p.key};
    assert s'.expires.Keys == s.expires.Keys + {p.key};
    assert s'.access.Keys == s.access.Keys + {p.key};
  }

  lemma SetAligned(max: nat, default: int, s: Store, p: Put, s': Store)
    requires max >= 1 && Aligned(max, s) && SetTo(max, default, s, p, s')
    ensures Aligned(max, s')
  {
    var mid :| (if |s.data| >= max && p.key !in s.data then EvictedTo(max, s, mid) else mid == s)
      && s' == (var u := Stored(mid, p, default);
                if u.writes % SWEEP_INTERVAL == 0 then Swept(u, p.t3) else u);
    if |s.data| >= max && p.key !in s.data {
      EvictionFrees(max, s, mid);
    }
    StoredAligned(max, mid, p, default);
    DropAligned(max, Stored(mid, p, default), ExpiredKeys(Stored(mid, p, default), p.t3));
  }

  lemma DoesAligned(max: nat, default: int, s: Store, op: Op, s': Store)
    requires max >= 1 && Aligned(max, s) && Does(max, default, s, op, s')
    ensures Aligned(max, s')
  {
    match op {
      case Get(key, now) =>
        DropAligned(max, s, {key});
        if key in s.data {
          assert s.access[key := now].Keys == s.access.Keys;
        }
      case Set(p) => SetAligned(max, default, s, p, s');
      case DeletePrefix(prefix) => DropAligned(max, s, Prefixed(s, prefix));
      case Disconnect =>
    }
  }

  // -------------------------------------------------- the plain map behind the cache

  datatype Entry = Entry(value: Value, expiry: real)

  /** What one operation does to a map with unlimited room and no sweeps. */
  function Applied(m: map<Key, Entry>, op: Op, default: int): map<Key, Entry> {
    match op
    case Get(_, _) => m
    case Set(p) => m[p.key := Entry(p.value, Expiry(p, default))]
    case DeletePrefix(prefix) => map k | k in m && !HasPrefix(k, prefix) :: m[k]
    case Disconnect => map[]
  }

  /** What the last writes left in such a map. */
  function Latest(ops: seq<Op>, default: int): map<Key, Entry> {
    if ops == [] then map[] else Applied(Latest(ops[..|ops| - 1], default), ops[|ops| - 1], default)
  }

  ghost predicate Refines(s: Store, m: map<Key, Entry>) {
    forall k | k in s.data :: k in m && k in s.expires && m[k] == Entry(s.data[k], s.expires[k])
  }

  lemma DropRefines(s: Store, keys: set<Key>, m: map<Key, Entry>)
    requires Refines(s, m)
    ensures Refines(Drop(s, keys), m)
  {}

  lemma EvictionRefines(max: nat, s: Store, s': Store, m: map<Key, Entry>)
    requires Refines(s, m) && EvictedTo(max, s, s')
    ensures Refines(s', m)
  {
    forall victims ensures Refines(Drop(s, victims), m) {
      DropRefines(s, victims, m);
    }
  }

  lemma StoredRefines(s: Store, p: Put, default: int, m: map<Key, Entry>)
    requires Refines(s, m)
    ensures Refines(Stored(s, p, default), m[p.key := Entry(p.value, Expiry(p, default))])
  {}

  lemma SetRefines(max: nat, default: int, s: Store, p: Put, s': Store, m: map<Key, Entry>, m': map<Key, Entry>)
    requires Refines(s, m) && SetTo(max, default, s, p, s')
    requires m' == m[p.key := Entry(p.value, Expiry(p, default))]
    ensures Refines(s', m')
  {
    var mid :| (if |s.data| >= max && p.key !in s.data then EvictedTo(max, s, mid) else mid == s)
      && s' == (var u := Stored(mid, p, default);
                if u.writes % SWEEP_INTERVAL == 0 then Swept(u, p.t3) else u);
    if mid != s {
      EvictionRefines(max, s, mid, m);
    }
    var u := Stored(mid, p, default);
    StoredRefines(mid, p, default, m);
    DropRefines(u, ExpiredKeys(u, p.t3), m');
  }

  lemma DoesRefines(max: nat, default: int, s: Store, op: Op, s': Store, m: map<Key, Entry>)
    requires Refines(s, m) && Does(max, default, s, op, s')
    ensures Refines(s', Applied(m, op, default))
  {
    if op.Set? {
      SetRefines(max, default, s, op.p, s', m, Applied(m, op, default));
    }
  }

  /** In every run the three dictionaries share one key set within the capacity, and every
      entry is what the latest write of its key left. */
  lemma {:induction false} CacheRefinesMap(max: nat, default: int, ops: seq<Op>, ss: seq<Store>)
    requires max >= 1 && IsRun(max, default, ops, ss)
    ensures Aligned(max, ss[|ops|]) && Refines(ss[|ops|], Latest(ops, default))
  {
    if ops == [] {
    } else {
      var n := |ops| - 1;
      RunCut(max, default, ops, ss, n);
      CacheRefinesMap(max, default, ops[..n], ss[..n + 1]);
      DoesAligned(max, default, ss[n], ops[n], ss[n + 1]);
      DoesRefines(max, default, ss[n], ops[n], ss[n + 1], Latest(ops[..n], default));
    }
  }

  /** The lifetime that a write asks for, the default one for none or zero, ends then. */
  ghost predicate EndsAt(p: Put, default: int, end: real) {
    end == p.t1 + (match p.ttl case None => default case Some(n) => if n == 0 then default else n) as real
  }

  /** Operation `w` wrote the key, and none since has written or deleted it. */
  ghost predicate LastWrite(ops: seq<Op>, w: nat, k: Key) {
    && w < |ops| && ops[w].Set? && ops[w].p.key == k
    && forall t | w < t < |ops| :: !Rewrites(ops[t], k)
  }

  predicate Rewrites(op: Op, k: Key) {
    match op
    case Get(_, _) => false
    case Set(p) => p.key == k
    case DeletePrefix(prefix) => HasPrefix(k, prefix)
    case Disconnect => true
  }

  lemma {:induction false} LatestIsWritten(ops: seq<Op>, default: int, k: Key) returns (w: nat)
    requires k in Latest(ops, default)
    ensures LastWrite(ops, w, k) && Latest(ops, default)[k].value == ops[w].p.value
    ensures EndsAt(ops[w].p, default, Latest(ops, default)[k].expiry)
  {
    var n := |ops| - 1;
    if ops[n].Set? && ops[n].p.key == k {
      w := n;
    } else {
      w := LatestIsWritten(ops[..n], default, k);
      forall t | w < t < |ops| ensures !Rewrites(ops[t], k) {
        if t < n {
          assert ops[..n][t] == ops[t];
        }
      }
    }
  }

  /** A hit returns the value of the latest write of that key, not deleted since, within the lifetime that
      this write asked for (unless it ends at exactly zero, which the code takes for no end). */
  lemma HitIsLatestWrite(max: nat, default: int, ops: seq<Op>, ss: seq<Store>, i: nat)
    requires max >= 1 && IsRun(max, default, ops, ss) && i < |ops| && ops[i].Get?
    requires Got(ss[i], ops[i].key, ops[i].now).1.Some?
    ensures exists w: nat, end :: LastWrite(ops[..i], w, ops[i].key) && EndsAt(ops[w].p, default, end)
                             && Got(ss[i], ops[i].key, ops[i].now).1 == Some(ops[w].p.value)
                             && (ops[i].now <= end || end == 0.0)
  {
    RunCut(max, default, ops, ss, i);
    CacheRefinesMap(max, default, ops[..i], ss[..i + 1]);
    var w := LatestIsWritten(ops[..i], default, ops[i].key);
    assert ops[..i][w] == ops[w];
    assert EndsAt(ops[w].p, default, Latest(ops[..i], default)[ops[i].key].expiry);
  }

  // ------------------------------------------------------------ recently used stays

  predicate Touches(op: Op, k: Key) {
    (op.Get? && op.key == k) || (op.Set? && op.p.key == k)
  }

  function TouchTime(op: Op): real
    requires op.Get? || op.Set?
  {
    if op.Get? then op.now else op.p.t2
  }

  /** Clock readings of accesses strictly increase. */
  ghost predicate Ticking(ops: seq<Op>) {
    forall a, b | 0 <= a < b < |ops| && (ops[a].Get? || ops[a].Set?) && (ops[b].Get? || ops[b].Set?) ::
      TouchTime(ops[a]) < TouchTime(ops[b])
  }

  /** The operation leaves `k` alone: no access, no deletion, no sweep at or past its expiry. */
  predicate Spares(op: Op, k: Key, expiry: real) {
    match op
    case Get(key, _) => key != k
    case Set(p) => p.key != k && p.t3 < expiry
    case DeletePrefix(prefix) => !HasPrefix(k, prefix)
    case Disconnect => false
  }

  /** The key an operation accesses, if it does. */
  function Access(op: Op, after: Store): set<Key> {
    match op
    case Get(key, _) => if key in after.data then {key} else {}
    case Set(p) => {p.key}
    case _ => {}
  }

  /** The distinct keys accessed by operations `lo` to `hi` - 1. */
  function Accessed(ops: seq<Op>, ss: seq<Store>, lo: nat, hi: nat): set<Key>
    requires lo <= hi <= |ops| < |ss|
    decreases hi
  {
    if lo == hi then {} else Accessed(ops, ss, lo, hi - 1) + Access(ops[hi - 1], ss[hi])
  }

  ghost predicate AllBefore(s: Store, t: real) {
    forall k | k in s.access :: s.access[k] < t
  }

  lemma EvictionKeepsTimes(max: nat, s: Store, s': Store)
    requires EvictedTo(max, s, s')
    ensures s'.access.Keys <= s.access.Keys && forall k | k in s'.access :: s'.access[k] == s.access[k]
    ensures s'.data.Keys <= s.data.Keys && forall k | k in s'.data :: s'.data[k] == s.data[k]
    ensures s'.expires.Keys <= s.expires.Keys && forall k | k in s'.expires :: s'.expires[k] == s.expires[k]
  {
  }

  /** Earlier accesses carry earlier times. */
  lemma {:induction false} AccessTimesArePast(max: nat, default: int, ops: seq<Op>, ss: seq<Store>, t: real)
    requires IsRun(max, default, ops, ss)
    requires forall a | 0 <= a < |ops| && (ops[a].Get? || ops[a].Set?) :: TouchTime(ops[a]) < t
    ensures AllBefore(ss[|ops|], t)
  {
    if ops == [] {
    } else {
      var n := |ops| - 1;
      RunCut(max, default, ops, ss, n);
      AccessTimesArePast(max, default, ops[..n], ss[..n + 1], t);
      StepKeepsPast(max, default, ss[n], ops[n], ss[n + 1], t);
    }
  }

  lemma StepKeepsPast(max: nat, default: int, s: Store, op: Op, s': Store, t: real)
    requires Does(max, default, s, op, s') && AllBefore(s, t)
    requires op.Get? || op.Set? ==> TouchTime(op) < t
    ensures AllBefore(s', t)
  {
    if op.Set? {
      SetKeepsPast(max, default, s, op.p, s', t);
    }
  }

  lemma EvictionKeepsPast(max: nat, s: Store, s': Store, t: real)
    requires EvictedTo(max, s, s') && AllBefore(s, t)
    ensures AllBefore(s', t)
  {
    EvictionKeepsTimes(max, s, s');
  }

  lemma WriteKeepsPast(s: Store, p: Put, default: int, t: real)
    requires AllBefore(s, t) && p.t2 < t
    ensures AllBefore(Stored(s, p, default), t)
    ensures AllBefore(Swept(Stored(s, p, default), p.t3), t)
  {}

  lemma SetKeepsPast(max: nat, default: int, s: Store, p: Put, s': Store, t: real)
    requires SetTo(max, default, s, p, s') && AllBefore(s, t) && p.t2 < t
    ensures AllBefore(s', t)
  {
    var mid :| (if |s.data| >= max && p.key !in s.data then EvictedTo(max, s, mid) else mid == s)
      && s' == (var u := Stored(mid, p, default);
                if u.writes % SWEEP_INTERVAL == 0 then Swept(u, p.t3) else u);
    if |s.data| >= max && p.key !in s.data {
      EvictionKeepsPast(max, s, mid, t);
    }
    WriteKeepsPast(mid, p, default, t);
  }

  /** `k` is still there as `s0` had it, and only keys in `others` were accessed after it. */
  ghost predicate Retained(s: Store, s0: Store, k: Key, others: set<Key>) {
    && k in s.data && k in s.expires && k in s.access
    && k in s0.data && k in s0.expires
    && s.data[k] == s0.data[k] && s.expires[k] == s0.expires[k]
    && forall o | o in s.access && o != k && s.access[o] >= s.access[k] :: o in others
  }

  /** Had `k` been among the oldest, more keys would have stayed than were accessed since. */
  lemma RecentIsNoVictim(access: map<Key, real>, victims: set<Key>, n: nat, k: Key, others: set<Key>)
    requires Oldest(access, victims, n) && k in access && |others| < |access| - n
    requires forall o | o in access && o != k && access[o] >= access[k] :: o in others
    ensures k !in victims
  {
    var kept := access.Keys - victims;
    assert |kept| == |access| - n;
    if k in victims {
      assert kept <= others;
      SubsetSize(kept, others);
    }
  }

  lemma EvictionSparesRecent(max: nat, s: Store, s': Store, s0: Store, k: Key, others: set<Key>)
    requires max >= 1 && Aligned(max, s) && EvictedTo(max, s, s')
    requires Retained(s, s0, k, others) && |others| < max - BatchSize(max)
    ensures Retained(s', s0, k, others)
  {
    if |s.data| >= max {
      assert |s.access.Keys| == |s.data.Keys| == max;
      var n := BatchSize(max);
      var victims :| Oldest(s.access, victims, n) && s' == Drop(s, victims).(evicted := s.evicted + n);
      RecentIsNoVictim(s.access, victims, n, k, others);
      DropRetains(s, victims, s0, k, others);
    }
  }

  lemma DropRetains(s: Store, keys: set<Key>, s0: Store, k: Key, others: set<Key>)
    requires Retained(s, s0, k, others) && k !in keys
    ensures Retained(Drop(s, keys), s0, k, others)
  {
  }

  lemma StoredRetains(s: Store, p: Put, default: int, s0: Store, k: Key, others: set<Key>)
    requires Retained(s, s0, k, others) && p.key != k
    ensures Retained(Stored(s, p, default), s0, k, others + {p.key})
  {
  }

  lemma SetRetains(max: nat, default: int, s: Store, p: Put, s': Store, s0: Store, k: Key, others: set<Key>)
    requires max >= 1 && Aligned(max, s) && SetTo(max, default, s, p, s')
    requires Retained(s, s0, k, others) && |others| < max - BatchSize(max)
    requires p.key != k && p.t3 < s.expires[k]
    ensures Retained(s', s0, k, others + {p.key})
  {
    var mid :| (if |s.data| >= max && p.key !in s.data then EvictedTo(max, s, mid) else mid == s)
      && s' == (var u := Stored(mid, p, default);
                if u.writes % SWEEP_INTERVAL == 0 then Swept(u, p.t3) else u);
    if |s.data| >= max && p.key !in s.data {
      EvictionSparesRecent(max, s, mid, s0, k, others);
    }
    var u := Stored(mid, p, default);
    StoredRetains(mid, p, default, s0, k, others);
    DropRetains(u, ExpiredKeys(u, p.t3), s0, k, others + {p.key});
  }

  lemma StepRetains(max: nat, default: int, s: Store, op: Op, s': Store, s0: Store, k: Key, others: set<Key>)
    requires max >= 1 && Aligned(max, s) && Does(max, default, s, op, s')
    requires Retained(s, s0, k, others) && |others| < max - BatchSize(max)
    requires Spares(op, k, s.expires[k])
    ensures Retained(s', s0, k, others + Access(op, s'))
  {
    match op {
      case Get(key, now) =>
        DropRetains(s, {key}, s0, k, others);
      case Set(p) =>
        SetRetains(max, default, s, p, s', s0, k, others);
      case DeletePrefix(prefix) =>
        DropRetains(s, Prefixed(s, prefix), s0, k, others);
    }
  }

  lemma TouchedIsRetained(max: nat, default: int, ops: seq<Op>, ss: seq<Store>, i: nat, k: Key)
    requires max >= 1 && IsRun(max, default, ops, ss) && Ticking(ops)
    requires i < |ops| && Touches(ops[i], k) && k in ss[i + 1].data
    ensures Retained(ss[i + 1], ss[i + 1], k, {})
  {
    RunCut(max, default, ops, ss, i);
    RunCut(max, default, ops, ss, i + 1);
    AccessTimesArePast(max, default, ops[..i], ss[..i + 1], TouchTime(ops[i]));
    CacheRefinesMap(max, default, ops[..i + 1], ss[..i + 2]);
    FreshlyTouched(max, default, ss[i], ops[i], ss[i + 1], k);
  }

  lemma AccessedGrows(ops: seq<Op>, ss: seq<Store>, lo: nat, hi: nat)
    requires lo < hi <= |ops| < |ss|
    ensures |Accessed(ops, ss, lo, hi - 1)| <= |Accessed(ops, ss, lo, hi)|
  {
    SubsetSize(Accessed(ops, ss, lo, hi - 1), Accessed(ops, ss, lo, hi));
  }

  /** With `e` the batch size: a key survives every stretch of a run in which fewer than
      `max - e` distinct other keys are accessed and that neither deletes nor expires it. */
  lemma {:induction false} RecentlyUsedStays(max: nat, default: int, ops: seq<Op>, ss: seq<Store>,
                                             i: nat, j: nat, k: Key)
    requires max >= 1 && IsRun(max, default, ops, ss) && Ticking(ops)
    requires i < j <= |ops| && Touches(ops[i], k) && k in ss[i + 1].data && k in ss[i + 1].expires
    requires forall t | i < t < j :: Spares(ops[t], k, ss[i + 1].expires[k])
    requires |Accessed(ops, ss, i + 1, j)| < max - BatchSize(max)
    ensures Retained(ss[j], ss[i + 1], k, Accessed(ops, ss, i + 1, j))
    decreases j
  {
    if j == i + 1 {
      TouchedIsRetained(max, default, ops, ss, i, k);
    } else {
      AccessedGrows(ops, ss, i + 1, j);
      RecentlyUsedStays(max, default, ops, ss, i, j - 1, k);
      RetainedOneMore(max, default, ops, ss, i + 1, j - 1, k);
    }
  }

  lemma RetainedOneMore(max: nat, default: int, ops: seq<Op>, ss: seq<Store>, lo: nat, t: nat, k: Key)
    requires max >= 1 && IsRun(max, default, ops, ss) && lo <= t < |ops|
    requires Retained(ss[t], ss[lo], k, Accessed(ops, ss, lo, t))
    requires |Accessed(ops, ss, lo, t)| < max - BatchSize(max)
    requires Spares(ops[t], k, ss[lo].expires[k])
    ensures Retained(ss[t + 1], ss[lo], k, Accessed(ops, ss, lo, t + 1))
  {
    RunCut(max, default, ops, ss, t);
    CacheRefinesMap(max, default, ops[..t], ss[..t + 1]);
    StepRetains(max, default, ss[t], ops[t], ss[t + 1], ss[lo], k, Accessed(ops, ss, lo, t));
  }

  lemma FreshlyTouched(max: nat, default: int, s: Store, op: Op, s': Store, k: Key)
    requires Does(max, default, s, op, s') && Touches(op, k) && AllBefore(s, TouchTime(op))
    requires k in s'.data
    ensures k in s'.access ==> s'.access[k] == TouchTime(op)
    ensures forall o | o in s'.access && o != k :: s'.access[o] < TouchTime(op)
  {
    if op.Set? && |s.data| >= max && op.p.key !in s.data {
      forall mid | EvictedTo(max, s, mid) ensures AllBefore(mid, TouchTime(op)) {
        EvictionKeepsTimes(max, s, mid);
      }
    }
  }
}
