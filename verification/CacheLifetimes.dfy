/** How long an entry of the cache lives (`cache.py`), how much an eviction takes, and when sweeps come. */
module CacheLifetimes {
  import opened Arithmetic
  import opened Cache
  import opened CacheRuns
  import opened Options

  /** A read of the key at `now` gives the value up to and including the end of its lifetime. */
  ghost predicate LivesFor(s: Store, p: Put, default: int, now: real) {
    forall end | EndsAt(p, default, end) ::
      Got(s, p.key, now).1 == if now <= end || end == 0.0 then Some(p.value) else None
  }

  /** The entry of the key is what that write left. */
  ghost predicate HasEntry(s: Store, p: Put, default: int) {
    && p.key in s.data && p.key in s.expires && s.data[p.key] == p.value && s.expires[p.key] == Expiry(p, default)
  }

  lemma EntryLives(s: Store, p: Put, default: int, now: real)
    requires HasEntry(s, p, default)
    ensures LivesFor(s, p, default, now)
  {}

  lemma WriteLeaves(max: nat, default: int, s: Store, p: Put, s': Store)
    requires SetTo(max, default, s, p, s') && p.key in s'.data && Aligned(max, s')
    ensures HasEntry(s', p, default)
  {}

  /** Eviction, sweeps, reads and writes of other keys take an entry or leave it as it is. */
  lemma StepLeaves(max: nat, default: int, s: Store, op: Op, s': Store, p: Put)
    requires HasEntry(s, p, default) && Does(max, default, s, op, s') && Aligned(max, s')
    requires p.key in s'.data && !(op.Set? && op.p.key == p.key)
    ensures HasEntry(s', p, default)
  {
    if op.Set? {
      OtherWriteLeaves(max, default, s, op.p, s', p);
    }
  }

  lemma OtherWriteLeaves(max: nat, default: int, s: Store, q: Put, s': Store, p: Put)
    requires HasEntry(s, p, default) && SetTo(max, default, s, q, s') && Aligned(max, s')
    requires p.key in s'.data && q.key != p.key
    ensures HasEntry(s', p, default)
  {
    var mid :| (if |s.data| >= max && q.key !in s.data then EvictedTo(max, s, mid) else mid == s)
      && s' == (var u := Stored(mid, q, default);
                if u.writes % SWEEP_INTERVAL == 0 then Swept(u, q.t3) else u);
    if |s.data| >= max && q.key !in s.data {
      EvictionKeepsTimes(max, s, mid);
    }
    assert p.key in mid.data;
  }

  lemma {:induction false} EntryStays(max: nat, default: int, ops: seq<Op>, ss: seq<Store>, i: nat, j: nat)
    requires max >= 1 && IsRun(max, default, ops, ss) && i < j <= |ops| && ops[i].Set?
    requires forall t | i < t < j :: !(ops[t].Set? && ops[t].p.key == ops[i].p.key)
    requires forall t | i < t <= j :: ops[i].p.key in ss[t].data
    ensures HasEntry(ss[j], ops[i].p, default)
    decreases j
  {
    RunCut(max, default, ops, ss, j - 1);
    CacheRefinesMap(max, default, ops[..j - 1], ss[..j]);
    DoesAligned(max, default, ss[j - 1], ops[j - 1], ss[j]);
    if j == i + 1 {
      WriteLeaves(max, default, ss[i], ops[i].p, ss[j]);
    } else {
      EntryStays(max, default, ops, ss, i, j - 1);
      StepLeaves(max, default, ss[j - 1], ops[j - 1], ss[j], ops[i].p);
    }
  }

  /** An entry that was neither written again nor taken since its write (by a deletion, a sweep, an eviction
      or a read past its end) is a hit exactly up to the end of its lifetime. */
  lemma EntryLivesItsLifetime(max: nat, default: int, ops: seq<Op>, ss: seq<Store>, i: nat, j: nat, now: real)
    requires max >= 1 && IsRun(max, default, ops, ss) && i < j <= |ops| && ops[i].Set?
    requires forall t | i < t < j :: !(ops[t].Set? && ops[t].p.key == ops[i].p.key)
    requires forall t | i < t <= j :: ops[i].p.key in ss[t].data
    ensures LivesFor(ss[j], ops[i].p, default, now)
  {
    EntryStays(max, default, ops, ss, i, j);
    EntryLives(ss[j], ops[i].p, default, now);
  }

  /** What has to happen to the operations alone: a key whose write did not sweep it at once, and that no
      operation since touches, deletes or outlives, is a hit up to the end of its lifetime while fewer than
      capacity minus batch other keys are accessed. */
  lemma FreshEntryHits(max: nat, default: int, ops: seq<Op>, ss: seq<Store>, i: nat, j: nat, end: real, now: real)
    requires max >= 1 && IsRun(max, default, ops, ss) && Ticking(ops) && i < j <= |ops| && ops[i].Set?
    requires EndsAt(ops[i].p, default, end)
    requires ops[i].p.t3 < end && forall t | i < t < j :: Spares(ops[t], ops[i].p.key, end)
    requires |Accessed(ops, ss, i + 1, j)| < max - BatchSize(max)
    ensures Got(ss[j], ops[i].p.key, now).1 == if now <= end || end == 0.0 then Some(ops[i].p.value) else None
  {
    var p := ops[i].p;
    RunCut(max, default, ops, ss, i);
    CacheRefinesMap(max, default, ops[..i], ss[..i + 1]);
    DoesAligned(max, default, ss[i], ops[i], ss[i + 1]);
    WriteSurvives(max, default, ss[i], p, ss[i + 1]);
    WriteLeaves(max, default, ss[i], p, ss[i + 1]);
    RecentlyUsedStays(max, default, ops, ss, i, j, p.key);
    EntryLives(ss[j], p, default, now);
  }

  lemma WriteSurvives(max: nat, default: int, s: Store, p: Put, s': Store)
    requires SetTo(max, default, s, p, s') && p.t3 < Expiry(p, default)
    ensures p.key in s'.data
  {}

  // ----------------------------------------------------------------- evictions and sweeps

  /** A full cache loses a quarter of its capacity, rounded down, and at least one entry; the counter of
      evictions grows by as many. */
  lemma EvictionTakesQuarter(max: nat, s: Store, s': Store)
    requires max >= 1 && Aligned(max, s) && EvictedTo(max, s, s')
    ensures var gone := |s.data| - |s'.data|;
            && s'.data.Keys <= s.data.Keys
            && (|s.data| < max ==> s' == s)
            && (|s.data| == max ==> gone >= 1 && (gone == 1 || 4 * gone <= max) && max < 4 * (gone + 1))
            && s'.evicted == s.evicted + gone
  {
    if |s.data| >= max {
      assert |s.access.Keys| == |s.data.Keys| == max;
      var victims :| Oldest(s.access, victims, BatchSize(max))
                     && s' == Drop(s, victims).(evicted := s.evicted + BatchSize(max));
      DropSize(s.data, victims);
    }
  }

  function Writes(ops: seq<Op>): nat {
    if ops == [] then 0 else Writes(ops[..|ops| - 1]) + if ops[|ops| - 1].Set? then 1 else 0
  }

  lemma {:induction false} WritesCounted(max: nat, default: int, ops: seq<Op>, ss: seq<Store>)
    requires IsRun(max, default, ops, ss)
    ensures ss[|ops|].writes == Writes(ops)
  {
    if ops == [] {
    } else {
      var n := |ops| - 1;
      RunCut(max, default, ops, ss, n);
      WritesCounted(max, default, ops[..n], ss[..n + 1]);
    }
  }

  /** Every fiftieth write of a run sweeps: no entry at or past its expiry is left, and every other entry
      stays.  Any other write into a cache with room takes nothing away. */
  lemma FiftiethWriteSweeps(max: nat, default: int, ops: seq<Op>, ss: seq<Store>, n: nat)
    requires max >= 1 && IsRun(max, default, ops, ss) && n < |ops| && ops[n].Set?
    requires |ss[n].data| < max || ops[n].p.key in ss[n].data
    ensures var p, s, s' := ops[n].p, ss[n], ss[n + 1];
            forall k | k in s.data && k != p.key && k in s.expires ::
              k in s'.data <==> Writes(ops[..n + 1]) % 50 != 0 || s.expires[k] > p.t3
  {
    RunCut(max, default, ops, ss, n);
    RunCut(max, default, ops, ss, n + 1);
    WritesCounted(max, default, ops[..n + 1], ss[..n + 2]);
    var u := Stored(ss[n], ops[n].p, default);
    assert ss[n + 1] == if u.writes % SWEEP_INTERVAL == 0 then Swept(u, ops[n].p.t3) else u;
  }

  /** A sweep counts what it takes. */
  lemma SweepCounts(max: nat, s: Store, now: real)
    requires Aligned(max, s)
    ensures Swept(s, now).swept == s.swept + (|s.data| - |Swept(s, now).data|)
    ensures forall k :: k in Swept(s, now).data <==> k in s.data && s.expires[k] > now
  {
    DropSize(s.data, ExpiredKeys(s, now));
  }

  /** Deleting by prefix takes exactly the keys that begin with it and leaves all other entries as they are. */
  lemma DeletionTakesPrefixed(max: nat, default: int, s: Store, prefix: string, s': Store, k: Key)
    requires Aligned(max, s) && Does(max, default, s, DeletePrefix(prefix), s')
    ensures k in s'.data <==> k in s.data && (|k| < |prefix| || exists i :: 0 <= i < |prefix| && k[i] != prefix[i])
    ensures k in s'.data ==>
              s'.data[k] == s.data[k] && s'.expires[k] == s.expires[k] && s'.access[k] == s.access[k]
  {
    assert HasPrefix(k, prefix) <==> |prefix| <= |k| && forall i | 0 <= i < |prefix| :: k[i] == prefix[i];
  }
}
