/** Occurrence counts over a sequence of scans: normalisation adds the stored count to the
    local one (`finding_intelligence.py`) and the upsert adds the stored count once more
    (`executor.py`).  The table is that of one owner. */
module Occurrences {
  import opened Arithmetic
  import opened Correlation

  datatype Row = Row(count: nat, firstSeen: string)

  type Table = map<Group, Row>

  /** The occurrence count and first sighting that normalisation gives an item. */
  function Normalized(t: Table, g: Group, s: Staged): (nat, string) {
    var previous := if g in t then t[g].count else 0;
    (previous + s.count, if g in t && t[g].firstSeen != "" then t[g].firstSeen else s.discovered)
  }

  /** `INSERT ... ON CONFLICT DO UPDATE` leaves `first_seen_at` alone. */
  function Upserted(t: Table, g: Group, count: nat, firstSeen: string): Table {
    t[g := if g in t then Row(t[g].count + count, t[g].firstSeen) else Row(count, firstSeen)]
  }

  function RowAfter(t: Table, g: Group, s: Staged): Row {
    var (count, firstSeen) := Normalized(t, g, s);
    if g in t then Row(t[g].count + count, t[g].firstSeen) else Row(count, firstSeen)
  }

  /** The table with the items of the given groups persisted. */
  function Persisted(t: Table, staged: Staging, groups: set<Group>): Table
    requires groups <= staged.Keys
  {
    map g | g in t.Keys + groups :: if g in groups then RowAfter(t, g, staged[g]) else t[g]
  }

  function AfterScan(t: Table, fs: seq<Raw>, key: Raw -> Group): Table {
    Persisted(t, Stage(fs, key), Stage(fs, key).Keys)
  }

  lemma PersistOne(t: Table, staged: Staging, groups: set<Group>, g: Group)
    requires groups <= staged.Keys && g in staged && g !in groups
    ensures var (count, firstSeen) := Normalized(t, g, staged[g]);
            Upserted(Persisted(t, staged, groups), g, count, firstSeen) == Persisted(t, staged, groups + {g})
  {
  }

  /** One scan: stage, normalise every item against the table, then persist every item. */
  method PersistScan(t: Table, fs: seq<Raw>, key: Raw -> Group) returns (t': Table)
    ensures t' == AfterScan(t, fs, key)
  {
    var staged := StageFindings(fs, key);
    var normalized := map g | g in staged :: Normalized(t, g, staged[g]);
    var todo := staged.Keys;
    t' := t;
    assert t == Persisted(t, staged, {});
    while todo != {}
      invariant todo <= staged.Keys && t' == Persisted(t, staged, staged.Keys - todo)
    {
      var g :| g in todo;
      var (count, firstSeen) := normalized[g];
      PersistOne(t, staged, staged.Keys - todo, g);
      assert staged.Keys - (todo - {g}) == staged.Keys - todo + {g};
      t' := Upserted(t', g, count, firstSeen);
      todo := todo - {g};
    }
    assert staged.Keys - {} == staged.Keys;
  }

  ghost predicate ScanAt(ts: seq<Table>, scans: seq<seq<Raw>>, key: Raw -> Group, i: nat)
    requires i < |scans| < |ts|
  {
    ts[i + 1] == AfterScan(ts[i], scans[i], key)
  }

  /** `ts[n]` is the table after the first `n` scans of an empty database. */
  ghost predicate IsHistory(ts: seq<Table>, scans: seq<seq<Raw>>, key: Raw -> Group) {
    && |ts| == |scans| + 1 && ts[0] == map[]
    && forall i | 0 <= i < |scans| :: ScanAt(ts, scans, key, i)
  }

  /** How often a group was hit, scan by scan, over those of the first `n` scans that hit it. */
  function Hits(scans: seq<seq<Raw>>, key: Raw -> Group, g: Group, n: nat): seq<nat>
    requires n <= |scans|
  {
    if n == 0 then []
    else
      var k := Summarize(scans[n - 1], key, g).count;
      if k > 0 then Hits(scans, key, g, n - 1) + [k] else Hits(scans, key, g, n - 1)
  }

  /** Each hit doubles with every later scan that hits: the sum of 2^(n-i) k_i. */
  function Weighted(ks: seq<nat>): nat {
    if ks == [] then 0 else ks[0] * Pow2(|ks| - 1) + Weighted(ks[1..])
  }

  function Sum(ks: seq<nat>): nat {
    if ks == [] then 0 else ks[0] + Sum(ks[1..])
  }

  lemma {:induction false} WeightedSnoc(ks: seq<nat>, k: nat)
    ensures Weighted(ks + [k]) == 2 * Weighted(ks) + k
  {
    if ks == [] {
      assert ks + [k] == [k] && [k][1..] == [];
    } else {
      assert (ks + [k])[1..] == ks[1..] + [k];
      WeightedSnoc(ks[1..], k);
      var p := Pow2(|ks| - 1);
      assert ks[0] * (2 * p) == 2 * (ks[0] * p);
    }
  }

  lemma {:induction false} SumSnoc(ks: seq<nat>, k: nat)
    ensures Sum(ks + [k]) == Sum(ks) + k
  {
    if ks == [] {
      assert ks + [k] == [k] && [k][1..] == [];
    } else {
      assert (ks + [k])[1..] == ks[1..] + [k];
      SumSnoc(ks[1..], k);
    }
  }

  /** The weighted sum is no less than the plain one, and equal only for a single term. */
  lemma {:induction false} WeightedVersusSum(ks: seq<nat>)
    requires forall k | k in ks :: k > 0
    ensures Weighted(ks) >= Sum(ks)
    ensures Weighted(ks) == Sum(ks) <==> |ks| <= 1
  {
    if ks == [] {
    } else {
      assert forall k | k in ks[1..] :: k in ks;
      WeightedVersusSum(ks[1..]);
      var p := Pow2(|ks| - 1);
      assert ks[0] in ks;
      if |ks| >= 2 {
        assert p >= 2 by { assert p == 2 * Pow2(|ks| - 2); }
        MulLe(2, p, ks[0]);
      }
    }
  }

  lemma HitsAreStaged(fs: seq<Raw>, key: Raw -> Group, g: Group)
    ensures g in Stage(fs, key) <==> Summarize(fs, key, g).count > 0
    ensures g in Stage(fs, key) ==> Stage(fs, key)[g].count == Summarize(fs, key, g).count
  {
    StagingDescribes(fs, key, g);
    if exists f :: f in fs && key(f) == g {
      StagedCountPositive(fs, key, g);
    }
  }

  lemma {:induction false} StagedCountPositive(fs: seq<Raw>, key: Raw -> Group, g: Group)
    requires g in Stage(fs, key)
    ensures Stage(fs, key)[g].count > 0
  {
    if key(fs[|fs| - 1]) != g {
      StagedCountPositive(fs[..|fs| - 1], key, g);
    }
  }

  lemma ScanStep(t: Table, fs: seq<Raw>, key: Raw -> Group, g: Group)
    ensures var k, t' := Summarize(fs, key, g).count, AfterScan(t, fs, key);
            && (k == 0 ==> (g in t' <==> g in t) && (g in t ==> t'[g] == t[g]))
            && (k > 0 ==> g in t' && t'[g].count == (if g in t then 2 * t[g].count else 0) + k)
  {
    HitsAreStaged(fs, key, g);
  }

  /** The stored count of a group after any scans: the doubling sum of its hits. */
  lemma {:induction false} StoredCount(ts: seq<Table>, scans: seq<seq<Raw>>, key: Raw -> Group, g: Group, n: nat)
    requires IsHistory(ts, scans, key) && n <= |scans|
    ensures g in ts[n] <==> Hits(scans, key, g, n) != []
    ensures g in ts[n] ==> ts[n][g].count == Weighted(Hits(scans, key, g, n))
    ensures forall k | k in Hits(scans, key, g, n) :: k > 0
  {
    if n == 0 {
    } else {
      StoredCount(ts, scans, key, g, n - 1);
      assert ScanAt(ts, scans, key, n - 1);
      ScanStep(ts[n - 1], scans[n - 1], key, g);
      WeightedSnoc(Hits(scans, key, g, n - 1), Summarize(scans[n - 1], key, g).count);
    }
  }

  /** The stored count never falls short of the true number of occurrences, and is right if
      and only if at most one scan hit the group. */
  lemma CountRightIffOneScan(ts: seq<Table>, scans: seq<seq<Raw>>, key: Raw -> Group, g: Group, n: nat)
    requires IsHistory(ts, scans, key) && n <= |scans| && g in ts[n]
    ensures ts[n][g].count >= Sum(Hits(scans, key, g, n))
    ensures ts[n][g].count == Sum(Hits(scans, key, g, n)) <==> |Hits(scans, key, g, n)| <= 1
  {
    StoredCount(ts, scans, key, g, n);
    WeightedVersusSum(Hits(scans, key, g, n));
  }

  ghost predicate FirstSeen(t: Table, g: Group, when: string) { g in t && t[g].firstSeen == when }

  lemma FirstSeenStep(t: Table, fs: seq<Raw>, key: Raw -> Group, g: Group, when: string)
    requires FirstSeen(t, g, when) || (g !in t && Discovered(Stage(fs, key), g, when))
    ensures FirstSeen(AfterScan(t, fs, key), g, when)
  {
  }

  /** Once set, the first sighting stays what it is through any further scans. */
  lemma {:induction false} FirstSeenNeverMoves(ts: seq<Table>, scans: seq<seq<Raw>>, key: Raw -> Group, g: Group,
                                               when: string, m: nat, n: nat)
    requires IsHistory(ts, scans, key) && m <= n <= |scans| && FirstSeen(ts[m], g, when)
    ensures FirstSeen(ts[n], g, when)
    decreases n
  {
    if m < n {
      FirstSeenNeverMoves(ts, scans, key, g, when, m, n - 1);
      assert ScanAt(ts, scans, key, n - 1);
      FirstSeenStep(ts[n - 1], scans[n - 1], key, g, when);
    }
  }

  /** The place of the first finding of a group. */
  ghost predicate IsFirst(fs: seq<Raw>, key: Raw -> Group, g: Group, k: nat) {
    k < |fs| && key(fs[k]) == g && forall j | 0 <= j < k :: key(fs[j]) != g
  }

  ghost predicate Discovered(m: Staging, g: Group, when: string) { g in m && m[g].discovered == when }

  lemma {:induction false} StagedSinceFirst(fs: seq<Raw>, key: Raw -> Group, g: Group, k: nat)
    requires IsFirst(fs, key, g, k)
    ensures Discovered(Stage(fs, key), g, fs[k].discovered)
    decreases |fs|
  {
    var n := |fs| - 1;
    var before := fs[..n];
    if k < n {
      assert IsFirst(before, key, g, k);
      StagedSinceFirst(before, key, g, k);
    } else {
      NotStagedBefore(before, key, g);
    }
    DiscoveredNext(Stage(before, key), g, key(fs[n]), fs[n], fs[k].discovered);
  }

  /** Merging into an item leaves its discovery time alone. */
  lemma DiscoveredNext(m: Staging, g: Group, h: Group, f: Raw, when: string)
    requires Discovered(m, g, when) || (g !in m && g == h && f.discovered == when)
    ensures Discovered(StageOne(m, h, Prepare(f)), g, when)
  {}

  ghost predicate Misses(fs: seq<Raw>, key: Raw -> Group, g: Group) {
    forall j | 0 <= j < |fs| :: key(fs[j]) != g
  }

  lemma {:induction false} NotStagedBefore(fs: seq<Raw>, key: Raw -> Group, g: Group)
    requires Misses(fs, key, g)
    ensures g !in Stage(fs, key)
  {
    if fs == [] {
    } else {
      NotStagedBefore(fs[..|fs| - 1], key, g);
    }
  }

  lemma MissedStep(t: Table, fs: seq<Raw>, key: Raw -> Group, g: Group)
    requires Misses(fs, key, g) && g !in t
    ensures g !in AfterScan(t, fs, key)
  {
    NotStagedBefore(fs, key, g);
  }

  lemma {:induction false} NotStoredBefore(ts: seq<Table>, scans: seq<seq<Raw>>, key: Raw -> Group, g: Group, i: nat)
    requires IsHistory(ts, scans, key) && i <= |scans| && forall h | 0 <= h < i :: Misses(scans[h], key, g)
    ensures g !in ts[i]
  {
    if i == 0 {
    } else {
      NotStoredBefore(ts, scans, key, g, i - 1);
      assert ScanAt(ts, scans, key, i - 1);
      MissedStep(ts[i - 1], scans[i - 1], key, g);
    }
  }

  /** After any scans it is the discovery time of the very first finding of the group: number `k` of scan
      `i`, with none in the scans before. */
  lemma FirstSeenIsFirstHit(ts: seq<Table>, scans: seq<seq<Raw>>, key: Raw -> Group, g: Group, i: nat, k: nat, n: nat)
    requires IsHistory(ts, scans, key) && i < n <= |scans| && IsFirst(scans[i], key, g, k)
    requires forall h | 0 <= h < i :: Misses(scans[h], key, g)
    ensures FirstSeen(ts[n], g, scans[i][k].discovered)
  {
    var when := scans[i][k].discovered;
    NotStoredBefore(ts, scans, key, g, i);
    StagedSinceFirst(scans[i], key, g, k);
    assert ScanAt(ts, scans, key, i);
    FirstSeenStep(ts[i], scans[i], key, g, when);
    FirstSeenNeverMoves(ts, scans, key, g, when, i + 1, n);
  }

  /** What a later scan reports of the group: as many occurrences as are stored and hit together, and the very
      first sighting, unless that is blank. */
  lemma ReportedItem(ts: seq<Table>, scans: seq<seq<Raw>>, key: Raw -> Group, g: Group, i: nat, k: nat, n: nat)
    requires IsHistory(ts, scans, key) && i < n < |scans| && IsFirst(scans[i], key, g, k)
    requires forall h | 0 <= h < i :: Misses(scans[h], key, g)
    requires g in Stage(scans[n], key)
    ensures var (count, firstSeen) := Normalized(ts[n], g, Stage(scans[n], key)[g]);
            var hits := Hits(scans, key, g, n);
            && count == Weighted(hits) + Summarize(scans[n], key, g).count
            && (scans[i][k].discovered != "" ==> firstSeen == scans[i][k].discovered)
            && (scans[i][k].discovered == "" ==> firstSeen == Stage(scans[n], key)[g].discovered)
  {
    FirstSeenIsFirstHit(ts, scans, key, g, i, k, n);
    StoredCount(ts, scans, key, g, n);
    HitsAreStaged(scans[n], key, g);
  }

  /** And the first time: the hits and the sighting of the scan itself. */
  lemma FirstReportedItem(ts: seq<Table>, scans: seq<seq<Raw>>, key: Raw -> Group, g: Group, i: nat, k: nat)
    requires IsHistory(ts, scans, key) && i < |scans| && IsFirst(scans[i], key, g, k)
    requires forall h | 0 <= h < i :: Misses(scans[h], key, g)
    ensures g in Stage(scans[i], key)
    ensures var (count, firstSeen) := Normalized(ts[i], g, Stage(scans[i], key)[g]);
            count == Summarize(scans[i], key, g).count && firstSeen == scans[i][k].discovered
  {
    NotStoredBefore(ts, scans, key, g, i);
    StagedSinceFirst(scans[i], key, g, k);
    HitsAreStaged(scans[i], key, g);
  }
}
