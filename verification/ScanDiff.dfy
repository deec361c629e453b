/** Comparing two scans (`finding_intelligence.py`). */
module ScanDiff {
  import opened Arithmetic
  import opened Correlation
  import opened Grouping
  import opened Sorting

  datatype Change = Change(before: Finding, after: Finding, group: Group)

  datatype Diff = Diff(added: seq<GroupRow>, resolved: seq<GroupRow>, changed: seq<Change>,
                       newCount: nat, resolvedCount: nat, changedCount: nat)

  // ----------------------------------------------------------- one finding per group

  /** The last finding of each group. */
  function Latest(fs: seq<Finding>, key: Finding -> Group): map<Group, Finding> {
    if fs == [] then map[]
    else Latest(fs[..|fs| - 1], key)[key(fs[|fs| - 1]) := fs[|fs| - 1]]
  }

  ghost predicate Keyed(m: map<Group, Finding>, key: Finding -> Group) {
    forall g | g in m :: key(m[g]) == g
  }

  lemma {:induction false} LatestIsLastOfGroup(fs: seq<Finding>, key: Finding -> Group)
    ensures Keyed(Latest(fs, key), key)
    ensures forall g :: g in Latest(fs, key) <==> Members(fs, key, g) != []
    ensures forall g | g in Latest(fs, key) ::
              Latest(fs, key)[g] == Members(fs, key, g)[|Members(fs, key, g)| - 1]
  {
    if fs == [] {
    } else {
      LatestIsLastOfGroup(fs[..|fs| - 1], key);
    }
  }

  method IndexLatest(fs: seq<Finding>, key: Finding -> Group) returns (m: map<Group, Finding>)
    ensures m == Latest(fs, key)
  {
    m := map[];
    var i := 0;
    while i < |fs|
      invariant i <= |fs| && m == Latest(fs[..i], key)
    {
      assert fs[..i + 1][..i] == fs[..i];
      m := m[key(fs[i]) := fs[i]];
      i := i + 1;
    }
    assert fs[..i] == fs;
  }

  // -------------------------------------------------------------------- the comparison

  /** Severities are compared as they were written. */
  predicate Differs(a: Finding, b: Finding) {
    a.severity != b.severity || a.validated != b.validated || a.confidence != b.confidence
  }

  /** `fs` lists the findings that `m` has for `groups`, each once, in some order. */
  ghost predicate Lists(fs: seq<Finding>, m: map<Group, Finding>, groups: set<Group>, key: Finding -> Group) {
    && |fs| == |groups|
    && (forall i, j | 0 <= i < j < |fs| :: fs[i] != fs[j])
    && (forall f | f in fs :: key(f) in groups && key(f) in m && m[key(f)] == f)
    && (forall g | g in groups :: g in m && m[g] in fs)
  }

  lemma OneMoreListed(fs: seq<Finding>, m: map<Group, Finding>, groups: set<Group>, g: Group, key: Finding -> Group)
    requires Lists(fs, m, groups, key) && Keyed(m, key) && g in m && g !in groups
    ensures Lists(fs + [m[g]], m, groups + {g}, key)
  {
    assert m[g] !in fs;
  }

  lemma OneFewer(groups: set<Group>, todo: set<Group>, g: Group)
    requires g in todo && todo <= groups
    ensures groups - (todo - {g}) == groups - todo + {g} && todo - {g} <= groups && g !in groups - todo
  {}

  /** The listed values of a set of keys, taken in any order. */
  method ListGroups(m: map<Group, Finding>, groups: set<Group>, ghost key: Finding -> Group) returns (fs: seq<Finding>)
    requires groups <= m.Keys && Keyed(m, key)
    ensures Lists(fs, m, groups, key)
  {
    fs := [];
    var todo := groups;
    while todo != {}
      invariant todo <= groups && Lists(fs, m, groups - todo, key)
      decreases |todo|
    {
      var g :| g in todo;
      OneFewer(groups, todo, g);
      OneMoreListed(fs, m, groups - todo, g, key);
      fs := fs + [m[g]];
      todo := todo - {g};
    }
    assert groups - todo == groups;
  }

  function Changed(now: map<Group, Finding>, past: map<Group, Finding>, groups: set<Group>): set<Group> {
    set g | g in groups && g in now && g in past && Differs(past[g], now[g])
  }

  ghost predicate ListsChanges(cs: seq<Change>, now: map<Group, Finding>, past: map<Group, Finding>,
                               groups: set<Group>)
  {
    && |cs| == |Changed(now, past, groups)|
    && (forall c | c in cs ::
          c.group in Changed(now, past, groups) && c == Change(past[c.group], now[c.group], c.group))
    && (forall g | g in Changed(now, past, groups) :: Change(past[g], now[g], g) in cs)
  }

  lemma OneMoreCompared(cs: seq<Change>, now: map<Group, Finding>, past: map<Group, Finding>, groups: set<Group>,
                        g: Group)
    requires ListsChanges(cs, now, past, groups) && g !in groups && g in now && g in past
    ensures ListsChanges(if Differs(past[g], now[g]) then cs + [Change(past[g], now[g], g)] else cs,
                         now, past, groups + {g})
  {
    ChangedGrows(now, past, groups, g);
    if Differs(past[g], now[g]) {
      OneMoreChange(cs, now, past, groups, g);
    }
  }

  lemma ChangedGrows(now: map<Group, Finding>, past: map<Group, Finding>, groups: set<Group>, g: Group)
    requires g in now && g in past
    ensures Changed(now, past, groups + {g})
         == Changed(now, past, groups) + if Differs(past[g], now[g]) then {g} else {}
  {}

  lemma OneMoreChange(cs: seq<Change>, now: map<Group, Finding>, past: map<Group, Finding>, groups: set<Group>,
                      g: Group)
    requires ListsChanges(cs, now, past, groups) && g !in groups && g in now && g in past && Differs(past[g], now[g])
    ensures ListsChanges(cs + [Change(past[g], now[g], g)], now, past, groups + {g})
  {
    ChangedGrows(now, past, groups, g);
    assert g !in Changed(now, past, groups);
  }

  method ListChanges(now: map<Group, Finding>, past: map<Group, Finding>, groups: set<Group>)
    returns (cs: seq<Change>)
    requires groups <= now.Keys && groups <= past.Keys
    ensures ListsChanges(cs, now, past, groups)
  {
    cs := [];
    var todo := groups;
    while todo != {}
      invariant todo <= groups && ListsChanges(cs, now, past, groups - todo)
      decreases |todo|
    {
      var g :| g in todo;
      var before, after := past[g], now[g];
      OneFewer(groups, todo, g);
      OneMoreCompared(cs, now, past, groups - todo, g);
      if Differs(before, after) {
        cs := cs + [Change(before, after, g)];
      }
      todo := todo - {g};
    }
    assert groups - todo == groups;
  }

  /** `rows` is the display form of the findings that `m` has for `groups`. */
  ghost predicate Reports(rows: seq<GroupRow>, count: nat, m: map<Group, Finding>, groups: set<Group>,
                          key: Finding -> Group)
  {
    exists fs :: Lists(fs, m, groups, key) && Partitioned(fs, key, rows) && count == |fs|
  }

  /** What a diff of two indexed scans holds. */
  ghost predicate Compares(d: Diff, now: map<Group, Finding>, past: map<Group, Finding>, key: Finding -> Group) {
    && Reports(d.added, d.newCount, now, now.Keys - past.Keys, key)
    && Reports(d.resolved, d.resolvedCount, past, past.Keys - now.Keys, key)
    && ListsChanges(d.changed, now, past, now.Keys * past.Keys) && d.changedCount == |d.changed|
  }

  method BuildScanDiff(current: seq<Finding>, previous: seq<Finding>, key: Finding -> Group) returns (d: Diff)
    ensures Compares(d, Latest(current, key), Latest(previous, key), key)
  {
    var now := IndexLatest(current, key);
    var past := IndexLatest(previous, key);
    LatestIsLastOfGroup(current, key);
    LatestIsLastOfGroup(previous, key);
    var fresher := ListGroups(now, now.Keys - past.Keys, key);
    var gone := ListGroups(past, past.Keys - now.Keys, key);
    var changed := ListChanges(now, past, now.Keys * past.Keys);
    var added := BuildFindingGroups(fresher, key);
    var resolved := BuildFindingGroups(gone, key);
    d := Diff(added, resolved, changed, |fresher|, |gone|, |changed|);
  }

  // --------------------------------------------------------------------- what it means

  lemma {:induction false} ListedAlone(fs: seq<Finding>, key: Finding -> Group, f: Finding)
    requires f in fs
    requires forall i, j | 0 <= i < j < |fs| :: key(fs[i]) != key(fs[j])
    ensures Members(fs, key, key(f)) == [f]
  {
    var n := |fs| - 1;
    if f == fs[n] {
      if Members(fs[..n], key, key(f)) != [] {
        MembersComeFrom(fs[..n], key, key(f));
      }
    } else {
      assert fs == fs[..n] + [fs[n]];
      ListedAlone(fs[..n], key, f);
    }
  }

  lemma {:induction false} MembersComeFrom(fs: seq<Finding>, key: Finding -> Group, g: Group)
    ensures forall f | f in Members(fs, key, g) :: f in fs && key(f) == g
    ensures Members(fs, key, g) != [] ==> exists i :: 0 <= i < |fs| && key(fs[i]) == g
  {
    if fs == [] {
    } else {
      MembersComeFrom(fs[..|fs| - 1], key, g);
      assert fs == fs[..|fs| - 1] + [fs[|fs| - 1]];
    }
  }

  lemma {:induction false} SingletonRows(rows: seq<GroupRow>)
    requires forall r | r in rows :: |r.findings| == 1
    ensures |AllMembers(rows)| == |rows|
  {
    if rows == [] {
    } else {
      SingletonRows(rows[1..]);
      assert |multiset(rows[0].findings)| == 1;
    }
  }

  lemma RowOfListed(fs: seq<Finding>, rows: seq<GroupRow>, r: GroupRow, m: map<Group, Finding>, groups: set<Group>,
                    key: Finding -> Group)
    requires Lists(fs, m, groups, key) && r in rows
    requires Faithful(r, Members(fs, key, r.id))
    ensures r.id in groups && r.id in m && r.findings == [m[r.id]]
  {
    MembersComeFrom(fs, key, r.id);
    var f := Members(fs, key, r.id)[0];
    assert f in Members(fs, key, r.id);
    assert forall i | 0 <= i < |fs| :: fs[i] in fs;
    ListedAlone(fs, key, f);
  }

  lemma RowsOfListed(fs: seq<Finding>, rows: seq<GroupRow>, m: map<Group, Finding>, groups: set<Group>,
                     key: Finding -> Group)
    requires Lists(fs, m, groups, key)
    requires forall r | r in rows :: Faithful(r, Members(fs, key, r.id))
    ensures forall r | r in rows :: r.id in groups && r.id in m && r.findings == [m[r.id]]
  {
    forall r | r in rows ensures r.id in groups && r.id in m && r.findings == [m[r.id]] {
      RowOfListed(fs, rows, r, m, groups, key);
    }
  }

  lemma ListedIsReported(fs: seq<Finding>, rows: seq<GroupRow>, m: map<Group, Finding>, groups: set<Group>,
                         key: Finding -> Group)
    requires Lists(fs, m, groups, key) && Keyed(m, key)
    requires forall f | f in fs :: exists r | r in rows :: r.id == key(f)
    ensures forall g | g in groups :: exists r | r in rows :: r.id == g
  {
    forall g | g in groups ensures exists r | r in rows :: r.id == g {
      var f := m[g];
      assert f in fs && key(f) == g;
    }
  }

  /** A report has one row for each of its groups, holding that group's one listed finding. */
  lemma ReportIsOneRowEach(rows: seq<GroupRow>, count: nat, m: map<Group, Finding>, groups: set<Group>,
                           key: Finding -> Group)
    requires Reports(rows, count, m, groups, key) && Keyed(m, key)
    ensures count == |rows| == |groups|
    ensures forall r | r in rows :: r.id in groups && r.id in m && r.findings == [m[r.id]]
    ensures forall g | g in groups :: exists r | r in rows :: r.id == g
  {
    var fs :| Lists(fs, m, groups, key) && Partitioned(fs, key, rows) && count == |fs|;
    RowsOfListed(fs, rows, m, groups, key);
    ListedIsReported(fs, rows, m, groups, key);
    SingletonRows(rows);
  }

  lemma SameListing(fs: seq<Finding>, gs: seq<Finding>, m: map<Group, Finding>, groups: set<Group>,
                    key: Finding -> Group)
    requires Lists(fs, m, groups, key) && Lists(gs, m, groups, key)
    ensures multiset(fs) == multiset(gs)
  {
    forall f: Finding ensures multiset(fs)[f] == multiset(gs)[f] {
      DistinctCount(fs, f);
      DistinctCount(gs, f);
    }
  }

  lemma SameReport(a: seq<GroupRow>, i: nat, b: seq<GroupRow>, j: nat, m: map<Group, Finding>, groups: set<Group>,
                   key: Finding -> Group)
    requires Reports(a, i, m, groups, key) && Reports(b, j, m, groups, key)
    ensures i == j && AllMembers(a) == AllMembers(b)
  {
    var fs :| Lists(fs, m, groups, key) && Partitioned(fs, key, a) && i == |fs|;
    var gs :| Lists(gs, m, groups, key) && Partitioned(gs, key, b) && j == |gs|;
    SameListing(fs, gs, m, groups, key);
  }

  lemma SplitSizes(a: set<Group>, b: set<Group>)
    ensures |a - b| + |a * b| == |a|
  {
    assert a == (a - b) + a * b;
  }

  lemma KeySizes(now: map<Group, Finding>, past: map<Group, Finding>)
    ensures |now.Keys - past.Keys| + |now.Keys * past.Keys| == |now|
    ensures |past.Keys - now.Keys| + |now.Keys * past.Keys| == |past|
  {
    SplitSizes(now.Keys, past.Keys);
    SplitSizes(past.Keys, now.Keys);
    assert past.Keys * now.Keys == now.Keys * past.Keys;
  }

  lemma ReportSize(rows: seq<GroupRow>, count: nat, m: map<Group, Finding>, groups: set<Group>,
                   key: Finding -> Group)
    requires Reports(rows, count, m, groups, key) && Keyed(m, key)
    ensures count == |rows| == |groups|
  {
    ReportIsOneRowEach(rows, count, m, groups, key);
  }

  lemma SideSizes(d: Diff, now: map<Group, Finding>, past: map<Group, Finding>, key: Finding -> Group)
    requires Compares(d, now, past, key) && Keyed(now, key) && Keyed(past, key)
    ensures d.newCount == |d.added| == |now.Keys - past.Keys|
    ensures d.resolvedCount == |d.resolved| == |past.Keys - now.Keys|
  {
    ReportSize(d.added, d.newCount, now, now.Keys - past.Keys, key);
    ReportSize(d.resolved, d.resolvedCount, past, past.Keys - now.Keys, key);
  }

  lemma ChangeSize(d: Diff, now: map<Group, Finding>, past: map<Group, Finding>, key: Finding -> Group)
    requires Compares(d, now, past, key)
    ensures d.changedCount <= |now.Keys * past.Keys|
  {
    ChangesAreFewer(d.changed, now, past, now.Keys * past.Keys);
  }

  /** The counts partition the groups of both scans. */
  lemma CountsPartition(d: Diff, now: map<Group, Finding>, past: map<Group, Finding>, key: Finding -> Group)
    requires Compares(d, now, past, key) && Keyed(now, key) && Keyed(past, key)
    ensures d.newCount == |d.added| && d.resolvedCount == |d.resolved|
    ensures d.newCount + |now.Keys * past.Keys| == |now|
    ensures d.resolvedCount + |now.Keys * past.Keys| == |past|
    ensures d.changedCount <= |now.Keys * past.Keys|
  {
    SideSizes(d, now, past, key);
    ChangeSize(d, now, past, key);
    KeySizes(now, past);
  }

  lemma ChangesAreFewer(cs: seq<Change>, now: map<Group, Finding>, past: map<Group, Finding>, groups: set<Group>)
    requires ListsChanges(cs, now, past, groups)
    ensures |cs| <= |groups|
  {
    SubsetSize(Changed(now, past, groups), groups);
  }

  lemma ChangesSwap(cs: seq<Change>, ds: seq<Change>, now: map<Group, Finding>, past: map<Group, Finding>)
    requires ListsChanges(cs, now, past, now.Keys * past.Keys)
    requires ListsChanges(ds, past, now, past.Keys * now.Keys)
    ensures |cs| == |ds|
    ensures forall a, b, g :: Change(b, a, g) in cs <==> Change(a, b, g) in ds
  {
    var both := now.Keys * past.Keys;
    var other := past.Keys * now.Keys;
    assert Changed(now, past, both) == Changed(past, now, other);
  }

  /** Comparing the scans the other way round swaps what is new and what is resolved, and the two
      sides of every change. */
  lemma SwappingSwaps(d: Diff, e: Diff, now: map<Group, Finding>, past: map<Group, Finding>, key: Finding -> Group)
    requires Compares(d, now, past, key) && Compares(e, past, now, key)
    ensures d.newCount == e.resolvedCount && AllMembers(d.added) == AllMembers(e.resolved)
    ensures d.resolvedCount == e.newCount && AllMembers(d.resolved) == AllMembers(e.added)
    ensures d.changedCount == e.changedCount
    ensures forall a, b, g :: Change(b, a, g) in d.changed <==> Change(a, b, g) in e.changed
  {
    SameReport(d.added, d.newCount, e.resolved, e.resolvedCount, now, now.Keys - past.Keys, key);
    SameReport(d.resolved, d.resolvedCount, e.added, e.newCount, past, past.Keys - now.Keys, key);
    ChangesSwap(d.changed, e.changed, now, past);
  }

  predicate Same(a: Finding, b: Finding) {
    (a.severity, a.validated, a.confidence) == (b.severity, b.validated, b.confidence)
  }

  /** All three counts are zero exactly when the scans have the same groups and no group differs in
      what is compared; in particular when a scan is compared with itself. */
  lemma EmptyDiffIffAlike(d: Diff, now: map<Group, Finding>, past: map<Group, Finding>, key: Finding -> Group)
    requires Compares(d, now, past, key) && Keyed(now, key) && Keyed(past, key)
    ensures d.newCount == d.resolvedCount == d.changedCount == 0
            <==> now.Keys == past.Keys && forall g | g in now && g in past :: Same(past[g], now[g])
    ensures now == past ==> d.added == [] && d.resolved == [] && d.changed == []
  {
    SideSizes(d, now, past, key);
    SameKeysIff(now, past);
    NoChanges(d.changed, now, past);
  }

  lemma SameKeysIff(now: map<Group, Finding>, past: map<Group, Finding>)
    ensures |now.Keys - past.Keys| == 0 && |past.Keys - now.Keys| == 0 <==> now.Keys == past.Keys
  {
    if |now.Keys - past.Keys| == 0 && |past.Keys - now.Keys| == 0 {
      assert now.Keys - past.Keys == {} && past.Keys - now.Keys == {};
    }
  }

  lemma NoChanges(cs: seq<Change>, now: map<Group, Finding>, past: map<Group, Finding>)
    requires ListsChanges(cs, now, past, now.Keys * past.Keys)
    ensures cs == [] <==> forall g | g in now && g in past :: Same(past[g], now[g])
  {
    var both := now.Keys * past.Keys;
    var changed := Changed(now, past, both);
    assert cs == [] <==> changed == {};
    assert forall g | g in now && g in past :: g in changed <==> Differs(past[g], now[g]);
    if changed != {} {
      var g :| g in changed;
    }
  }

  // ------------------------------------------------------------- the report, side by side

  /** The last finding of a group in a scan. */
  function LastOf(fs: seq<Finding>, key: Finding -> Group, g: Group): Finding
    requires Members(fs, key, g) != []
  {
    Members(fs, key, g)[|Members(fs, key, g)| - 1]
  }

  predicate Occurs(fs: seq<Finding>, key: Finding -> Group, g: Group) { Members(fs, key, g) != [] }

  /** The rows are those of the groups that occur in one scan and not in the other, each with its last finding. */
  ghost predicate OnlyIn(rows: seq<GroupRow>, fs: seq<Finding>, others: seq<Finding>, key: Finding -> Group) {
    && (forall g :: Occurs(fs, key, g) && !Occurs(others, key, g) ==> exists r | r in rows :: r.id == g)
    && (forall r | r in rows ::
          Occurs(fs, key, r.id) && !Occurs(others, key, r.id) && r.findings == [LastOf(fs, key, r.id)])
  }

  ghost predicate Indexes(m: map<Group, Finding>, fs: seq<Finding>, key: Finding -> Group) {
    forall g :: (g in m <==> Occurs(fs, key, g)) && (g in m ==> m[g] == LastOf(fs, key, g))
  }

  lemma LatestIndexes(fs: seq<Finding>, key: Finding -> Group)
    ensures Indexes(Latest(fs, key), fs, key) && Keyed(Latest(fs, key), key)
  {
    LatestIsLastOfGroup(fs, key);
  }

  lemma SideTells(rows: seq<GroupRow>, count: nat, m: map<Group, Finding>, o: map<Group, Finding>,
                  fs: seq<Finding>, others: seq<Finding>, key: Finding -> Group)
    requires Reports(rows, count, m, m.Keys - o.Keys, key) && Keyed(m, key)
    requires Indexes(m, fs, key) && Indexes(o, others, key)
    ensures OnlyIn(rows, fs, others, key)
  {
    ReportIsOneRowEach(rows, count, m, m.Keys - o.Keys, key);
    forall g | Occurs(fs, key, g) && !Occurs(others, key, g) ensures exists r | r in rows :: r.id == g {
      assert g in m.Keys - o.Keys;
    }
  }

  /** New groups occur only in the current scan and resolved ones only in the previous one; a change shows the
      last finding of the previous scan before and that of the current scan after, for exactly the common
      groups in which severity, validation or confidence differ. */
  lemma ReportTells(d: Diff, current: seq<Finding>, previous: seq<Finding>, key: Finding -> Group)
    requires Compares(d, Latest(current, key), Latest(previous, key), key)
    ensures OnlyIn(d.added, current, previous, key) && OnlyIn(d.resolved, previous, current, key)
    ensures forall c | c in d.changed ::
              && Occurs(current, key, c.group) && Occurs(previous, key, c.group)
              && c.before == LastOf(previous, key, c.group) && c.after == LastOf(current, key, c.group)
              && !Same(c.before, c.after)
    ensures forall g | Occurs(current, key, g) && Occurs(previous, key, g)
                       && !Same(LastOf(previous, key, g), LastOf(current, key, g)) ::
              exists c | c in d.changed :: c.group == g
  {
    var now, past := Latest(current, key), Latest(previous, key);
    LatestIndexes(current, key);
    LatestIndexes(previous, key);
    SideTells(d.added, d.newCount, now, past, current, previous, key);
    SideTells(d.resolved, d.resolvedCount, past, now, previous, current, key);
    ChangesTell(d.changed, now, past, current, previous, key);
  }

  lemma ChangesTell(cs: seq<Change>, now: map<Group, Finding>, past: map<Group, Finding>,
                    current: seq<Finding>, previous: seq<Finding>, key: Finding -> Group)
    requires ListsChanges(cs, now, past, now.Keys * past.Keys)
    requires Indexes(now, current, key) && Indexes(past, previous, key)
    ensures forall c | c in cs ::
              && Occurs(current, key, c.group) && Occurs(previous, key, c.group)
              && c.before == LastOf(previous, key, c.group) && c.after == LastOf(current, key, c.group)
              && !Same(c.before, c.after)
    ensures forall g | Occurs(current, key, g) && Occurs(previous, key, g)
                       && !Same(LastOf(previous, key, g), LastOf(current, key, g)) ::
              exists c | c in cs :: c.group == g
  {
    forall g | Occurs(current, key, g) && Occurs(previous, key, g)
               && !Same(LastOf(previous, key, g), LastOf(current, key, g))
      ensures exists c | c in cs :: c.group == g
    {
      assert g in Changed(now, past, now.Keys * past.Keys);
      assert Change(past[g], now[g], g) in cs;
    }
  }
}
