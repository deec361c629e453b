/** Grouping findings for display and comparing two scans (`finding_intelligence.py`).
    Group ids are an arbitrary function of a finding. */
module Grouping {
  import opened Correlation
  import opened Sorting
  import opened Text

  /** What a row copies from its first finding. */
  datatype Details = Details(category: string, target: string, assetId: string, kind: string, cve: string, cpe: string,
                             confidenceReason: string, analystStatus: string, retestStatus: string)

  /** Confidence in hundredths, as the code rounds it. */
  datatype Finding = Finding(id: string, title: string, details: Details, severity: string, validated: bool,
                             confidence: nat, occurrences: nat, evidence: nat, sources: set<string>,
                             firstSeen: string, lastSeen: string)

  datatype GroupRow = GroupRow(id: Group, title: string, details: Details, latestFinding: string, severity: Severity,
                               validated: bool, confidence: nat, occurrences: nat, evidence: nat, sources: set<string>,
                               firstSeen: string, lastSeen: string, findings: seq<Finding>)

  function Larger(a: nat, b: nat): nat { if a >= b then a else b }

  function Occurrences(f: Finding): nat { if f.occurrences == 0 then 1 else f.occurrences }

  function NewRow(g: Group, f: Finding): GroupRow {
    GroupRow(g, f.title, f.details, f.id, NormalizeSeverity(f.severity), f.validated, f.confidence, Occurrences(f),
             f.evidence, f.sources, f.firstSeen, f.lastSeen, [f])
  }

  function Absorb(r: GroupRow, f: Finding): GroupRow {
    var severity := NormalizeSeverity(f.severity);
    r.(validated := r.validated || f.validated,
       severity := if Rank(severity) > Rank(r.severity) then severity else r.severity,
       lastSeen := if LexLe(r.lastSeen, f.lastSeen) then f.lastSeen else r.lastSeen,
       firstSeen := if LexLe(r.firstSeen, f.firstSeen) then r.firstSeen else f.firstSeen,
       occurrences := Larger(r.occurrences, Occurrences(f)),
       evidence := Larger(r.evidence, f.evidence),
       sources := Cleaned(r.sources + f.sources),
       confidence := Larger(r.confidence, f.confidence),
       findings := r.findings + [f])
  }

  /** Most severe first, then most confident, then by title. */
  predicate Before(a: GroupRow, b: GroupRow) {
    Rank(a.severity) > Rank(b.severity)
    || (a.severity == b.severity
        && (a.confidence > b.confidence
            || (a.confidence == b.confidence && LexLe(Lower(a.title), Lower(b.title)))))
  }

  lemma BeforeIsTotalPreorder()
    ensures TotalPreorder(Before)
  {
    forall a, b ensures Before(a, b) || Before(b, a) {
      LexTotal(Lower(a.title), Lower(b.title));
    }
    forall a, b, c | Before(a, b) && Before(b, c) ensures Before(a, c) {
      var x, y, z := Lower(a.title), Lower(b.title), Lower(c.title);
      if LexLe(x, y) && LexLe(y, z) {
        LexTransitive(x, y, z);
      }
    }
  }

  // --------------------------------------------------------------- the grouping fold

  /** The rows by id, and the ids in the order in which they first occur. */
  datatype Groups = Groups(rows: map<Group, GroupRow>, order: seq<Group>)

  function Collect(fs: seq<Finding>, key: Finding -> Group): Groups {
    if fs == [] then Groups(map[], [])
    else
      var n := |fs| - 1;
      var s := Collect(fs[..n], key);
      var g := key(fs[n]);
      if g in s.rows then Groups(s.rows[g := Absorb(s.rows[g], fs[n])], s.order)
      else Groups(s.rows[g := NewRow(g, fs[n])], s.order + [g])
  }

  function Pick(rows: map<Group, GroupRow>, order: seq<Group>): seq<GroupRow>
    requires forall g | g in order :: g in rows
  {
    seq(|order|, i requires 0 <= i < |order| => rows[order[i]])
  }

  method BuildFindingGroups(fs: seq<Finding>, key: Finding -> Group) returns (grouped: seq<GroupRow>)
    ensures Partitioned(fs, key, grouped)
  {
    var rows: map<Group, GroupRow> := map[];
    var order: seq<Group> := [];
    var i := 0;
    while i < |fs|
      invariant i <= |fs| && Groups(rows, order) == Collect(fs[..i], key)
    {
      assert fs[..i + 1][..i] == fs[..i];
      var f := fs[i];
      var g := key(f);
      if g !in rows {
        rows, order := rows[g := NewRow(g, f)], order + [g];
      } else {
        rows := rows[g := Absorb(rows[g], f)];
      }
      i := i + 1;
    }
    assert fs[..i] == fs;
    GroupsPartition(fs, key);
    grouped := Sort(Pick(rows, order), Before);
  }

  // ------------------------------------------------------------- what the groups are

  /** The findings of a group, in their order. */
  function Members(fs: seq<Finding>, key: Finding -> Group, g: Group): seq<Finding> {
    if fs == [] then []
    else Members(fs[..|fs| - 1], key, g) + if key(fs[|fs| - 1]) == g then [fs[|fs| - 1]] else []
  }

  ghost predicate Ordered(fs: seq<Finding>, key: Finding -> Group) {
    var s := Collect(fs, key);
    && (forall g :: g in s.order <==> g in s.rows)
    && (forall i, j | 0 <= i < j < |s.order| :: s.order[i] != s.order[j])
  }

  lemma {:induction false} CollectOrdered(fs: seq<Finding>, key: Finding -> Group)
    ensures Ordered(fs, key)
  {
    if fs == [] {
    } else {
      CollectOrdered(fs[..|fs| - 1], key);
    }
  }

  datatype Measure = BySeverity | ByConfidence | ByOccurrences | ByEvidence

  function Measured(f: Finding, m: Measure): nat {
    match m
    case BySeverity => Rank(NormalizeSeverity(f.severity))
    case ByConfidence => f.confidence
    case ByOccurrences => Larger(f.occurrences, 1)
    case ByEvidence => f.evidence
  }

  /** `v` is the highest value of a measure, and occurs. */
  ghost predicate Highest(members: seq<Finding>, m: Measure, v: nat) {
    (forall f | f in members :: Measured(f, m) <= v) && (exists f :: f in members && Measured(f, m) == v)
  }

  ghost predicate Earliest(members: seq<Finding>, t: string) {
    (forall f | f in members :: LexLe(t, f.firstSeen)) && (exists f :: f in members && f.firstSeen == t)
  }

  ghost predicate Last(members: seq<Finding>, t: string) {
    (forall f | f in members :: LexLe(f.lastSeen, t)) && (exists f :: f in members && f.lastSeen == t)
  }

  /** The sources of one finding as they are, of several trimmed and without blanks. */
  function SourcesOf(members: seq<Finding>): set<string> {
    if |members| == 1 then members[0].sources else Cleaned(AllSources(members))
  }

  function AllSources(members: seq<Finding>): set<string> {
    if members == [] then {} else AllSources(members[..|members| - 1]) + members[|members| - 1].sources
  }

  /** A row has its first member's title, details and id, the highest severity, confidence and counts of its
      members, the first and last sighting and all their sources, and is validated if one of them is. */
  ghost predicate Faithful(r: GroupRow, members: seq<Finding>) {
    && members != [] && r.findings == members
    && r.title == members[0].title && r.details == members[0].details && r.latestFinding == members[0].id
    && Highest(members, BySeverity, Rank(r.severity)) && Highest(members, ByConfidence, r.confidence)
    && Highest(members, ByOccurrences, r.occurrences) && Highest(members, ByEvidence, r.evidence)
    && Earliest(members, r.firstSeen) && Last(members, r.lastSeen)
    && (r.validated <==> exists f | f in members :: f.validated)
    && r.sources == SourcesOf(members)
  }

  lemma NewRowFaithful(g: Group, f: Finding)
    ensures Faithful(NewRow(g, f), [f])
  {
    assert f in [f];
    LexTotal(f.firstSeen, f.firstSeen);
    LexTotal(f.lastSeen, f.lastSeen);
    assert forall m :: Highest([f], m, Measured(f, m));
  }

  lemma HighestAbsorbs(members: seq<Finding>, m: Measure, v: nat, f: Finding)
    requires Highest(members, m, v)
    ensures Highest(members + [f], m, Larger(v, Measured(f, m)))
  {
    var g :| g in members && Measured(g, m) == v;
    assert g in members + [f] && f in members + [f];
  }

  lemma EarliestAbsorbs(members: seq<Finding>, t: string, f: Finding)
    requires Earliest(members, t)
    ensures Earliest(members + [f], if LexLe(t, f.firstSeen) then t else f.firstSeen)
  {
    var all, first := members + [f], if LexLe(t, f.firstSeen) then t else f.firstSeen;
    LexTotal(t, f.firstSeen);
    LexTotal(f.firstSeen, f.firstSeen);
    forall x | x in all ensures LexLe(first, x.firstSeen) {
      if x in members && first != t {
        LexTransitive(first, t, x.firstSeen);
      }
    }
    var g :| g in members && g.firstSeen == t;
    assert g in all && f in all;
  }

  lemma LastAbsorbs(members: seq<Finding>, t: string, f: Finding)
    requires Last(members, t)
    ensures Last(members + [f], if LexLe(t, f.lastSeen) then f.lastSeen else t)
  {
    var all, last := members + [f], if LexLe(t, f.lastSeen) then f.lastSeen else t;
    LexTotal(t, f.lastSeen);
    LexTotal(f.lastSeen, f.lastSeen);
    forall x | x in all ensures LexLe(x.lastSeen, last) {
      if x in members && last != t {
        LexTransitive(x.lastSeen, t, last);
      }
    }
    var g :| g in members && g.lastSeen == t;
    assert g in all && f in all;
  }

  lemma AllSourcesSnoc(members: seq<Finding>, f: Finding)
    ensures AllSources(members + [f]) == AllSources(members) + f.sources
  {
    assert (members + [f])[..|members|] == members;
  }

  lemma AllSourcesOne(members: seq<Finding>)
    requires |members| == 1
    ensures AllSources(members) == members[0].sources
  {
    AllSourcesSnoc([], members[0]);
    assert members == [] + [members[0]];
  }

  lemma CleanedLate(a: set<string>, b: set<string>)
    ensures Cleaned(Cleaned(a) + b) == Cleaned(a + b)
  {
    CleanedUnion(Cleaned(a), b);
    CleanedTwice(a);
    CleanedUnion(a, b);
  }

  lemma SourcesAbsorb(members: seq<Finding>, f: Finding)
    requires members != []
    ensures Cleaned(SourcesOf(members) + f.sources) == SourcesOf(members + [f])
  {
    AllSourcesSnoc(members, f);
    if |members| == 1 {
      AllSourcesOne(members);
    } else {
      CleanedLate(AllSources(members), f.sources);
    }
  }

  lemma ValidatedAbsorbs(members: seq<Finding>, f: Finding)
    ensures (exists x | x in members + [f] :: x.validated) <==> (exists x | x in members :: x.validated) || f.validated
  {
    assert forall x :: x in members + [f] <==> x in members || x == f;
  }

  lemma HigherSeverity(a: Severity, b: Severity)
    ensures Rank(if Rank(b) > Rank(a) then b else a) == Larger(Rank(a), Rank(b))
  {}

  /** `after` is `r` with one more member, field by field. */
  ghost predicate Gains(r: GroupRow, f: Finding, after: GroupRow) {
    && after.findings == r.findings + [f] && after.title == r.title && after.details == r.details
    && after.latestFinding == r.latestFinding
    && Rank(after.severity) == Larger(Rank(r.severity), Measured(f, BySeverity))
    && after.confidence == Larger(r.confidence, Measured(f, ByConfidence))
    && after.occurrences == Larger(r.occurrences, Measured(f, ByOccurrences))
    && after.evidence == Larger(r.evidence, Measured(f, ByEvidence))
    && after.firstSeen == (if LexLe(r.firstSeen, f.firstSeen) then r.firstSeen else f.firstSeen)
    && after.lastSeen == (if LexLe(r.lastSeen, f.lastSeen) then f.lastSeen else r.lastSeen)
    && after.validated == (r.validated || f.validated) && after.sources == Cleaned(r.sources + f.sources)
  }

  lemma GainsFaithful(r: GroupRow, f: Finding, members: seq<Finding>, after: GroupRow)
    requires Faithful(r, members) && Gains(r, f, after)
    ensures Faithful(after, members + [f])
  {
    HighestAbsorbs(members, BySeverity, Rank(r.severity), f);
    HighestAbsorbs(members, ByConfidence, r.confidence, f);
    HighestAbsorbs(members, ByOccurrences, r.occurrences, f);
    HighestAbsorbs(members, ByEvidence, r.evidence, f);
    EarliestAbsorbs(members, r.firstSeen, f);
    LastAbsorbs(members, r.lastSeen, f);
    ValidatedAbsorbs(members, f);
    SourcesAbsorb(members, f);
  }

  lemma AbsorbGains(r: GroupRow, f: Finding)
    ensures Gains(r, f, Absorb(r, f))
  {
    HigherSeverity(r.severity, NormalizeSeverity(f.severity));
  }

  lemma AbsorbFaithful(r: GroupRow, f: Finding, members: seq<Finding>)
    requires Faithful(r, members)
    ensures Faithful(Absorb(r, f), members + [f])
  {
    AbsorbGains(r, f);
    GainsFaithful(r, f, members, Absorb(r, f));
  }

  /** Every row lists exactly the findings of its group, in order, and summarises them. */
  lemma {:induction false} RowsAreFaithful(fs: seq<Finding>, key: Finding -> Group, g: Group)
    ensures g in Collect(fs, key).rows <==> Members(fs, key, g) != []
    ensures g in Collect(fs, key).rows ==>
              Collect(fs, key).rows[g].id == g && Faithful(Collect(fs, key).rows[g], Members(fs, key, g))
  {
    if fs == [] {
    } else {
      var n := |fs| - 1;
      RowsAreFaithful(fs[..n], key, g);
      var s, f := Collect(fs[..n], key), fs[n];
      if key(f) == g {
        if g in s.rows {
          AbsorbFaithful(s.rows[g], f, Members(fs[..n], key, g));
        } else {
          NewRowFaithful(g, f);
        }
      } else {
        assert Members(fs, key, g) == Members(fs[..n], key, g);
      }
    }
  }

  // ------------------------------------------------------- the groups are a partition

  /** All members of the listed rows together. */
  function AllMembers(rows: seq<GroupRow>): multiset<Finding> {
    if rows == [] then multiset{} else multiset(rows[0].findings) + AllMembers(rows[1..])
  }

  lemma {:induction false} AllMembersAppend(rows: seq<GroupRow>, r: GroupRow)
    ensures AllMembers(rows + [r]) == AllMembers(rows) + multiset(r.findings)
  {
    if rows == [] {
    } else {
      AllMembersAppend(rows[1..], r);
      assert (rows + [r])[1..] == rows[1..] + [r];
    }
  }

  lemma {:induction false} AllMembersUpdate(rows: seq<GroupRow>, i: nat, r: GroupRow, f: Finding)
    requires i < |rows| && r.findings == rows[i].findings + [f]
    ensures AllMembers(rows[i := r]) == AllMembers(rows) + multiset{f}
  {
    if i > 0 {
      AllMembersUpdate(rows[1..], i - 1, r, f);
      assert rows[i := r][1..] == rows[1..][i - 1 := r];
    } else {
      assert rows[i := r][1..] == rows[1..];
    }
  }

  lemma {:induction false} AllMembersInsert(r: GroupRow, rows: seq<GroupRow>)
    ensures AllMembers(Insert(r, rows, Before)) == multiset(r.findings) + AllMembers(rows)
  {
    if rows == [] {
      assert AllMembers([r]) == multiset(r.findings) + AllMembers([]);
    } else if Before(r, rows[0]) {
      assert ([r] + rows)[1..] == rows;
    } else {
      AllMembersInsert(r, rows[1..]);
      assert ([rows[0]] + Insert(r, rows[1..], Before))[1..] == Insert(r, rows[1..], Before);
    }
  }

  lemma {:induction false} AllMembersSorted(rows: seq<GroupRow>)
    ensures AllMembers(Sort(rows, Before)) == AllMembers(rows)
  {
    if rows == [] {
    } else {
      AllMembersSorted(rows[1..]);
      AllMembersInsert(rows[0], Sort(rows[1..], Before));
    }
  }

  lemma PickAbsorbs(rows: map<Group, GroupRow>, order: seq<Group>, g: Group, f: Finding)
    requires (forall h | h in order :: h in rows) && g in order
    requires forall i, j | 0 <= i < j < |order| :: order[i] != order[j]
    ensures AllMembers(Pick(rows[g := Absorb(rows[g], f)], order)) == AllMembers(Pick(rows, order)) + multiset{f}
  {
    var i :| 0 <= i < |order| && order[i] == g;
    var r := Absorb(rows[g], f);
    AllMembersUpdate(Pick(rows, order), i, r, f);
    assert Pick(rows[g := r], order) == Pick(rows, order)[i := r];
  }

  lemma PickGains(rows: map<Group, GroupRow>, order: seq<Group>, g: Group, f: Finding)
    requires (forall h | h in order :: h in rows) && g !in order
    ensures AllMembers(Pick(rows[g := NewRow(g, f)], order + [g])) == AllMembers(Pick(rows, order)) + multiset{f}
  {
    AllMembersAppend(Pick(rows, order), NewRow(g, f));
    assert Pick(rows[g := NewRow(g, f)], order + [g]) == Pick(rows, order) + [NewRow(g, f)];
  }

  ghost predicate Holds(s: Groups, fs: multiset<Finding>) {
    (forall g | g in s.order :: g in s.rows) && AllMembers(Pick(s.rows, s.order)) == fs
  }

  lemma CollectStep(s: Groups, f: Finding, g: Group, fs: multiset<Finding>)
    requires (forall h :: h in s.order <==> h in s.rows) && Holds(s, fs)
    requires forall i, j | 0 <= i < j < |s.order| :: s.order[i] != s.order[j]
    ensures g in s.rows ==> Holds(Groups(s.rows[g := Absorb(s.rows[g], f)], s.order), fs + multiset{f})
    ensures g !in s.rows ==> Holds(Groups(s.rows[g := NewRow(g, f)], s.order + [g]), fs + multiset{f})
  {
    if g in s.rows {
      PickAbsorbs(s.rows, s.order, g, f);
    } else {
      PickGains(s.rows, s.order, g, f);
    }
  }

  lemma {:induction false} CollectPartitions(fs: seq<Finding>, key: Finding -> Group)
    ensures Holds(Collect(fs, key), multiset(fs))
  {
    if fs == [] {
    } else {
      var n := |fs| - 1;
      var before := fs[..n];
      assert fs == before + [fs[n]];
      CollectPartitions(before, key);
      CollectOrdered(before, key);
      CollectStep(Collect(before, key), fs[n], key(fs[n]), multiset(before));
    }
  }

  /** What the result of grouping promises: one row for each group id that occurs, which lists
      that group's findings in order and summarises them; together the rows hold every finding
      exactly once; and the rows are sorted. */
  ghost predicate Partitioned(fs: seq<Finding>, key: Finding -> Group, grouped: seq<GroupRow>) {
    && SortedBy(grouped, Before)
    && AllMembers(grouped) == multiset(fs)
    && (forall r | r in grouped :: multiset(grouped)[r] == 1 && Faithful(r, Members(fs, key, r.id)))
    && (forall r, r' | r in grouped && r' in grouped :: r.id == r'.id ==> r == r')
    && (forall f | f in fs :: exists r | r in grouped :: r.id == key(f))
  }

  lemma DistinctPick(rows: map<Group, GroupRow>, order: seq<Group>, r: GroupRow)
    requires forall g | g in order :: g in rows && rows[g].id == g
    requires forall i, j | 0 <= i < j < |order| :: order[i] != order[j]
    requires r in Pick(rows, order)
    ensures r.id in rows && r == rows[r.id] && multiset(Pick(rows, order))[r] == 1
  {
    var s := Pick(rows, order);
    var i :| 0 <= i < |s| && s[i] == r;
    assert s == s[..i] + [r] + s[i + 1..];
    forall k | 0 <= k < |s| && s[k] == r ensures k == i {
      assert s[k].id == order[k];
    }
    assert r !in s[..i] && r !in s[i + 1..];
  }

  lemma {:induction false} MembersFound(fs: seq<Finding>, key: Finding -> Group, f: Finding)
    requires f in fs
    ensures Members(fs, key, key(f)) != []
  {
    var n := |fs| - 1;
    if f != fs[n] {
      assert fs == fs[..n] + [fs[n]];
      MembersFound(fs[..n], key, f);
    }
  }

  lemma GroupFound(fs: seq<Finding>, key: Finding -> Group, f: Finding)
    requires f in fs && Ordered(fs, key)
    ensures exists r | r in Pick(Collect(fs, key).rows, Collect(fs, key).order) :: r.id == key(f)
  {
    var s := Collect(fs, key);
    RowsAreFaithful(fs, key, key(f));
    MembersFound(fs, key, f);
    var i :| 0 <= i < |s.order| && s.order[i] == key(f);
    assert Pick(s.rows, s.order)[i].id == key(f);
  }

  lemma GroupIsFaithful(fs: seq<Finding>, key: Finding -> Group, r: GroupRow)
    requires Ordered(fs, key)
    requires r in Pick(Collect(fs, key).rows, Collect(fs, key).order)
    ensures multiset(Pick(Collect(fs, key).rows, Collect(fs, key).order))[r] == 1
    ensures r.id in Collect(fs, key).rows && r == Collect(fs, key).rows[r.id]
    ensures Faithful(r, Members(fs, key, r.id))
  {
    var s := Collect(fs, key);
    forall g | g in s.order ensures s.rows[g].id == g {
      RowsAreFaithful(fs, key, g);
    }
    DistinctPick(s.rows, s.order, r);
    RowsAreFaithful(fs, key, r.id);
  }

  /** Grouping for display partitions the findings. */
  lemma GroupsPartition(fs: seq<Finding>, key: Finding -> Group)
    ensures Ordered(fs, key)
    ensures Partitioned(fs, key, Sort(Pick(Collect(fs, key).rows, Collect(fs, key).order), Before))
  {
    CollectOrdered(fs, key);
    CollectPartitions(fs, key);
    var rows := Pick(Collect(fs, key).rows, Collect(fs, key).order);
    var grouped := Sort(rows, Before);
    BeforeIsTotalPreorder();
    SortSorts(rows, Before);
    AllMembersSorted(rows);
    forall r: GroupRow ensures r in grouped <==> r in rows {
      assert r in multiset(grouped) <==> r in multiset(rows);
    }
    forall r | r in grouped
      ensures multiset(grouped)[r] == 1 && Faithful(r, Members(fs, key, r.id))
      ensures r.id in Collect(fs, key).rows && r == Collect(fs, key).rows[r.id]
    {
      GroupIsFaithful(fs, key, r);
    }
    forall f | f in fs ensures exists r | r in grouped :: r.id == key(f) {
      GroupFound(fs, key, f);
    }
  }

  /** In a sorted list of rows severity never rises, confidence never rises within a severity, and titles
      never fall, whatever their case, within a severity and confidence. */
  lemma MostSevereFirst(rows: seq<GroupRow>, i: nat, j: nat)
    requires SortedBy(rows, Before) && i < j < |rows|
    ensures Rank(rows[i].severity) >= Rank(rows[j].severity)
    ensures rows[i].severity == rows[j].severity ==> rows[i].confidence >= rows[j].confidence
    ensures rows[i].severity == rows[j].severity && rows[i].confidence == rows[j].confidence ==>
              LexLe(Lower(rows[i].title), Lower(rows[j].title))
  {
    assert Before(rows[i], rows[j]);
  }
}
