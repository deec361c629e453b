/** Correlating raw findings by group (`finding_intelligence.py`).  The group id is an arbitrary
    function of a finding. */
module Correlation {
  import opened Notes
  import opened Text

  type Group = string

  // ------------------------------------------------------------------- severities

  datatype Severity = Info | Low | Medium | High | Critical

  const SEVERITIES: map<string, Severity> :=
    map["critical" := Critical, "high" := High, "medium" := Medium, "moderate" := Medium, "low" := Low,
        "info" := Info, "informational" := Info, "note" := Info]

  function NormalizeSeverity(value: string): Severity {
    var severity := Lower(value);
    if severity in SEVERITIES then SEVERITIES[severity] else Info
  }

  function Rank(s: Severity): nat {
    match s case Info => 1 case Low => 2 case Medium => 3 case High => 4 case Critical => 5
  }

  // --------------------------------------------------------------------- evidence

  datatype EvidenceKey = EvidenceKey(kind: string, caption: string, value: string, artifact: string, source: string)

  datatype Evidence = Evidence(key: EvidenceKey, observedAt: string, confidence: real)

  function Keys(items: seq<Evidence>): set<EvidenceKey> { set e | e in items :: e.key }

  /** The items whose key did not occur before them. */
  function Deduped(items: seq<Evidence>): seq<Evidence> {
    if items == [] then []
    else
      var n := |items| - 1;
      if items[n].key in Keys(items[..n]) then Deduped(items[..n]) else Deduped(items[..n]) + [items[n]]
  }

  lemma DedupedSnoc(items: seq<Evidence>, e: Evidence)
    ensures Deduped(items + [e]) == if e.key in Keys(items) then Deduped(items) else Deduped(items) + [e]
    ensures Keys(items + [e]) == Keys(items) + {e.key}
  {
    assert (items + [e])[..|items|] == items;
    assert forall x :: x in items + [e] <==> x in items || x == e;
  }

  method DedupeEvidence(items: seq<Evidence>) returns (unique: seq<Evidence>)
    ensures unique == Deduped(items)
  {
    unique := [];
    var seen: set<EvidenceKey> := {};
    var i := 0;
    while i < |items|
      invariant i <= |items| && unique == Deduped(items[..i]) && seen == Keys(items[..i])
    {
      assert items[..i + 1] == items[..i] + [items[i]];
      DedupedSnoc(items[..i], items[i]);
      if items[i].key !in seen {
        seen := seen + {items[i].key};
        unique := unique + [items[i]];
      }
      i := i + 1;
    }
    assert items[..i] == items;
  }

  lemma {:induction false} DedupedKeys(items: seq<Evidence>)
    ensures Keys(Deduped(items)) == Keys(items)
  {
    if items == [] {
    } else {
      var n := |items| - 1;
      DedupedKeys(items[..n]);
      assert items == items[..n] + [items[n]];
      assert Keys(items) == Keys(items[..n]) + {items[n].key};
      assert Keys(Deduped(items[..n]) + [items[n]]) == Keys(Deduped(items[..n])) + {items[n].key};
    }
  }

  lemma KeysAppend(a: seq<Evidence>, b: seq<Evidence>)
    ensures Keys(a + b) == Keys(a) + Keys(b)
  {
  }

  /** De-duplicating piece by piece gives what de-duplicating the whole at once gives. */
  lemma {:induction false} IncrementalDedupe(a: seq<Evidence>, b: seq<Evidence>)
    ensures Deduped(Deduped(a) + Deduped(b)) == Deduped(a + b)
  {
    DedupedIdempotent(a);
    DedupeLeft(a, b);
    DedupeRight(a, b);
    DedupeLeft(a, Deduped(b));
  }

  lemma {:induction false} DedupedIdempotent(a: seq<Evidence>)
    ensures Deduped(Deduped(a)) == Deduped(a)
  {
    if a == [] {
    } else {
      var n := |a| - 1;
      DedupedIdempotent(a[..n]);
      DedupedKeys(a[..n]);
      DedupedSnoc(Deduped(a[..n]), a[n]);
    }
  }

  lemma DedupeStep(xs: seq<Evidence>, ys: seq<Evidence>, e: Evidence)
    requires Deduped(xs) == Deduped(ys) && Keys(xs) == Keys(ys)
    ensures Deduped(xs + [e]) == Deduped(ys + [e])
  {
    DedupedSnoc(xs, e);
    DedupedSnoc(ys, e);
  }

  lemma AppendLast(a: seq<Evidence>, b: seq<Evidence>)
    requires b != []
    ensures a + b == (a + b[..|b| - 1]) + [b[|b| - 1]]
  {}

  lemma {:induction false} DedupeLeft(a: seq<Evidence>, b: seq<Evidence>)
    ensures Deduped(Deduped(a) + b) == Deduped(a + b)
  {
    if b == [] {
      DedupedIdempotent(a);
      assert a + b == a && Deduped(a) + b == Deduped(a);
    } else {
      var c, e := b[..|b| - 1], b[|b| - 1];
      DedupeLeft(a, c);
      DedupedKeys(a);
      KeysAppend(a, c);
      KeysAppend(Deduped(a), c);
      DedupeStep(Deduped(a) + c, a + c, e);
      AppendLast(a, b);
      AppendLast(Deduped(a), b);
    }
  }

  lemma {:induction false} DedupeRight(a: seq<Evidence>, b: seq<Evidence>)
    ensures Deduped(a + Deduped(b)) == Deduped(a + b)
  {
    if b == [] {
    } else {
      var c, e := b[..|b| - 1], b[|b| - 1];
      DedupeRight(a, c);
      AppendLast(a, b);
      DedupeRightStep(a, c, e);
      assert b == c + [e];
    }
  }

  lemma DedupeRightStep(a: seq<Evidence>, c: seq<Evidence>, e: Evidence)
    requires Deduped(a + Deduped(c)) == Deduped(a + c)
    ensures Deduped(a + Deduped(c + [e])) == Deduped(a + c + [e])
  {
    DedupedSnoc(c, e);
    if e.key in Keys(c) {
      KeysAppend(a, c);
      DedupedSnoc(a + c, e);
    } else {
      SameKeysRight(a, c);
      DedupeStep(a + Deduped(c), a + c, e);
      AppendLast(a, Deduped(c) + [e]);
      assert (Deduped(c) + [e])[..|Deduped(c)|] == Deduped(c);
    }
  }

  lemma SameKeysRight(a: seq<Evidence>, c: seq<Evidence>)
    ensures Keys(a + Deduped(c)) == Keys(a + c)
  {
    DedupedKeys(c);
    KeysAppend(a, c);
    KeysAppend(a, Deduped(c));
  }

  // ---------------------------------------------------------------------- sources

  /** `_sort_sources` as a set: trimmed, and without blanks. */
  function Cleaned(sources: set<string>): set<string> {
    set x | x in sources && Strip(x) != "" :: Strip(x)
  }

  lemma CleanedUnion(a: set<string>, b: set<string>)
    ensures Cleaned(a + b) == Cleaned(a) + Cleaned(b)
  {
  }

  lemma CleanedTwice(a: set<string>)
    ensures Cleaned(Cleaned(a)) == Cleaned(a)
  {
    forall x | x in a ensures Strip(Strip(x)) == Strip(x) {
      StripTrims(x);
    }
    forall y | y in Cleaned(a) ensures y in Cleaned(Cleaned(a)) {
      var x :| x in a && Strip(x) != "" && y == Strip(x);
      assert Strip(y) == y;
    }
  }

  function SourcesIn(items: seq<Evidence>): set<string> { set e | e in items :: e.key.source }

  lemma SourcesOfKeys(a: seq<Evidence>, b: seq<Evidence>)
    requires Keys(a) == Keys(b)
    ensures SourcesIn(a) == SourcesIn(b)
  {
    forall x | x in SourcesIn(a) ensures x in SourcesIn(b) {
      var e :| e in a && e.key.source == x;
      assert e.key in Keys(b);
    }
    forall x | x in SourcesIn(b) ensures x in SourcesIn(a) {
      var e :| e in b && e.key.source == x;
      assert e.key in Keys(a);
    }
  }

  // ------------------------------------------------------------------ the staging fold

  datatype Raw = Raw(severity: string, validated: bool, baseSource: string, evidence: seq<Evidence>,
                     discovered: string, asset: string, note: Note)

  datatype Staged = Staged(severity: Severity, validated: bool, sources: set<string>,
                           evidence: seq<Evidence>, count: nat, discovered: string, note: Note)

  /** What the loop prepares of a raw finding before it looks the group up. */
  datatype Prepared = Prepared(severity: Severity, validated: bool, sources: set<string>,
                               evidence: seq<Evidence>, discovered: string, asset: string, note: Note)

  function Prepare(f: Raw): Prepared {
    var evidence := Deduped(f.evidence);
    Prepared(NormalizeSeverity(f.severity), f.validated, Cleaned({f.baseSource} + SourcesIn(evidence)), evidence,
             f.discovered, f.asset, f.note)
  }

  function First(p: Prepared): Staged {
    Staged(p.severity, p.validated, p.sources, p.evidence, 1, p.discovered, FirstNote(p.note, p.asset))
  }

  function Merged(s: Staged, p: Prepared): Staged {
    Staged(if Rank(p.severity) > Rank(s.severity) then p.severity else s.severity,
           s.validated || p.validated,
           Cleaned(s.sources + p.sources),
           Deduped(s.evidence + p.evidence),
           s.count + 1, s.discovered, MergeNote(s.note, p.note))
  }

  type Staging = map<Group, Staged>

  function StageOne(m: Staging, g: Group, p: Prepared): Staging {
    m[g := if g in m then Merged(m[g], p) else First(p)]
  }

  function Stage(fs: seq<Raw>, key: Raw -> Group): Staging {
    if fs == [] then map[]
    else
      var n := |fs| - 1;
      StageOne(Stage(fs[..n], key), key(fs[n]), Prepare(fs[n]))
  }

  method StageFindings(fs: seq<Raw>, key: Raw -> Group) returns (staged: Staging)
    ensures staged == Stage(fs, key)
  {
    staged := map[];
    var i := 0;
    while i < |fs|
      invariant i <= |fs| && staged == Stage(fs[..i], key)
    {
      assert fs[..i + 1][..i] == fs[..i];
      var g, p := key(fs[i]), Prepare(fs[i]);
      if g !in staged {
        staged := staged[g := First(p)];
      } else {
        staged := staged[g := Merged(staged[g], p)];
      }
      i := i + 1;
    }
    assert fs[..i] == fs;
  }

  // ---------------------------------------- what an item says about its raw findings

  datatype Summary = Summary(count: nat, rank: nat, validated: bool, sources: set<string>)

  const NOTHING := Summary(0, 0, false, {})

  function Combine(a: Summary, b: Summary): Summary {
    Summary(a.count + b.count, if a.rank >= b.rank then a.rank else b.rank,
            a.validated || b.validated, a.sources + b.sources)
  }

  function Alone(f: Raw): Summary {
    Summary(1, Rank(NormalizeSeverity(f.severity)), f.validated,
            Cleaned({f.baseSource} + SourcesIn(f.evidence)))
  }

  /** Count, highest severity, disjunction and union over the findings of a group. */
  function Summarize(fs: seq<Raw>, key: Raw -> Group, g: Group): Summary {
    if fs == [] then NOTHING
    else
      var n := |fs| - 1;
      var s := Summarize(fs[..n], key, g);
      if key(fs[n]) == g then Combine(s, Alone(fs[n])) else s
  }

  function Gathered(fs: seq<Raw>, key: Raw -> Group, g: Group): seq<Evidence> {
    if fs == [] then []
    else
      var n := |fs| - 1;
      Gathered(fs[..n], key, g) + if key(fs[n]) == g then fs[n].evidence else []
  }

  function SummaryOf(s: Staged): Summary { Summary(s.count, Rank(s.severity), s.validated, s.sources) }

  /** A staged item holds a summary and the de-duplicated evidence. */
  ghost predicate Entry(s: Staged, sum: Summary, gathered: seq<Evidence>) {
    SummaryOf(s) == sum && Cleaned(s.sources) == s.sources && s.evidence == Deduped(gathered)
  }

  ghost predicate Describes(m: Staging, fs: seq<Raw>, key: Raw -> Group, g: Group) {
    && (g in m <==> exists f | f in fs :: key(f) == g)
    && (g in m ==> Entry(m[g], Summarize(fs, key, g), Gathered(fs, key, g)))
    && (g !in m ==> Summarize(fs, key, g) == NOTHING && Gathered(fs, key, g) == [])
  }

  lemma PreparedDescribes(f: Raw)
    ensures var p := Prepare(f);
            && Alone(f) == Summary(1, Rank(p.severity), p.validated, p.sources)
            && Cleaned(p.sources) == p.sources && p.evidence == Deduped(f.evidence)
  {
    DedupedKeys(f.evidence);
    SourcesOfKeys(Deduped(f.evidence), f.evidence);
    CleanedTwice({f.baseSource} + SourcesIn(f.evidence));
  }

  lemma MergedDescribes(s: Staged, p: Prepared, gathered: seq<Evidence>, evidence: seq<Evidence>)
    requires Cleaned(s.sources) == s.sources && s.evidence == Deduped(gathered)
    requires Cleaned(p.sources) == p.sources && p.evidence == Deduped(evidence)
    ensures SummaryOf(Merged(s, p))
         == Combine(SummaryOf(s), Summary(1, Rank(p.severity), p.validated, p.sources))
    ensures Cleaned(Merged(s, p).sources) == Merged(s, p).sources
    ensures Merged(s, p).evidence == Deduped(gathered + evidence)
  {
    MergedSources(s.sources, p.sources);
    MergedEvidence(s.evidence, p.evidence, gathered, evidence);
    MergedSummary(s, p);
  }

  lemma MergedSummary(s: Staged, p: Prepared)
    requires Cleaned(s.sources + p.sources) == s.sources + p.sources
    ensures SummaryOf(Merged(s, p))
         == Combine(SummaryOf(s), Summary(1, Rank(p.severity), p.validated, p.sources))
  {
    MergedRank(s.severity, p.severity);
  }

  lemma MergedSources(a: set<string>, b: set<string>)
    requires Cleaned(a) == a && Cleaned(b) == b
    ensures Cleaned(a + b) == a + b
  {
    CleanedUnion(a, b);
  }

  lemma MergedEvidence(a: seq<Evidence>, b: seq<Evidence>, gathered: seq<Evidence>, more: seq<Evidence>)
    requires a == Deduped(gathered) && b == Deduped(more)
    ensures Deduped(a + b) == Deduped(gathered + more)
  {
    IncrementalDedupe(gathered, more);
  }

  lemma MergedRank(a: Severity, b: Severity)
    ensures Rank(if Rank(b) > Rank(a) then b else a) == if Rank(a) >= Rank(b) then Rank(a) else Rank(b)
  {}

  lemma SummarizeSnoc(a: seq<Raw>, x: Raw, key: Raw -> Group, g: Group)
    ensures Summarize(a + [x], key, g)
         == if key(x) == g then Combine(Summarize(a, key, g), Alone(x)) else Summarize(a, key, g)
    ensures key(x) == g ==> Gathered(a + [x], key, g) == Gathered(a, key, g) + x.evidence
    ensures key(x) != g ==> Gathered(a + [x], key, g) == Gathered(a, key, g)
  {
    assert (a + [x])[..|a|] == a;
  }

  /** A finding of the group itself. */
  lemma StageOwn(m: Staging, fs: seq<Raw>, f: Raw, key: Raw -> Group)
    requires Describes(m, fs, key, key(f))
    ensures Describes(StageOne(m, key(f), Prepare(f)), fs + [f], key, key(f))
  {
    var g := key(f);
    SummarizeSnoc(fs, f, key, g);
    assert f in fs + [f];
    if g in m {
      MergedEntry(m[g], f, Summarize(fs, key, g), Gathered(fs, key, g));
    } else {
      FirstEntry(f);
    }
  }

  lemma MergedEntry(s: Staged, f: Raw, sum: Summary, gathered: seq<Evidence>)
    requires Entry(s, sum, gathered)
    ensures Entry(Merged(s, Prepare(f)), Combine(sum, Alone(f)), gathered + f.evidence)
  {
    PreparedDescribes(f);
    MergedDescribes(s, Prepare(f), gathered, f.evidence);
  }

  lemma FirstEntry(f: Raw)
    ensures Entry(First(Prepare(f)), Combine(NOTHING, Alone(f)), [] + f.evidence)
  {
    PreparedDescribes(f);
    assert [] + f.evidence == f.evidence;
  }

  /** A finding of another group. */
  lemma StageOther(m: Staging, fs: seq<Raw>, f: Raw, key: Raw -> Group, g: Group)
    requires Describes(m, fs, key, g) && key(f) != g
    ensures Describes(StageOne(m, key(f), Prepare(f)), fs + [f], key, g)
  {
    SummarizeSnoc(fs, f, key, g);
    assert forall x :: x in fs + [f] <==> x in fs || x == f;
  }

  lemma StageStep(m: Staging, fs: seq<Raw>, f: Raw, key: Raw -> Group, g: Group)
    requires Describes(m, fs, key, g)
    ensures Describes(StageOne(m, key(f), Prepare(f)), fs + [f], key, g)
  {
    if key(f) == g {
      StageOwn(m, fs, f, key);
    } else {
      StageOther(m, fs, f, key, g);
    }
  }

  /** Staging yields one item for each group that occurs, with the group's number of findings,
      highest severity, disjunction of validations, union of sources and the de-duplicated
      concatenation of its evidence. */
  lemma {:induction false} StagingDescribes(fs: seq<Raw>, key: Raw -> Group, g: Group)
    ensures Describes(Stage(fs, key), fs, key, g)
  {
    if fs == [] {
    } else {
      var n := |fs| - 1;
      var before := fs[..n];
      assert fs == before + [fs[n]];
      StagingDescribes(before, key, g);
      StageStep(Stage(before, key), before, fs[n], key, g);
    }
  }

  /** The findings of a group, in order. */
  function Of(fs: seq<Raw>, key: Raw -> Group, g: Group): seq<Raw> {
    if fs == [] then []
    else
      var n := |fs| - 1;
      Of(fs[..n], key, g) + if key(fs[n]) == g then [fs[n]] else []
  }

  function NotesOf(fs: seq<Raw>): seq<Note> { seq(|fs|, i requires 0 <= i < |fs| => fs[i].note) }

  /** An item, if there is one, says what the findings of its group say together. */
  ghost predicate Noted(m: Staging, fs: seq<Raw>, g: Group) {
    && (g in m <==> fs != [])
    && (fs != [] ==> Says(m[g].note, NotesOf(fs), fs[0].asset))
  }

  lemma NotesSnoc(fs: seq<Raw>, f: Raw)
    ensures NotesOf(fs + [f]) == NotesOf(fs) + [f.note]
  {}

  lemma NotedStep(m: Staging, fs: seq<Raw>, f: Raw, g: Group)
    requires Noted(m, fs, g)
    ensures Noted(StageOne(m, g, Prepare(f)), fs + [f], g)
  {
    NotesSnoc(fs, f);
    if fs == [] {
      FirstNoted(f);
      assert fs + [f] == [f];
    } else {
      MergedNoted(m[g], fs, f);
      assert (fs + [f])[0] == fs[0];
    }
  }

  lemma FirstNoted(f: Raw)
    ensures Says(First(Prepare(f)).note, NotesOf([f]), f.asset)
  {
    assert NotesOf([f]) == [f.note];
    FirstSays(f.note, f.asset);
  }

  lemma MergedNoted(s: Staged, fs: seq<Raw>, f: Raw)
    requires fs != [] && Says(s.note, NotesOf(fs), fs[0].asset)
    ensures Says(Merged(s, Prepare(f)).note, NotesOf(fs) + [f.note], fs[0].asset)
  {
    MergeSays(s.note, NotesOf(fs), f.note, fs[0].asset);
  }

  lemma NotedOther(m: Staging, fs: seq<Raw>, f: Raw, h: Group, g: Group)
    requires Noted(m, fs, g) && h != g
    ensures Noted(StageOne(m, h, Prepare(f)), fs, g)
  {}

  lemma NotedNext(m: Staging, fs: seq<Raw>, f: Raw, key: Raw -> Group, g: Group)
    requires Noted(m, fs, g)
    ensures Noted(StageOne(m, key(f), Prepare(f)), fs + if key(f) == g then [f] else [], g)
  {
    if key(f) == g {
      NotedStep(m, fs, f, g);
    } else {
      NotedOther(m, fs, f, key(f), g);
      assert fs + [] == fs;
    }
  }

  /** The texts, references and metadata of an item come from its group's findings: the title of the first,
      the first good text of each kind, all references in order, all named assets, and the latest values. */
  lemma {:induction false} StagingCollectsNotes(fs: seq<Raw>, key: Raw -> Group, g: Group)
    ensures Noted(Stage(fs, key), Of(fs, key, g), g)
  {
    if fs == [] {
    } else {
      var before, f := fs[..|fs| - 1], fs[|fs| - 1];
      StagingCollectsNotes(before, key, g);
      NotedNext(Stage(before, key), Of(before, key, g), f, key, g);
    }
  }

  function SumCounts(m: Staging, groups: seq<Group>): nat
    requires forall g | g in groups :: g in m
  {
    if groups == [] then 0 else m[groups[0]].count + SumCounts(m, groups[1..])
  }

  ghost predicate Distinct(groups: seq<Group>) {
    forall i, j | 0 <= i < j < |groups| :: groups[i] != groups[j]
  }

  lemma {:induction false} SumAfterUpdate(m: Staging, g: Group, s: Staged, groups: seq<Group>)
    requires (forall x | x in groups :: x in m) && Distinct(groups) && g in m
    ensures SumCounts(m[g := s], groups) == SumCounts(m, groups) + if g in groups then s.count - m[g].count else 0
  {
    if groups == [] {
    } else {
      SumAfterUpdate(m, g, s, groups[1..]);
    }
  }

  lemma {:induction false} SumIgnoresOthers(m: Staging, g: Group, s: Staged, groups: seq<Group>)
    requires (forall x | x in groups :: x in m) && g !in groups
    ensures SumCounts(m[g := s], groups) == SumCounts(m, groups)
  {
    if groups == [] {
    } else {
      SumIgnoresOthers(m, g, s, groups[1..]);
    }
  }

  lemma {:induction false} SumRemove(m: Staging, groups: seq<Group>, i: nat)
    requires (forall x | x in groups :: x in m) && i < |groups|
    ensures forall x | x in groups[..i] + groups[i + 1..] :: x in m
    ensures SumCounts(m, groups) == SumCounts(m, groups[..i] + groups[i + 1..]) + m[groups[i]].count
  {
    var rest := groups[..i] + groups[i + 1..];
    assert forall x | x in rest :: x in groups;
    if i > 0 {
      SumRemove(m, groups[1..], i - 1);
      assert rest[1..] == groups[1..][..i - 1] + groups[1..][i..];
    } else {
      assert rest == groups[1..];
    }
  }

  function Elements(groups: seq<Group>): set<Group> { set g | g in groups }

  lemma SumOfUpdated(m: Staging, g: Group, p: Prepared, groups: seq<Group>)
    requires g in m && Distinct(groups) && Elements(groups) == m.Keys
    ensures StageOne(m, g, p).Keys == m.Keys
    ensures SumCounts(StageOne(m, g, p), groups) == SumCounts(m, groups) + 1
  {
    assert forall x | x in groups :: x in Elements(groups);
    assert g in Elements(groups);
    SumAfterUpdate(m, g, Merged(m[g], p), groups);
  }

  lemma SumOfAdded(m: Staging, g: Group, p: Prepared, groups: seq<Group>) returns (rest: seq<Group>)
    requires g !in m && Distinct(groups) && Elements(groups) == StageOne(m, g, p).Keys
    ensures Distinct(rest) && Elements(rest) == m.Keys
    ensures SumCounts(StageOne(m, g, p), groups) == SumCounts(m, rest) + 1
  {
    var m' := StageOne(m, g, p);
    assert g in m'.Keys;
    assert forall x | x in groups :: x in Elements(groups);
    var i :| 0 <= i < |groups| && groups[i] == g;
    rest := groups[..i] + groups[i + 1..];
    DistinctRest(groups, i);
    assert m'.Keys == m.Keys + {g};
    SumRemove(m', groups, i);
    SumIgnoresOthers(m, g, First(p), rest);
  }

  lemma DistinctRest(groups: seq<Group>, i: nat)
    requires i < |groups| && Distinct(groups)
    ensures var rest := groups[..i] + groups[i + 1..];
            Distinct(rest) && Elements(rest) == Elements(groups) - {groups[i]} && groups[i] !in rest
  {
    var rest := groups[..i] + groups[i + 1..];
    assert forall x :: x in groups <==> x in rest || x == groups[i];
  }

  lemma NoElements(groups: seq<Group>)
    requires Elements(groups) == {}
    ensures groups == []
  {
    forall g ensures multiset(groups)[g] == 0 {
      assert g in groups ==> g in Elements(groups);
      assert g in groups <==> g in multiset(groups);
    }
    assert multiset(groups) == multiset{};
  }

  /** The local counts of all items add up to the number of raw findings. */
  lemma {:induction false} CountsAddUp(fs: seq<Raw>, key: Raw -> Group, groups: seq<Group>)
    requires Distinct(groups) && Elements(groups) == Stage(fs, key).Keys
    ensures forall g | g in groups :: g in Stage(fs, key)
    ensures SumCounts(Stage(fs, key), groups) == |fs|
  {
    assert forall x | x in groups :: x in Elements(groups);
    if fs == [] {
      NoElements(groups);
    } else {
      var n := |fs| - 1;
      var m, f := Stage(fs[..n], key), fs[n];
      if key(f) in m {
        SumOfUpdated(m, key(f), Prepare(f), groups);
        CountsAddUp(fs[..n], key, groups);
      } else {
        var rest := SumOfAdded(m, key(f), Prepare(f), groups);
        CountsAddUp(fs[..n], key, rest);
      }
    }
  }

  // -------------------------------------------------- the order of findings is irrelevant

  lemma {:induction false} SummarizeInsert(a: seq<Raw>, x: Raw, b: seq<Raw>, key: Raw -> Group, g: Group)
    ensures Summarize(a + [x] + b, key, g) == Summarize(a + b + [x], key, g)
    decreases |b|
  {
    if b == [] {
      assert a + [x] + b == a + b + [x];
    } else {
      var y, c := b[|b| - 1], b[..|b| - 1];
      SummarizeInsert(a, x, c, key, g);
      assert a + [x] + b == (a + [x] + c) + [y] && a + b == (a + c) + [y];
      SummarizeSwap(a + [x] + c, a + c, x, y, key, g);
    }
  }

  lemma CombineCommutes(a: Summary, b: Summary, c: Summary)
    ensures Combine(Combine(a, b), c) == Combine(Combine(a, c), b)
  {}

  lemma SummarizeTwo(v: seq<Raw>, x: Raw, y: Raw, key: Raw -> Group, g: Group)
    ensures Summarize(v + [x] + [y], key, g) == Summarize(v + [y] + [x], key, g)
  {
    SummarizeSnoc(v, x, key, g);
    SummarizeSnoc(v, y, key, g);
    SummarizeSnoc(v + [x], y, key, g);
    SummarizeSnoc(v + [y], x, key, g);
    CombineCommutes(Summarize(v, key, g), Alone(x), Alone(y));
  }

  lemma SummarizeSwap(u: seq<Raw>, v: seq<Raw>, x: Raw, y: Raw, key: Raw -> Group, g: Group)
    requires Summarize(u, key, g) == Summarize(v + [x], key, g)
    ensures Summarize(u + [y], key, g) == Summarize(v + [y] + [x], key, g)
  {
    SummarizeSnoc(u, y, key, g);
    SummarizeSnoc(v + [x], y, key, g);
    SummarizeTwo(v, x, y, key, g);
  }

  lemma TakeOut(b: seq<Raw>, x: Raw) returns (before: seq<Raw>, after: seq<Raw>)
    requires x in multiset(b)
    ensures b == before + [x] + after && multiset(before + after) == multiset(b) - multiset{x}
  {
    var i :| 0 <= i < |b| && b[i] == x;
    before, after := b[..i], b[i + 1..];
    assert b == before + [x] + after;
    assert multiset(b) == multiset(before + after) + multiset{x};
  }

  lemma {:induction false} SummariesAgree(a: seq<Raw>, b: seq<Raw>, key: Raw -> Group, g: Group)
    requires multiset(a) == multiset(b)
    ensures Summarize(a, key, g) == Summarize(b, key, g)
    decreases |a|
  {
    if a == [] {
      assert |multiset(b)| == 0;
      assert b == [];
    } else {
      var x, a' := a[|a| - 1], a[..|a| - 1];
      assert a == a' + [x];
      assert x in multiset(b);
      var before, after := TakeOut(b, x);
      assert multiset(a) == multiset(a') + multiset{x};
      assert multiset(a') == multiset(a) - multiset{x};
      SummariesAgree(a', before + after, key, g);
      SummarizeInsert(before, x, after, key, g);
      SummarizeSnoc(a', x, key, g);
      SummarizeSnoc(before + after, x, key, g);
    }
  }

  /** Count, severity, validation and sources of a group depend only on which findings there
      are, not on their order. */
  lemma OrderIsIrrelevant(a: seq<Raw>, b: seq<Raw>, key: Raw -> Group, g: Group)
    requires multiset(a) == multiset(b)
    ensures g in Stage(a, key) <==> g in Stage(b, key)
    ensures g in Stage(a, key) ==> SummaryOf(Stage(a, key)[g]) == SummaryOf(Stage(b, key)[g])
  {
    SummariesAgree(a, b, key, g);
    StagingDescribes(a, key, g);
    StagingDescribes(b, key, g);
    forall f ensures f in a <==> f in b {
      assert f in a <==> f in multiset(a);
      assert f in b <==> f in multiset(b);
    }
  }

  // ------------------------------------------------------- items and severities, spelled out

  /** Severities by their words in any case, any other word counting as informational, in strictly rising
      order. */
  lemma SeverityWords(value: string)
    ensures var word, s := Lower(value), NormalizeSeverity(value);
            && (s == Critical <==> word == "critical") && (s == High <==> word == "high")
            && (s == Medium <==> word == "medium" || word == "moderate") && (s == Low <==> word == "low")
            && (s == Info <==> word !in {"critical", "high", "medium", "moderate", "low"})
    ensures Rank(Info) < Rank(Low) < Rank(Medium) < Rank(High) < Rank(Critical)
  {}

  predicate IsNew(items: seq<Evidence>, n: nat)
    requires n < |items|
  {
    items[n].key !in Keys(items[..n])
  }

  /** The places at which a key occurs first. */
  ghost predicate FirstPlaces(places: seq<nat>, items: seq<Evidence>) {
    && (forall i, j | 0 <= i < j < |places| :: places[i] < places[j])
    && (forall i | 0 <= i < |places| :: places[i] < |items| && IsNew(items, places[i]))
    && (forall n: nat | n < |items| && IsNew(items, n) :: n in places)
  }

  ghost predicate PicksItems(places: seq<nat>, items: seq<Evidence>, kept: seq<Evidence>) {
    |kept| == |places| && forall i | 0 <= i < |places| :: places[i] < |items| && kept[i] == items[places[i]]
  }

  /** De-duplication keeps exactly the first item of each key, in order. */
  lemma {:induction false} DedupedAreFirst(items: seq<Evidence>) returns (places: seq<nat>)
    ensures FirstPlaces(places, items) && PicksItems(places, items, Deduped(items))
  {
    if items == [] {
      places := [];
    } else {
      var before, e := items[..|items| - 1], items[|items| - 1];
      assert items == before + [e];
      var earlier := DedupedAreFirst(before);
      DedupedSnoc(before, e);
      FirstPlacesGrow(before, e, earlier);
      places := if e.key in Keys(before) then earlier else earlier + [|before|];
      PicksGrow(before, e, earlier, Deduped(before));
    }
  }

  lemma PicksGrow(items: seq<Evidence>, e: Evidence, earlier: seq<nat>, kept: seq<Evidence>)
    requires PicksItems(earlier, items, kept)
    ensures PicksItems(earlier, items + [e], kept)
    ensures PicksItems(earlier + [|items|], items + [e], kept + [e])
  {}

  lemma NewAsBefore(items: seq<Evidence>, e: Evidence, n: nat)
    requires n <= |items|
    ensures IsNew(items + [e], n) <==> if n == |items| then e.key !in Keys(items) else IsNew(items, n)
  {
    assert (items + [e])[..n] == items[..n];
    assert items[..|items|] == items;
  }

  lemma FirstPlacesGrow(items: seq<Evidence>, e: Evidence, earlier: seq<nat>)
    requires FirstPlaces(earlier, items)
    ensures e.key in Keys(items) ==> FirstPlaces(earlier, items + [e])
    ensures e.key !in Keys(items) ==> FirstPlaces(earlier + [|items|], items + [e])
  {
    forall n: nat | n <= |items|
      ensures IsNew(items + [e], n) <==> if n == |items| then e.key !in Keys(items) else IsNew(items, n)
    {
      NewAsBefore(items, e, n);
    }
    var more := earlier + [|items|];
    assert more[|earlier|] == |items| && forall n | n in earlier :: n in more;
  }

  /** An item counts its group's findings, has their highest severity, is validated if one of them is, and has
      as sources the base sources and evidence sources of all of them, trimmed and without blanks. */
  ghost predicate Counts(s: Summary, fs: seq<Raw>) {
    && s.count == |fs|
    && (forall f | f in fs :: Rank(NormalizeSeverity(f.severity)) <= s.rank)
    && (if fs == [] then s.rank == 0 else exists f | f in fs :: Rank(NormalizeSeverity(f.severity)) == s.rank)
    && (s.validated <==> exists f | f in fs :: f.validated)
    && (forall x :: x in s.sources <==> exists f | f in fs :: Names(f, x))
  }

  ghost predicate Names(f: Raw, x: string) {
    x != "" && (Strip(f.baseSource) == x || exists e | e in f.evidence :: Strip(e.key.source) == x)
  }

  lemma AloneCounts(f: Raw)
    ensures Counts(Alone(f), [f])
  {
    assert f in [f];
    forall x ensures x in Alone(f).sources <==> Names(f, x) {
      SourcesAre(f, x);
    }
  }

  lemma SourcesAre(f: Raw, x: string)
    ensures x in Cleaned({f.baseSource} + SourcesIn(f.evidence)) <==> Names(f, x)
  {
    var all := {f.baseSource} + SourcesIn(f.evidence);
    if e :| e in f.evidence && Strip(e.key.source) == x {
      assert e.key.source in all;
    }
    assert f.baseSource in all;
  }

  lemma CombinedCounts(s: Summary, fs: seq<Raw>, f: Raw)
    requires Counts(s, fs) && Counts(Alone(f), [f])
    ensures Counts(Combine(s, Alone(f)), fs + [f])
  {
    var all := fs + [f];
    assert forall x :: x in all <==> x in fs || x == f;
    assert f in [f] && f in all;
    if fs != [] {
      var g :| g in fs && Rank(NormalizeSeverity(g.severity)) == s.rank;
      assert g in all;
    }
  }

  lemma {:induction false} SummaryCounts(fs: seq<Raw>, key: Raw -> Group, g: Group)
    ensures Counts(Summarize(fs, key, g), Of(fs, key, g))
  {
    if fs == [] {
    } else {
      var before, f := fs[..|fs| - 1], fs[|fs| - 1];
      SummaryCounts(before, key, g);
      if key(f) == g {
        AloneCounts(f);
        CombinedCounts(Summarize(before, key, g), Of(before, key, g), f);
      } else {
        assert Of(before, key, g) + [] == Of(before, key, g);
      }
    }
  }

  /** The same of staging. */
  lemma StagedItemCounts(fs: seq<Raw>, key: Raw -> Group, g: Group)
    requires g in Stage(fs, key)
    ensures Counts(SummaryOf(Stage(fs, key)[g]), Of(fs, key, g))
  {
    StagingDescribes(fs, key, g);
    SummaryCounts(fs, key, g);
  }
}
