/** What a staged item says in words: the texts, references and metadata that merging collects
    (`finding_intelligence.py`).  An empty text stands for a missing value. */
module Notes {
  import opened Text

  datatype Note = Note(title: string, cvss: string, cve: string, cpe: string, service: string,
                       description: string, remediation: string, proof: string, validation: string, reason: string,
                       references: seq<string>, assetRefs: set<string>, metadata: map<string, string>)

  predicate Present(s: string) { s != "" }

  predicate Readable(s: string) { Strip(s) != "" }

  function Or(a: string, b: string): string { if Present(a) then a else b }

  function MergeText(a: string, b: string): string { if Readable(a) then a else b }

  function Named(refs: set<string>): set<string> { set r | r in refs && Readable(r) }

  function Filled(m: map<string, string>): map<string, string> { map k | k in m && Present(m[k]) :: m[k] }

  /** The note of a group's first finding, whose own asset joins its references. */
  function FirstNote(n: Note, asset: string): Note { n.(assetRefs := {asset} + Named(n.assetRefs)) }

  function MergeNote(a: Note, b: Note): Note {
    Note(a.title, Or(a.cvss, b.cvss), Or(a.cve, b.cve), Or(a.cpe, b.cpe), Or(a.service, b.service),
         MergeText(a.description, b.description), MergeText(a.remediation, b.remediation),
         MergeText(a.proof, b.proof), MergeText(a.validation, b.validation), MergeText(a.reason, b.reason),
         a.references + b.references, a.assetRefs + Named(b.assetRefs), a.metadata + Filled(b.metadata))
  }

  // ------------------------------------------------------- what a merged note should say

  /** The first value that is good, or the last one if none is. */
  ghost predicate Chosen(v: string, ns: seq<Note>, field: Note -> string, good: string -> bool)
    requires ns != []
  {
    if exists i :: 0 <= i < |ns| && good(field(ns[i])) then
      exists i :: 0 <= i < |ns| && v == field(ns[i]) && good(v) && forall j | 0 <= j < i :: !good(field(ns[j]))
    else
      v == field(ns[|ns| - 1])
  }

  function AllReferences(ns: seq<Note>): seq<string> {
    if ns == [] then [] else ns[0].references + AllReferences(ns[1..])
  }

  /** The latest value that is not empty, or else what the first note has. */
  ghost predicate LatestValue(m: map<string, string>, ns: seq<Note>, k: string)
    requires ns != []
  {
    if exists i :: 0 <= i < |ns| && HasValue(ns[i], k) then
      k in m && exists i :: 0 <= i < |ns| && HasValue(ns[i], k) && m[k] == ns[i].metadata[k]
                            && forall j | i < j < |ns| :: !HasValue(ns[j], k)
    else
      (k in m <==> k in ns[0].metadata) && (k in m ==> m[k] == "")
  }

  ghost predicate LatestValues(m: map<string, string>, ns: seq<Note>)
    requires ns != []
  {
    forall k :: LatestValue(m, ns, k)
  }

  predicate HasValue(n: Note, k: string) { k in n.metadata && Present(n.metadata[k]) }

  ghost predicate References(refs: set<string>, ns: seq<Note>, asset: string) {
    forall r :: r in refs <==> r == asset || (Readable(r) && exists i :: 0 <= i < |ns| && r in ns[i].assetRefs)
  }

  /** `n` says together what the notes of a group say. */
  ghost predicate Says(n: Note, ns: seq<Note>, asset: string) {
    && ns != [] && n.title == ns[0].title
    && Chosen(n.cvss, ns, (x: Note) => x.cvss, Present) && Chosen(n.cve, ns, (x: Note) => x.cve, Present)
    && Chosen(n.cpe, ns, (x: Note) => x.cpe, Present) && Chosen(n.service, ns, (x: Note) => x.service, Present)
    && Chosen(n.description, ns, (x: Note) => x.description, Readable)
    && Chosen(n.remediation, ns, (x: Note) => x.remediation, Readable)
    && Chosen(n.proof, ns, (x: Note) => x.proof, Readable)
    && Chosen(n.validation, ns, (x: Note) => x.validation, Readable)
    && Chosen(n.reason, ns, (x: Note) => x.reason, Readable)
    && n.references == AllReferences(ns) && References(n.assetRefs, ns, asset) && LatestValues(n.metadata, ns)
  }

  // ------------------------------------------------------------------------- it does

  lemma ChosenStep(v: string, ns: seq<Note>, x: Note, field: Note -> string, good: string -> bool)
    requires ns != [] && Chosen(v, ns, field, good)
    ensures Chosen(if good(v) then v else field(x), ns + [x], field, good)
  {
    var all := ns + [x];
    assert forall i | 0 <= i < |ns| :: all[i] == ns[i];
    if i :| 0 <= i < |ns| && good(field(ns[i])) {
      var k :| 0 <= k < |ns| && v == field(ns[k]) && good(v) && forall j | 0 <= j < k :: !good(field(ns[j]));
      assert good(field(all[k])) && v == field(all[k]);
    } else {
      assert !good(v) && all[|ns|] == x;
      assert forall j | 0 <= j < |ns| :: !good(field(all[j]));
    }
  }

  lemma {:induction false} ReferencesSnoc(ns: seq<Note>, x: Note)
    ensures AllReferences(ns + [x]) == AllReferences(ns) + x.references
  {
    if ns == [] {
      assert [x][1..] == [];
    } else {
      assert (ns + [x])[1..] == ns[1..] + [x];
      ReferencesSnoc(ns[1..], x);
    }
  }

  lemma AssetStep(refs: set<string>, ns: seq<Note>, x: Note, asset: string)
    requires References(refs, ns, asset)
    ensures References(refs + Named(x.assetRefs), ns + [x], asset)
  {
    var all := ns + [x];
    assert all[|ns|] == x && forall i | 0 <= i < |ns| :: all[i] == ns[i];
    forall r ensures (exists i :: 0 <= i < |all| && r in all[i].assetRefs)
                <==> r in x.assetRefs || exists i :: 0 <= i < |ns| && r in ns[i].assetRefs
    {
      if i :| 0 <= i < |ns| && r in ns[i].assetRefs {
        assert r in all[i].assetRefs;
      }
    }
  }

  lemma ValueStep(m: map<string, string>, ns: seq<Note>, x: Note, k: string, m': map<string, string>, all: seq<Note>)
    requires ns != [] && LatestValue(m, ns, k) && all == ns + [x]
    requires HasValue(x, k) ==> k in m' && m'[k] == x.metadata[k]
    requires !HasValue(x, k) ==> (k in m' <==> k in m) && (k in m ==> m'[k] == m[k])
    ensures LatestValue(m', all, k)
  {
    assert all[|ns|] == x && all[0] == ns[0] && forall i | 0 <= i < |ns| :: all[i] == ns[i];
    if HasValue(x, k) {
      assert HasValue(all[|ns|], k);
    } else if i :| 0 <= i < |ns| && HasValue(ns[i], k) {
      var l :| 0 <= l < |ns| && HasValue(ns[l], k) && m[k] == ns[l].metadata[k]
               && forall j | l < j < |ns| :: !HasValue(ns[j], k);
      assert HasValue(all[l], k) && m'[k] == all[l].metadata[k];
      assert forall j | l < j < |all| :: !HasValue(all[j], k);
    } else {
      assert forall j | 0 <= j < |all| :: !HasValue(all[j], k);
    }
  }

  lemma MetadataStep(m: map<string, string>, ns: seq<Note>, x: Note)
    requires ns != [] && LatestValues(m, ns)
    ensures LatestValues(m + Filled(x.metadata), ns + [x])
  {
    var all, m' := ns + [x], m + Filled(x.metadata);
    forall k ensures LatestValue(m', all, k) {
      ValueStep(m, ns, x, k, m', all);
    }
  }

  lemma FirstSays(n: Note, asset: string)
    ensures Says(FirstNote(n, asset), [n], asset)
  {
    var ns := [n];
    assert ns[0] == n;
    assert AllReferences(ns) == n.references + AllReferences(ns[1..]) && ns[1..] == [];
    assert forall k :: HasValue(ns[0], k) <==> HasValue(n, k);
  }

  lemma MergeSays(n: Note, ns: seq<Note>, x: Note, asset: string)
    requires Says(n, ns, asset)
    ensures Says(MergeNote(n, x), ns + [x], asset)
  {
    ChosenStep(n.cvss, ns, x, (x: Note) => x.cvss, Present);
    ChosenStep(n.cve, ns, x, (x: Note) => x.cve, Present);
    ChosenStep(n.cpe, ns, x, (x: Note) => x.cpe, Present);
    ChosenStep(n.service, ns, x, (x: Note) => x.service, Present);
    ChosenStep(n.description, ns, x, (x: Note) => x.description, Readable);
    ChosenStep(n.remediation, ns, x, (x: Note) => x.remediation, Readable);
    ChosenStep(n.proof, ns, x, (x: Note) => x.proof, Readable);
    ChosenStep(n.validation, ns, x, (x: Note) => x.validation, Readable);
    ChosenStep(n.reason, ns, x, (x: Note) => x.reason, Readable);
    ReferencesSnoc(ns, x);
    AssetStep(n.assetRefs, ns, x, asset);
    MetadataStep(n.metadata, ns, x);
  }
}
