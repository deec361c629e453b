/** Translating npm version ranges to release comparisons, and checking a suggested upgrade
    against the ranges that the dependency graph imposes (`remediation.py`). */
module Versions {
  import opened Sorting

  /** The numeric components of a final release; missing components count as zero. */
  type Release = seq<nat>

  function At(v: Release, i: nat): nat { if i < |v| then v[i] else 0 }

  function Longer(v: Release, w: Release): nat { if |v| >= |w| then |v| else |w| }

  /** Zero-padded release comparison from component `i` on. */
  function CompareFrom(v: Release, w: Release, i: nat): int
    decreases Longer(v, w) - i
  {
    if i >= Longer(v, w) then 0
    else if At(v, i) != At(w, i) then (if At(v, i) < At(w, i) then -1 else 1)
    else CompareFrom(v, w, i + 1)
  }

  function Compare(v: Release, w: Release): int { CompareFrom(v, w, 0) }

  /** Both have the same components before `n`. */
  ghost predicate Agree(v: Release, w: Release, n: nat) {
    forall i: nat | i < n :: At(v, i) == At(w, i)
  }

  ghost predicate Less(v: Release, w: Release) {
    exists k: nat :: Agree(v, w, k) && At(v, k) < At(w, k)
  }

  lemma {:induction false} CompareFromIsLexicographic(v: Release, w: Release, i: nat)
    requires Agree(v, w, i)
    ensures CompareFrom(v, w, i) < 0 <==> Less(v, w)
    ensures CompareFrom(v, w, i) > 0 <==> Less(w, v)
    ensures CompareFrom(v, w, i) == 0 <==> forall k: nat :: At(v, k) == At(w, k)
    decreases Longer(v, w) - i
  {
    if i >= Longer(v, w) {
      forall k: nat ensures At(v, k) == At(w, k) {}
    } else if At(v, i) != At(w, i) {
      assert Agree(w, v, i);
      if Less(v, w) {
        var k: nat :| Agree(v, w, k) && At(v, k) < At(w, k);
        assert k == i;
      }
      if Less(w, v) {
        var k: nat :| Agree(w, v, k) && At(w, k) < At(v, k);
        assert k == i;
      }
    } else {
      assert Agree(v, w, i + 1);
      CompareFromIsLexicographic(v, w, i + 1);
    }
  }

  /** The component-wise loop decides the lexicographic order of the zero-padded releases. */
  lemma CompareIsLexicographic(v: Release, w: Release)
    ensures Compare(v, w) < 0 <==> Less(v, w)
    ensures Compare(v, w) > 0 <==> Less(w, v)
    ensures Compare(v, w) == 0 <==> forall k: nat :: At(v, k) == At(w, k)
  {
    CompareFromIsLexicographic(v, w, 0);
  }

  // ------------------------------------------------------------------------ clauses

  datatype Op = Ge | Le | Gt | Lt | Eq

  datatype Clause = Clause(op: Op, version: Release) | Invalid

  predicate Allows(c: Clause, w: Release)
    requires c.Clause?
  {
    var d := Compare(w, c.version);
    match c.op
    case Ge => d >= 0
    case Le => d <= 0
    case Gt => d > 0
    case Lt => d < 0
    case Eq => d == 0
  }

  /** A list with an invalid clause cannot be built, and the code then constrains nothing. */
  predicate Admits(cs: seq<Clause>, w: Release) {
    Invalid in cs || forall c | c in cs :: c.Clause? ==> Allows(c, w)
  }

  /** At least `v`, and with the same components as `v` before `n`. */
  ghost predicate UpTo(v: Release, n: nat, w: Release) {
    !Less(w, v) && Agree(v, w, n)
  }

  function Padded(v: Release, n: nat): Release
    decreases n - |v|
  {
    if |v| >= n then v else Padded(v + [0], n)
  }

  lemma {:induction false} PaddedAt(v: Release, n: nat)
    ensures |Padded(v, n)| == if |v| >= n then |v| else n
    ensures forall i: nat :: At(Padded(v, n), i) == At(v, i)
    decreases n - |v|
  {
    if |v| < n {
      PaddedAt(v + [0], n);
      forall i: nat ensures At(v + [0], i) == At(v, i) {}
    }
  }

  /** Raising component `n` and clearing what follows bounds exactly the releases that agree
      with `v` up to and including `n`, among those that are at least `v`. */
  lemma BumpBounds(v: Release, n: nat, upper: Release, w: Release)
    requires Agree(v, upper, n) && At(upper, n) == At(v, n) + 1
    requires forall i: nat | i > n :: At(upper, i) == 0
    requires !Less(w, v)
    ensures Less(w, upper) <==> Agree(v, w, n + 1)
  {
    if Less(w, upper) {
      var k: nat :| Agree(w, upper, k) && At(w, k) < At(upper, k);
      assert k <= n && Agree(w, v, k);
    }
    if Agree(v, w, n + 1) {
      assert Agree(w, upper, n) && At(w, n) == At(v, n);
    }
  }

  lemma BoundedBelow(v: Release, n: nat, upper: Release, w: Release)
    requires Agree(v, upper, n) && At(upper, n) == At(v, n) + 1
    requires forall i: nat | i > n :: At(upper, i) == 0
    ensures Admits([Clause(Ge, v), Clause(Lt, upper)], w) <==> UpTo(v, n + 1, w)
  {
    var cs := [Clause(Ge, v), Clause(Lt, upper)];
    assert cs[0] in cs && cs[1] in cs && Invalid !in cs;
    assert Admits(cs, w) <==> Allows(cs[0], w) && Allows(cs[1], w);
    CompareIsLexicographic(w, v);
    CompareIsLexicographic(w, upper);
    if !Less(w, v) {
      BumpBounds(v, n, upper, w);
    }
  }

  // --------------------------------------------------------------- caret and tilde

  method HandleCaret(v: Release) returns (cs: seq<Clause>)
    ensures cs == CaretClauses(v)
  {
    var parts := v;
    while |parts| < 3
      invariant Padded(parts, 3) == Padded(v, 3)
      decreases 3 - |parts|
    {
      parts := parts + [0];
    }
    PaddedAt(v, 3);
    if parts[0] != 0 {
      cs := [Clause(Ge, v), Clause(Lt, [parts[0] + 1, 0, 0])];
    } else if parts[1] != 0 {
      cs := [Clause(Ge, v), Clause(Lt, [0, parts[1] + 1, 0])];
    } else {
      cs := [Clause(Ge, v), Clause(Lt, [0, 0, parts[2] + 1])];
    }
  }

  function CaretClauses(v: Release): seq<Clause> {
    [Clause(Ge, v),
     Clause(Lt, if At(v, 0) != 0 then [At(v, 0) + 1, 0, 0]
                else if At(v, 1) != 0 then [0, At(v, 1) + 1, 0]
                else [0, 0, At(v, 2) + 1])]
  }

  /** The position of the left-most non-zero of the first three components, else the third. */
  function Lead(v: Release): nat {
    if At(v, 0) != 0 then 0 else if At(v, 1) != 0 then 1 else 2
  }

  /** A caret range admits exactly the releases from `v` on that share its left-most non-zero
      component and what precedes it. */
  lemma CaretAdmits(v: Release, w: Release)
    ensures Admits(CaretClauses(v), w) <==> UpTo(v, Lead(v) + 1, w)
  {
    BoundedBelow(v, Lead(v), CaretClauses(v)[1].version, w);
  }

  /** npm's own reading, in which components that are left out may take any value. */
  function NpmLead(v: Release): nat
    requires v != []
  {
    if v[0] != 0 || |v| == 1 then 0 else if v[1] != 0 || |v| == 2 then 1 else 2
  }

  /** The translation of a caret range is npm's exactly when all three components are given or
      one of those given is not zero. */
  lemma CaretIsNpmIff(v: Release)
    requires v != []
    ensures (forall w :: Admits(CaretClauses(v), w) <==> UpTo(v, NpmLead(v) + 1, w))
            <==> |v| >= 3 || exists i :: 0 <= i < |v| && v[i] != 0
  {
    forall w ensures Admits(CaretClauses(v), w) <==> UpTo(v, Lead(v) + 1, w) {
      CaretAdmits(v, w);
    }
    if |v| < 3 && forall i | 0 <= i < |v| :: v[i] == 0 {
      var w := [0, 0, 1];
      assert forall k: nat :: At(v, k) == 0;
      assert At(w, 2) == 1 && At(w, 1) == 0 && At(w, 0) == 0;
      assert !Admits(CaretClauses(v), w) && UpTo(v, NpmLead(v) + 1, w);
    }
  }

  method HandleTilde(v: Release) returns (cs: seq<Clause>)
    ensures cs == TildeClauses(v)
  {
    var parts := v;
    while |parts| < 2
      invariant Padded(parts, 2) == Padded(v, 2)
      decreases 2 - |parts|
    {
      parts := parts + [0];
    }
    PaddedAt(v, 2);
    cs := [Clause(Ge, v), Clause(Lt, [parts[0], parts[1] + 1, 0])];
  }

  function TildeClauses(v: Release): seq<Clause> {
    [Clause(Ge, v), Clause(Lt, [At(v, 0), At(v, 1) + 1, 0])]
  }

  /** A tilde range admits exactly the releases from `v` on that share its first two components. */
  lemma TildeAdmits(v: Release, w: Release)
    ensures Admits(TildeClauses(v), w) <==> UpTo(v, 2, w)
  {
    BoundedBelow(v, 1, TildeClauses(v)[1].version, w);
  }

  /** npm lets a tilde range with one component vary the minor version; the translation does not. */
  lemma TildeIsNpmIff(v: Release)
    requires v != []
    ensures (forall w :: Admits(TildeClauses(v), w) <==> UpTo(v, if |v| == 1 then 1 else 2, w))
            <==> |v| >= 2
  {
    forall w ensures Admits(TildeClauses(v), w) <==> UpTo(v, 2, w) {
      TildeAdmits(v, w);
    }
    if |v| == 1 {
      var w := [v[0], 1];
      assert At(w, 1) == 1 && At(w, 0) == At(v, 0) && forall k: nat | k > 0 :: At(v, k) == 0;
      assert !Admits(TildeClauses(v), w) && UpTo(v, 1, w);
    }
  }

  // ------------------------------------------------------------------- wildcards

  datatype Component = Number(n: nat) | Any

  function Digits(c: Component): nat { if c.Number? then c.n else 0 }

  /** `operator` says that a comparison operator is still in front of the first component, which
      the code then does not recognise as a wildcard. */
  function WildcardClauses(parts: seq<Component>, operator: bool): seq<Clause> {
    if |parts| <= 1 || (parts[0].Any? && !operator) then []
    else
      var major := Digits(parts[0]);
      if |parts| == 2 || parts[1].Any? then [Clause(Ge, [major, 0, 0]), Clause(Lt, [major + 1, 0, 0])]
      else if parts[2].Any? then
        var minor := Digits(parts[1]);
        [Clause(Ge, [major, minor, 0]), Clause(Lt, [major, minor + 1, 0])]
      else []
  }

  /** How many components are fixed before the first wildcard. */
  function Fixed(parts: seq<Component>): nat {
    if parts == [] || parts[0].Any? then 0 else 1 + Fixed(parts[1..])
  }

  ghost predicate Matches(parts: seq<Component>, w: Release) {
    forall i: nat | i < |parts| && i < Fixed(parts) :: At(w, i) == Digits(parts[i])
  }

  lemma {:induction false} FixedIsFirstAny(parts: seq<Component>)
    ensures Fixed(parts) <= |parts| && (Fixed(parts) < |parts| ==> parts[Fixed(parts)].Any?)
    ensures forall i | 0 <= i < Fixed(parts) :: parts[i].Number?
  {
    if parts != [] && parts[0].Number? {
      FixedIsFirstAny(parts[1..]);
    }
  }

  /** A wildcard range admits exactly the releases that have its fixed components, as long as at
      most two are fixed; after three it constrains nothing. */
  lemma WildcardAdmits(parts: seq<Component>, w: Release)
    requires Fixed(parts) < |parts|
    ensures Fixed(parts) <= 2 ==> (Admits(WildcardClauses(parts, false), w) <==> Matches(parts, w))
    ensures Fixed(parts) > 2 ==> WildcardClauses(parts, false) == []
  {
    FixedIsFirstAny(parts);
    if Fixed(parts) == 1 {
      OneFixed(parts, w);
    } else if Fixed(parts) == 2 {
      TwoFixed(parts, w);
    }
  }

  lemma OneFixed(parts: seq<Component>, w: Release)
    requires Fixed(parts) == 1 < |parts| && parts[1].Any?
    ensures Admits(WildcardClauses(parts, false), w) <==> Matches(parts, w)
  {
    var major := Digits(parts[0]);
    BlockAdmits([major, 0, 0], [major + 1, 0, 0], 1, w);
    assert Agree([major, 0, 0], w, 1) <==> At(w, 0) == major;
  }

  lemma TwoFixed(parts: seq<Component>, w: Release)
    requires Fixed(parts) == 2 < |parts| && parts[1].Number? && parts[2].Any?
    ensures Admits(WildcardClauses(parts, false), w) <==> Matches(parts, w)
  {
    var major, minor := Digits(parts[0]), Digits(parts[1]);
    BlockAdmits([major, minor, 0], [major, minor + 1, 0], 2, w);
    assert Agree([major, minor, 0], w, 2) <==> At(w, 0) == major && At(w, 1) == minor;
  }

  lemma BlockAdmits(v: Release, upper: Release, n: nat, w: Release)
    requires n >= 1 && Agree(v, upper, n - 1) && At(upper, n - 1) == At(v, n - 1) + 1
    requires forall i: nat | i >= n :: At(v, i) == 0 && At(upper, i) == 0
    ensures Admits([Clause(Ge, v), Clause(Lt, upper)], w) <==> Agree(v, w, n)
  {
    BoundedBelow(v, n - 1, upper, w);
    if Agree(v, w, n) {
      NotLess(v, w, n);
    }
  }

  lemma NotLess(v: Release, w: Release, n: nat)
    requires Agree(v, w, n) && forall i: nat | i >= n :: At(v, i) == 0
    ensures !Less(w, v)
  {}

  lemma WildcardExactIff(parts: seq<Component>)
    requires Fixed(parts) < |parts|
    ensures (forall w :: Admits(WildcardClauses(parts, false), w) <==> Matches(parts, w)) <==> Fixed(parts) <= 2
  {
    forall w ensures Fixed(parts) <= 2 ==> (Admits(WildcardClauses(parts, false), w) <==> Matches(parts, w)) {
      WildcardAdmits(parts, w);
    }
    if Fixed(parts) > 2 {
      var w := [Digits(parts[0]) + 1];
      WildcardAdmits(parts, w);
      assert At(w, 0) != Digits(parts[0]);
      assert Admits(WildcardClauses(parts, false), w) && !Matches(parts, w);
    }
  }

  // ------------------------------------------------------------------ whole ranges

  /** One blank-separated part of a range. `Skipped` is a part that no rule recognises; `Malformed`
      one that turns into a clause that is no specifier. */
  datatype Token =
    | Caret(version: Release)
    | Tilde(version: Release)
    | Wildcard(parts: seq<Component>)
    | Comparison(op: Op, version: Release)
    | WildcardComparison(op: Op, parts: seq<Component>)
    | Bare(version: Release)
    | Skipped
    | Malformed

  function Numbers(v: Release): seq<Component> { seq(|v|, i requires 0 <= i < |v| => Number(v[i])) }

  function TokenClauses(t: Token): seq<Clause> {
    match t
    case Caret(v) => CaretClauses(v)
    case Tilde(v) => TildeClauses(v)
    case Wildcard(parts) => WildcardClauses(parts, false)
    case Comparison(op, v) => [Clause(op, v)]
    case WildcardComparison(_, parts) => WildcardClauses(parts, true)
    case Bare(v) => if |v| <= 2 then WildcardClauses(Numbers(v) + [Any], false) else [Clause(Eq, v)]
    case Skipped => []
    case Malformed => [Invalid]
  }

  function Clauses(ts: seq<Token>): seq<Clause> {
    if ts == [] then [] else Clauses(ts[..|ts| - 1]) + TokenClauses(ts[|ts| - 1])
  }

  method SemverToPep440(ts: seq<Token>) returns (cs: seq<Clause>)
    ensures cs == if Invalid in Clauses(ts) then [] else Clauses(ts)
  {
    cs := [];
    var i := 0;
    while i < |ts|
      invariant i <= |ts| && cs == Clauses(ts[..i])
    {
      assert ts[..i + 1][..i] == ts[..i];
      match ts[i] {
        case Caret(v) =>
          var more := HandleCaret(v);
          cs := cs + more;
        case Tilde(v) =>
          var more := HandleTilde(v);
          cs := cs + more;
        case _ =>
          cs := cs + TokenClauses(ts[i]);
      }
      i := i + 1;
    }
    assert ts[..i] == ts;
    if Invalid in cs {
      cs := [];
    }
  }

  /** What each part of a range asks of a release. */
  ghost predicate Asks(t: Token, w: Release) {
    match t
    case Caret(v) => UpTo(v, Lead(v) + 1, w)
    case Tilde(v) => UpTo(v, 2, w)
    case Wildcard(parts) => Fixed(parts) <= 2 ==> Matches(parts, w)
    case Comparison(Ge, v) => !Less(w, v)
    case Comparison(Le, v) => !Less(v, w)
    case Comparison(Gt, v) => Less(v, w)
    case Comparison(Lt, v) => Less(w, v)
    case Comparison(Eq, v) => forall k: nat :: At(w, k) == At(v, k)
    case WildcardComparison(_, parts) =>
      |parts| > 1 && Fixed(Unmarked(parts)) <= 2 ==> Matches(Unmarked(parts), w)
    case Bare(v) => Agree(v, w, if |v| <= 2 then |v| else Longer(v, w))
    case Skipped => true
    case Malformed => true
  }

  /** The code reads a wildcard that follows an operator directly as zero. */
  function Unmarked(parts: seq<Component>): seq<Component> {
    if |parts| <= 1 || parts[0].Number? then parts
    else if |parts| == 2 then [Number(0), Any]
    else parts[0 := Number(0)]
  }

  /** A part that is written with a wildcard contains one. */
  predicate WellRead(t: Token) {
    && (t.Wildcard? || t.WildcardComparison? ==> Any in t.parts)
    && (t.Bare? ==> t.version != [])
  }

  lemma AnyEndsFixed(parts: seq<Component>)
    requires Any in parts
    ensures Fixed(parts) < |parts|
  {
    FixedIsFirstAny(parts);
    var i :| 0 <= i < |parts| && parts[i] == Any;
    assert Fixed(parts) <= i;
  }

  lemma BareAdmits(v: Release, w: Release)
    requires 0 < |v| <= 2
    ensures Admits(WildcardClauses(Numbers(v) + [Any], false), w) <==> Agree(v, w, |v|)
  {
    var parts := Numbers(v) + [Any];
    FixedIsFirstAny(parts);
    assert parts[|v|] == Any && parts[0] == Number(v[0]) && (|v| == 2 ==> parts[1] == Number(v[1]));
    assert Fixed(parts) == |v|;
    WildcardAdmits(parts, w);
  }

  lemma OneClause(op: Op, v: Release, w: Release)
    ensures Admits([Clause(op, v)], w) <==> Allows(Clause(op, v), w)
  {
    assert Clause(op, v) in [Clause(op, v)];
  }

  lemma OperatorAdmits(parts: seq<Component>, w: Release)
    requires Any in parts
    ensures Admits(WildcardClauses(parts, true), w)
            <==> (|parts| > 1 && Fixed(Unmarked(parts)) <= 2 ==> Matches(Unmarked(parts), w))
  {
    AnyEndsFixed(parts);
    var u := Unmarked(parts);
    if |parts| > 1 {
      FixedIsFirstAny(u);
      assert WildcardClauses(parts, true) == WildcardClauses(u, false);
      if Fixed(u) < |u| {
        WildcardAdmits(u, w);
      }
    }
  }

  /** The translation of each part means what that part asks for. */
  lemma TokenAdmits(t: Token, w: Release)
    requires WellRead(t) && !t.Malformed?
    ensures Invalid !in TokenClauses(t)
    ensures Admits(TokenClauses(t), w) <==> Asks(t, w)
  {
    match t
    case Caret(v) => CaretAdmits(v, w);
    case Tilde(v) => TildeAdmits(v, w);
    case Wildcard(parts) =>
      AnyEndsFixed(parts);
      WildcardAdmits(parts, w);
    case Comparison(op, v) =>
      OneClause(op, v, w);
      CompareIsLexicographic(w, v);
    case WildcardComparison(_, parts) => OperatorAdmits(parts, w);
    case Bare(v) =>
      if |v| <= 2 {
        BareAdmits(v, w);
      } else {
        OneClause(Eq, v, w);
        CompareIsLexicographic(w, v);
        assert forall k: nat | k >= Longer(v, w) :: At(v, k) == At(w, k);
      }
    case Skipped =>
  }

  lemma AdmitsBoth(cs: seq<Clause>, ds: seq<Clause>, w: Release)
    requires Invalid !in cs && Invalid !in ds
    ensures Invalid !in cs + ds
    ensures Admits(cs + ds, w) <==> Admits(cs, w) && Admits(ds, w)
  {
    assert forall c :: c in cs + ds <==> c in cs || c in ds;
  }

  lemma {:induction false} ClausesAdmit(ts: seq<Token>, w: Release)
    requires (forall t | t in ts :: WellRead(t)) && Malformed !in ts
    ensures Invalid !in Clauses(ts)
    ensures Admits(Clauses(ts), w) <==> forall t | t in ts :: Asks(t, w)
  {
    if ts == [] {
    } else {
      var n := |ts| - 1;
      assert ts == ts[..n] + [ts[n]];
      ClausesAdmit(ts[..n], w);
      TokenAdmits(ts[n], w);
      AdmitsBoth(Clauses(ts[..n]), TokenClauses(ts[n]), w);
    }
  }

  lemma {:induction false} MalformedSpoils(ts: seq<Token>)
    requires Malformed in ts
    ensures Invalid in Clauses(ts)
  {
    var n := |ts| - 1;
    if ts[n].Malformed? {
      assert Clauses(ts)[|Clauses(ts)| - 1] == Invalid;
    } else {
      assert ts == ts[..n] + [ts[n]];
      MalformedSpoils(ts[..n]);
    }
  }

  /** A translated range admits exactly the releases that every part asks for, and everything if
      some part turns into no specifier. */
  lemma TranslationMeansRange(ts: seq<Token>, w: Release)
    requires forall t | t in ts :: WellRead(t)
    ensures Admits(if Invalid in Clauses(ts) then [] else Clauses(ts), w)
            <==> Malformed in ts || forall t | t in ts :: Asks(t, w)
  {
    if Malformed in ts {
      MalformedSpoils(ts);
    } else {
      ClausesAdmit(ts, w);
    }
  }

  // ------------------------------------------------------ operators before wildcards

  /** The fixed components. */
  function Prefix(parts: seq<Component>): Release
    requires Fixed(parts) <= |parts|
  {
    seq(Fixed(parts), i requires 0 <= i < Fixed(parts) => Digits(parts[i]))
  }

  /** What npm asks for: a range of releases stands behind the operator, and only the releases beyond
      all of it, or not beyond any of it, satisfy a comparison. */
  ghost predicate Compares(op: Op, v: Release, w: Release) {
    match op
    case Eq => Agree(v, w, |v|)
    case Ge => !Less(w, v)
    case Gt => Less(v, w) && !Agree(v, w, |v|)
    case Le => Less(w, v) || Agree(v, w, |v|)
    case Lt => Less(w, v)
  }

  predicate AllZero(v: Release) { forall i | 0 <= i < |v| :: v[i] == 0 }

  /** When the translation of an operator before a wildcard means what npm asks for. */
  predicate ReadRight(op: Op, parts: seq<Component>)
    requires Fixed(parts) <= |parts|
  {
    var k := Fixed(parts);
    if k == 0 then
      op in {Eq, Ge, Le} && (|parts| <= 1 || (|parts| > 2 && parts[1].Number? && parts[2].Number?))
    else if k <= 2 then op == Eq || (op == Le && AllZero(Prefix(parts)))
    else op == Ge && AllZero(Prefix(parts))
  }

  lemma SelfNotLess(v: Release)
    ensures !Less(v, v) && Agree(v, v, |v|)
  {}

  lemma ZeroIsLeast(v: Release, w: Release)
    requires AllZero(v)
    ensures !Less(w, v)
  {}

  lemma {:induction false} NonZeroIsMore(v: Release, i: nat)
    requires i < |v| && v[i] != 0
    ensures Less([], v) && !Agree(v, [], |v|)
    decreases i
  {
    assert At([], i) != At(v, i);
    if j :| 0 <= j < i && v[j] != 0 {
      NonZeroIsMore(v, j);
    } else {
      assert Agree([], v, i) && At([], i) < At(v, i);
    }
  }

  lemma BeyondIsMore(v: Release)
    requires v != []
    ensures var w := [v[0] + 1]; !Less(w, v) && !Agree(v, w, |v|)
  {
    var w := [v[0] + 1];
    assert At(w, 0) == At(v, 0) + 1;
    forall k: nat | Agree(w, v, k) ensures k == 0 {}
  }

  /** A comparison with a range is agreement with its fixed components only for equality, and for "at
      most" if they are all zero. */
  lemma AgreementIff(op: Op, v: Release)
    requires v != []
    ensures (forall w :: Agree(v, w, |v|) <==> Compares(op, v, w)) <==> op == Eq || (op == Le && AllZero(v))
  {
    SelfNotLess(v);
    BeyondIsMore(v);
    if AllZero(v) {
      forall w ensures !Less(w, v) { ZeroIsLeast(v, w); }
    } else {
      var i :| 0 <= i < |v| && v[i] != 0;
      NonZeroIsMore(v, i);
    }
    var beyond, none: Release := [v[0] + 1], [];
    match op {
      case Eq =>
      case Ge => assert !(Agree(v, beyond, |v|) <==> Compares(op, v, beyond));
      case Gt => assert !(Agree(v, v, |v|) <==> Compares(op, v, v));
      case Le => assert !AllZero(v) ==> !(Agree(v, none, |v|) <==> Compares(op, v, none));
      case Lt => assert !(Agree(v, v, |v|) <==> Compares(op, v, v));
    }
  }

  /** A comparison with a range holds of every release only for "at least" and zeros. */
  lemma UnboundedIff(op: Op, v: Release)
    requires v != []
    ensures (forall w :: Compares(op, v, w)) <==> op == Ge && AllZero(v)
  {
    SelfNotLess(v);
    BeyondIsMore(v);
    if AllZero(v) {
      forall w ensures !Less(w, v) { ZeroIsLeast(v, w); }
    } else {
      var i :| 0 <= i < |v| && v[i] != 0;
      NonZeroIsMore(v, i);
    }
    var beyond, none: Release := [v[0] + 1], [];
    match op {
      case Eq => assert !Compares(op, v, beyond);
      case Ge => assert !AllZero(v) ==> !Compares(op, v, none);
      case Gt => assert !Compares(op, v, v);
      case Le => assert !Compares(op, v, beyond);
      case Lt => assert !Compares(op, v, v);
    }
  }

  lemma MatchesIsAgree(parts: seq<Component>, w: Release)
    requires Fixed(parts) <= |parts|
    ensures Matches(parts, w) <==> Agree(Prefix(parts), w, Fixed(parts))
  {
    assert forall i: nat | i < Fixed(parts) :: At(Prefix(parts), i) == Digits(parts[i]);
  }

  /** Without fixed components npm asks for everything or nothing. */
  lemma NothingFixed(op: Op, w: Release)
    ensures Compares(op, [], w) <==> op in {Eq, Ge, Le}
  {
    var none: Release := [];
    assert Agree(none, w, |none|);
    ZeroIsLeast(none, w);
  }

  lemma ZeroReadIff(op: Op, parts: seq<Component>)
    requires Any in parts && Fixed(parts) == 0
    ensures (forall w :: Admits(WildcardClauses(parts, true), w) <==> Compares(op, Prefix(parts), w))
            <==> ReadRight(op, parts)
  {
    var u := Unmarked(parts);
    assert Prefix(parts) == [];
    FixedIsFirstAny(parts);
    forall w ensures Admits(WildcardClauses(parts, true), w) <==> (|parts| > 1 && Fixed(u) <= 2 ==> Matches(u, w)) {
      OperatorAdmits(parts, w);
    }
    forall w ensures Compares(op, [], w) <==> op in {Eq, Ge, Le} {
      NothingFixed(op, w);
    }
    if |parts| > 1 && Fixed(u) <= 2 {
      FixedIsFirstAny(u);
      var other, same := [1], Prefix(u);
      assert u[0] == Number(0) && Fixed(u) >= 1 && At(other, 0) == 1;
      assert !Matches(u, other);
      MatchesIsAgree(u, same);
      SelfNotLess(same);
      assert !Admits(WildcardClauses(parts, true), other) && Admits(WildcardClauses(parts, true), same);
      assert Compares(op, [], other) <==> Compares(op, [], same);
    } else {
      var some: Release := [];
      assert Admits(WildcardClauses(parts, true), some) && (Compares(op, [], some) <==> op in {Eq, Ge, Le});
    }
    if |parts| > 1 {
      UnmarkedFixed(parts);
    }
  }

  lemma UnmarkedFixed(parts: seq<Component>)
    requires |parts| > 1 && parts[0].Any?
    ensures Fixed(Unmarked(parts)) <= 2 <==> !(|parts| > 2 && parts[1].Number? && parts[2].Number?)
  {
    var u := Unmarked(parts);
    if |parts| == 2 {
      assert u[1..] == [Any];
      assert Fixed(u) == 1;
    } else {
      assert u[1..] == parts[1..] && parts[1..][1..] == parts[2..];
      assert Fixed(u) == 1 + Fixed(parts[1..]);
      assert Fixed(parts[1..]) == if parts[1].Any? then 0 else 1 + Fixed(parts[2..]);
      assert Fixed(parts[2..]) == if parts[2].Any? then 0 else 1 + Fixed(parts[2..][1..]);
    }
  }

  lemma SomeReadIff(op: Op, parts: seq<Component>)
    requires Any in parts && 0 < Fixed(parts) <= |parts| && |Prefix(parts)| == Fixed(parts)
    ensures (forall w :: Admits(WildcardClauses(parts, true), w) <==> Compares(op, Prefix(parts), w))
            <==> ReadRight(op, parts)
  {
    var v := Prefix(parts);
    forall w ensures Admits(WildcardClauses(parts, true), w) <==> (Fixed(parts) <= 2 ==> Agree(v, w, |v|)) {
      OperatorAdmits(parts, w);
      MatchesIsAgree(parts, w);
    }
    AgreementIff(op, v);
    UnboundedIff(op, v);
  }

  /** An operator in front of a wildcard is lost: for every operator and every wildcard, the translation
      means what npm asks for exactly if `ReadRight` holds. */
  lemma OperatorReadIff(op: Op, parts: seq<Component>)
    requires Any in parts
    ensures Fixed(parts) <= |parts|
    ensures (forall w :: Admits(TokenClauses(WildcardComparison(op, parts)), w) <==> Compares(op, Prefix(parts), w))
            <==> ReadRight(op, parts)
  {
    AnyEndsFixed(parts);
    FixedIsFirstAny(parts);
    if Fixed(parts) == 0 {
      ZeroReadIff(op, parts);
    } else {
      SomeReadIff(op, parts);
    }
  }

  /** For instance, a range below 2.x admits only releases of 2. */
  lemma OperatorBeforeWildcardIsLost(w: Release)
    ensures Admits(Clauses([WildcardComparison(Lt, [Number(2), Any])]), w) <==> At(w, 0) == 2
  {
    var t := WildcardComparison(Lt, [Number(2), Any]);
    assert [t][..0] == [] && Clauses([t]) == TokenClauses(t);
    assert [Number(2), Any][1] == Any;
    TokenAdmits(t, w);
    assert Fixed([Number(2), Any]) == 1;
  }

  // ----------------------------------------- alternatives, hyphens and blanks in a range

  /** Every part of a range asks for the release. */
  ghost predicate AllAsk(ts: seq<Token>, w: Release) { forall t | t in ts :: Asks(t, w) }

  /** What the code admits for the parts of a range. */
  ghost predicate Accepts(ts: seq<Token>, w: Release) {
    Admits(if Invalid in Clauses(ts) then [] else Clauses(ts), w)
  }

  /** The bars between two alternatives are a part that no rule recognises, so that both alternatives must
      hold.  That is what "one or the other" means exactly if both admit the same releases. */
  lemma AlternativesReadIff(a: seq<Token>, b: seq<Token>)
    requires (forall t | t in a + b :: WellRead(t)) && Malformed !in a + b
    ensures (forall w :: Accepts(a + [Skipped] + b, w) <==> AllAsk(a, w) || AllAsk(b, w))
            <==> forall w :: AllAsk(a, w) <==> AllAsk(b, w)
  {
    var ts := a + [Skipped] + b;
    forall t: Token ensures t in ts <==> t in a || t in b || t == Skipped {
      assert t in a + b <==> t in a || t in b;
    }
    forall w ensures Accepts(ts, w) <==> AllAsk(a, w) && AllAsk(b, w) {
      TranslationMeansRange(ts, w);
    }
    if w :| !(AllAsk(a, w) <==> AllAsk(b, w)) {
      assert !(Accepts(ts, w) <==> AllAsk(a, w) || AllAsk(b, w));
    }
  }

  /** For instance, "^1 || ^2" admits nothing. */
  lemma CaretAlternativesAdmitNothing(w: Release)
    ensures !Accepts([Caret([1]), Skipped, Caret([2])], w)
  {
    var one, two := Caret([1]), Caret([2]);
    var ts := [one, Skipped, two];
    TranslationMeansRange(ts, w);
    assert one in ts && two in ts;
    assert UpTo([1], 1, w) ==> At([1], 0) == At(w, 0);
    assert UpTo([2], 1, w) ==> At([2], 0) == At(w, 0);
  }

  /** A hyphen between two versions turns into no specifier and lifts every constraint, also on releases
      beyond both. */
  lemma HyphenAdmitsAll(low: Release, high: Release, w: Release)
    requires low != [] && high != []
    ensures Accepts([Bare(low), Malformed, Bare(high)], w)
    ensures var beyond := [high[0] + 1]; Less(high, beyond) && Accepts([Bare(low), Malformed, Bare(high)], beyond)
  {
    var ts, beyond := [Bare(low), Malformed, Bare(high)], [high[0] + 1];
    assert ts[1] == Malformed;
    TranslationMeansRange(ts, w);
    TranslationMeansRange(ts, beyond);
    assert Agree(high, beyond, 0) && At(high, 0) < At(beyond, 0);
  }

  lemma SplitOperatorAsks(v: Release, w: Release)
    requires v != []
    ensures Accepts([Skipped, Bare(v)], w) <==> Asks(Bare(v), w)
  {
    var ts := [Skipped, Bare(v)];
    assert ts[1] == Bare(v) && forall t | t in ts :: t == Skipped || t == Bare(v);
    TranslationMeansRange(ts, w);
  }

  /** A blank after an operator leaves the operator as a part that no rule recognises, and the version as one
      of its own.  That is right exactly with three or more components and for equality, or for "at most"
      and zeros. */
  lemma BlankAfterOperatorIff(op: Op, v: Release)
    requires v != []
    ensures (forall w :: Accepts([Skipped, Bare(v)], w) <==> Allows(Clause(op, v), w))
            <==> |v| >= 3 && (op == Eq || (op == Le && AllZero(v)))
  {
    forall w ensures Accepts([Skipped, Bare(v)], w) <==> Asks(Bare(v), w) {
      SplitOperatorAsks(v, w);
    }
    if |v| <= 2 {
      ShortPin(op, v);
    } else {
      LongPin(op, v);
    }
  }

  lemma ShortPin(op: Op, v: Release)
    requires 0 < |v| <= 2
    ensures exists w :: !(Asks(Bare(v), w) <==> Allows(Clause(op, v), w))
  {
    var beyond, deeper := [v[0] + 1], v + [1];
    CompareIsLexicographic(v, v);
    CompareIsLexicographic(beyond, v);
    CompareIsLexicographic(deeper, v);
    SelfNotLess(v);
    BeyondIsMore(v);
    assert Agree(v, beyond, 0) && At(v, 0) < At(beyond, 0);
    assert Agree(v, deeper, |v|) && At(v, |v|) < At(deeper, |v|);
    match op {
      case Ge => assert !(Asks(Bare(v), beyond) <==> Allows(Clause(op, v), beyond));
      case Gt => assert !(Asks(Bare(v), beyond) <==> Allows(Clause(op, v), beyond));
      case Lt => assert !(Asks(Bare(v), v) <==> Allows(Clause(op, v), v));
      case Le => assert !(Asks(Bare(v), deeper) <==> Allows(Clause(op, v), deeper));
      case Eq => assert !(Asks(Bare(v), deeper) <==> Allows(Clause(op, v), deeper));
    }
  }

  lemma PinIsEquality(v: Release, w: Release)
    requires |v| >= 3
    ensures Asks(Bare(v), w) <==> Compare(w, v) == 0
  {
    CompareIsLexicographic(w, v);
    assert forall k: nat | k >= Longer(v, w) :: At(v, k) == At(w, k);
  }

  lemma LongPin(op: Op, v: Release)
    requires |v| >= 3
    ensures (forall w :: Asks(Bare(v), w) <==> Allows(Clause(op, v), w)) <==> op == Eq || (op == Le && AllZero(v))
  {
    forall w ensures Asks(Bare(v), w) <==> Compare(w, v) == 0 {
      PinIsEquality(v, w);
    }
    var beyond, none: Release := [v[0] + 1], [];
    CompareIsLexicographic(v, v);
    CompareIsLexicographic(beyond, v);
    CompareIsLexicographic(none, v);
    SelfNotLess(v);
    assert Agree(v, beyond, 0) && At(v, 0) < At(beyond, 0);
    if AllZero(v) {
      forall w ensures Compare(w, v) >= 0 {
        ZeroIsLeast(v, w);
        CompareIsLexicographic(w, v);
      }
    } else {
      var i :| 0 <= i < |v| && v[i] != 0;
      NonZeroIsMore(v, i);
    }
    match op {
      case Ge => assert !(Asks(Bare(v), beyond) <==> Allows(Clause(op, v), beyond));
      case Gt => assert !(Asks(Bare(v), beyond) <==> Allows(Clause(op, v), beyond));
      case Lt => assert !(Asks(Bare(v), v) <==> Allows(Clause(op, v), v));
      case Le => assert !AllZero(v) ==> !(Asks(Bare(v), none) <==> Allows(Clause(op, v), none));
      case Eq =>
    }
  }

  // -------------------------------------------------------------- checking an upgrade

  datatype Target = NoVersion | Version(release: Release)

  datatype Constraint = Constraint(parent: string, range: seq<Clause>)

  datatype Advice = ChangeRoot | UpgradeParent(parent: string) | StayInRange

  datatype Verdict = Verdict(safe: bool, alternatives: seq<Advice>)

  function AdviceFor(parent: string): Advice {
    if parent == "root" then ChangeRoot else UpgradeParent(parent)
  }

  ghost predicate Excludes(cs: seq<Constraint>, parent: string, w: Release) {
    exists c | c in cs :: c.parent == parent && !Admits(c.range, w)
  }

  /** The parents whose range leaves the release out, each once. */
  method Conflicting(cs: seq<Constraint>, w: Release) returns (parents: seq<string>)
    ensures forall p :: p in parents <==> Excludes(cs, p, w)
    ensures forall i, j | 0 <= i < j < |parents| :: parents[i] != parents[j]
  {
    parents := [];
    var i := 0;
    while i < |cs|
      invariant i <= |cs|
      invariant forall p :: p in parents <==> Excludes(cs[..i], p, w)
      invariant forall a, b | 0 <= a < b < |parents| :: parents[a] != parents[b]
    {
      assert cs[..i + 1] == cs[..i] + [cs[i]];
      if !Admits(cs[i].range, w) && cs[i].parent !in parents {
        parents := parents + [cs[i].parent];
      }
      i := i + 1;
    }
    assert cs[..i] == cs;
  }

  /** The parents that leave the release out, each once and in order. */
  ghost predicate Names(named: seq<string>, cs: seq<Constraint>, w: Release) {
    && (forall p :: p in named <==> Excludes(cs, p, w))
    && (forall i, j | 0 <= i < j < |named| :: LexLe(named[i], named[j]) && named[i] != named[j])
  }

  function AdviceOn(named: seq<string>): seq<Advice> {
    seq(|named|, i requires 0 <= i < |named| => AdviceFor(named[i])) + [StayInRange]
  }

  method Conflicts(cs: seq<Constraint>, w: Release) returns (named: seq<string>)
    ensures Names(named, cs, w)
  {
    var parents := Conflicting(cs, w);
    named := Sort(parents, LexLe);
    LexIsTotalPreorder();
    SortSorts(parents, LexLe);
    forall p: string ensures p in named <==> p in parents {
      assert p in multiset(named) <==> p in multiset(parents);
    }
    forall i, j | 0 <= i < j < |named| ensures named[i] != named[j] {
      DistinctCount(parents, named[i]);
      CountDistinct(named, i, j);
    }
  }

  /** An upgrade is reported safe exactly when every range admits it, or it is no version;
      otherwise the advice names exactly the parents whose range leaves it out. */
  method ValidateRemediation(cs: seq<Constraint>, target: Target) returns (v: Verdict)
    ensures v.safe <==> target.NoVersion? || forall c | c in cs :: Admits(c.range, target.release)
    ensures v.safe ==> v.alternatives == []
    ensures !v.safe ==>
              exists named :: Names(named, cs, target.release) && v.alternatives == AdviceOn(named) && named != []
  {
    if target.NoVersion? {
      return Verdict(true, []);
    }
    var w := target.release;
    var i := 0;
    while i < |cs|
      invariant i <= |cs| && forall c | c in cs[..i] :: Admits(c.range, w)
    {
      if !Admits(cs[i].range, w) {
        var named := Conflicts(cs, w);
        assert cs[i] in cs && Excludes(cs, cs[i].parent, w);
        assert cs[i].parent in named;
        return Verdict(false, AdviceOn(named));
      }
      assert cs[..i + 1] == cs[..i] + [cs[i]];
      i := i + 1;
    }
    assert cs[..i] == cs;
    return Verdict(true, []);
  }

  /** The advice, entry by entry: to change the root's own range exactly if that leaves the release out, to
      upgrade a parent exactly if its range does, in the order of the names, and last to stay in the range. */
  lemma AdviceNamesExcluding(named: seq<string>, cs: seq<Constraint>, w: Release)
    requires Names(named, cs, w)
    ensures var a := AdviceOn(named);
            && (ChangeRoot in a <==> Excludes(cs, "root", w))
            && (forall p :: UpgradeParent(p) in a <==> p != "root" && Excludes(cs, p, w))
            && |a| == |named| + 1 && a[|named|] == StayInRange
            && (forall i | 0 <= i < |named| :: a[i] == ChangeRoot || a[i].UpgradeParent?)
            && (forall i, j | 0 <= i < j < |named| && a[i].UpgradeParent? && a[j].UpgradeParent? ::
                  LexLe(a[i].parent, a[j].parent) && a[i].parent != a[j].parent)
  {
    var a := AdviceOn(named);
    assert forall i | 0 <= i < |named| :: a[i] == AdviceFor(named[i]);
    forall p ensures p in named ==> AdviceFor(p) in a {
      if p in named {
        var i :| 0 <= i < |named| && named[i] == p;
        assert a[i] == AdviceFor(p);
      }
    }
    forall x | x in a ensures x == StayInRange || exists p | p in named :: x == AdviceFor(p) {
      var i :| 0 <= i < |a| && a[i] == x;
      assert i < |named| ==> named[i] in named && x == AdviceFor(named[i]);
    }
  }
}
