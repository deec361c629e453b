/** Why placeholders are replaced in one pass (`plugins.py`): replacing them one after the other
    would read inserted text again. */
module Rescanning {
  import opened Templates

  /** `str.replace`: every left-most occurrence. */
  function ReplaceAll(t: string, old_: string, new_: string): string
    requires old_ != ""
  {
    if t == "" then ""
    else if old_ <= t then new_ + ReplaceAll(t[|old_|..], old_, new_)
    else [t[0]] + ReplaceAll(t[1..], old_, new_)
  }

  /** Replacing the placeholders in turn, each in the text that the one before it left. */
  function InTurn(t: string, holes: seq<Hole>, value: Hole -> string): string
    decreases holes
  {
    if holes == [] then t
    else InTurn(ReplaceAll(t, Spelled(holes[0]), value(holes[0])), holes[1..], value)
  }

  // ------------------------------------------------------- one replacement, by segments

  predicate Simple(h: Hole) { WellFormed(h) && (h.default.Default? ==> '{' !in h.default.text) }

  /** No brace is opened but by a placeholder. */
  predicate AllSimple(segs: seq<Segment>) {
    forall g | g in segs :: if g.Literal? then g.c != '{' else Simple(g.hole)
  }

  function Literals(s: string): seq<Segment> { seq(|s|, i requires 0 <= i < |s| => Literal(s[i])) }

  function Put(segs: seq<Segment>, h: Hole, v: string): seq<Segment> {
    if segs == [] then []
    else (if segs[0] == Placeholder(h) then Literals(v) else [segs[0]]) + Put(segs[1..], h, v)
  }

  lemma PrependChar(s: string, t: string)
    requires s != ""
    ensures [s[0]] + (s[1..] + t) == s + t
  {}

  lemma {:induction false} LiteralsSpell(s: string, rest: seq<Segment>)
    ensures SpelledOut(Literals(s) + rest) == s + SpelledOut(rest)
  {
    if s == "" {
      assert Literals(s) + rest == rest;
    } else {
      var tail := Literals(s[1..]) + rest;
      LiteralsSpell(s[1..], rest);
      SpelledStep(Literal(s[0]), tail);
      PrependChar(s, SpelledOut(rest));
      assert Literals(s) + rest == [Literal(s[0])] + tail;
    }
  }

  lemma FilledStep(g: Segment, segs: seq<Segment>, value: Hole -> string)
    ensures Filled([g] + segs, value) == (if g.Literal? then [g.c] else value(g.hole)) + Filled(segs, value)
  {
    assert ([g] + segs)[1..] == segs;
  }

  lemma {:induction false} LiteralsFill(s: string, rest: seq<Segment>, value: Hole -> string)
    ensures Filled(Literals(s) + rest, value) == s + Filled(rest, value)
  {
    if s == "" {
      assert Literals(s) + rest == rest;
    } else {
      var tail := Literals(s[1..]) + rest;
      LiteralsFill(s[1..], rest, value);
      assert Literals(s) + rest == [Literal(s[0])] + tail;
      FilledStep(Literal(s[0]), tail, value);
      PrependChar(s, Filled(rest, value));
    }
  }

  lemma {:induction false} PassesOver(u: string, rest: string, p: string, v: string)
    requires p != "" && p[0] == '{' && '{' !in u
    ensures ReplaceAll(u + rest, p, v) == u + ReplaceAll(rest, p, v)
  {
    if u == "" {
      assert u + rest == rest;
    } else {
      PassesOver(u[1..], rest, p, v);
      assert (u + rest)[1..] == u[1..] + rest && (u + rest)[0] == u[0];
    }
  }

  lemma PrefixIsSame(h: Hole, other: Hole, rest: string)
    requires WellFormed(h) && WellFormed(other) && Spelled(h) <= Spelled(other) + rest
    ensures h == other
  {
    var t := Spelled(other) + rest;
    var tail := t[|Spelled(h)|..];
    SpelledMatches(other, rest);
    SpelledMatches(h, tail);
    assert t == Spelled(h) + tail;
  }

  lemma BodyHasNoBrace(h: Hole)
    requires Simple(h)
    ensures '{' !in Spelled(h)[1..]
  {
    assert Spelled(h)[1..] == h.name + (if h.default.Default? then ":" + h.default.text else "") + "}";
    assert forall c | c in h.name :: c != '{';
  }

  lemma OtherPassed(h: Hole, other: Hole, rest: string, v: string)
    requires WellFormed(h) && Simple(other) && h != other
    ensures ReplaceAll(Spelled(other) + rest, Spelled(h), v) == Spelled(other) + ReplaceAll(rest, Spelled(h), v)
  {
    if Spelled(h) <= Spelled(other) + rest {
      PrefixIsSame(h, other, rest);
    }
    BodyHasNoBrace(other);
    var t := Spelled(other) + rest;
    assert t[1..] == Spelled(other)[1..] + rest && t[0] == Spelled(other)[0];
    PassesOver(Spelled(other)[1..], rest, Spelled(h), v);
    assert Spelled(other) == [t[0]] + Spelled(other)[1..];
  }

  lemma SamePut(h: Hole, rest: string, v: string)
    ensures ReplaceAll(Spelled(h) + rest, Spelled(h), v) == v + ReplaceAll(rest, Spelled(h), v)
  {
    assert (Spelled(h) + rest)[|Spelled(h)|..] == rest;
  }

  /** Replacing a placeholder's text replaces exactly its segments. */
  lemma {:induction false} ReplaceIsPut(segs: seq<Segment>, h: Hole, v: string)
    requires AllSimple(segs) && WellFormed(h)
    ensures ReplaceAll(SpelledOut(segs), Spelled(h), v) == SpelledOut(Put(segs, h, v))
  {
    if segs == [] {
    } else {
      var g, rest := segs[0], SpelledOut(segs[1..]);
      assert g in segs;
      ReplaceIsPut(segs[1..], h, v);
      if g == Placeholder(h) {
        SamePut(h, rest, v);
        LiteralsSpell(v, Put(segs[1..], h, v));
      } else {
        SpelledStep(g, Put(segs[1..], h, v));
        if g.Placeholder? {
          OtherPassed(h, g.hole, rest, v);
        } else {
          PassesOver([g.c], rest, Spelled(h), v);
        }
      }
    }
  }

  // --------------------------------------------------------- agreement, and its absence

  lemma {:induction false} PutKeepsFilled(segs: seq<Segment>, h: Hole, value: Hole -> string)
    ensures Filled(Put(segs, h, value(h)), value) == Filled(segs, value)
  {
    if segs == [] {
    } else {
      PutKeepsFilled(segs[1..], h, value);
      if segs[0] == Placeholder(h) {
        LiteralsFill(value(h), Put(segs[1..], h, value(h)), value);
      } else {
        assert ([segs[0]] + Put(segs[1..], h, value(h)))[1..] == Put(segs[1..], h, value(h));
      }
    }
  }

  lemma {:induction false} PutRemoves(segs: seq<Segment>, h: Hole, v: string)
    requires AllSimple(segs) && '{' !in v
    ensures AllSimple(Put(segs, h, v))
    ensures forall g | g in Put(segs, h, v) :: g.Placeholder? ==> g in segs && g.hole != h
  {
    if segs == [] {
    } else {
      PutRemoves(segs[1..], h, v);
      assert segs == [segs[0]] + segs[1..];
      assert forall g | g in Literals(v) :: g.Literal? && g.c in v;
    }
  }

  lemma {:induction false} NoneLeft(segs: seq<Segment>, value: Hole -> string)
    requires forall g | g in segs :: g.Literal?
    ensures SpelledOut(segs) == Filled(segs, value)
  {
    if segs == [] {
    } else {
      assert segs[0] in segs && forall g | g in segs[1..] :: g in segs;
      NoneLeft(segs[1..], value);
    }
  }

  lemma {:induction false} InTurnFills(segs: seq<Segment>, holes: seq<Hole>, value: Hole -> string)
    requires AllSimple(segs)
    requires forall h | h in holes :: WellFormed(h) && '{' !in value(h)
    requires forall g | g in segs :: g.Placeholder? ==> g.hole in holes
    ensures InTurn(SpelledOut(segs), holes, value) == Filled(segs, value)
    decreases holes
  {
    if holes == [] {
      NoneLeft(segs, value);
    } else {
      var h, next := holes[0], Put(segs, holes[0], value(holes[0]));
      assert h in holes && forall k | k in holes[1..] :: k in holes;
      ReplaceIsPut(segs, h, value(h));
      PutRemoves(segs, h, value(h));
      PutKeepsFilled(segs, h, value);
      forall g | g in next && g.Placeholder? ensures g.hole in holes[1..] {
        assert g.hole in holes && g.hole != h;
        assert holes == [h] + holes[1..];
      }
      InTurnFills(next, holes[1..], value);
    }
  }

  lemma {:induction false} HolesAreListed(segs: seq<Segment>)
    ensures forall h :: h in Holes(segs) <==> Placeholder(h) in segs
  {
    if segs == [] {
    } else {
      HolesAreListed(segs[1..]);
      assert segs == [segs[0]] + segs[1..];
    }
  }

  /** Without opening braces in values, literals and defaults, replacing in turn and replacing in one
      pass agree. */
  lemma InTurnAgrees(token: string, value: Hole -> string)
    requires AllSimple(Segments(token))
    requires forall h | h in Holes(Segments(token)) :: '{' !in value(h)
    ensures InTurn(token, Holes(Segments(token)), value) == Filled(Segments(token), value)
  {
    var segs := Segments(token);
    HolesAreListed(segs);
    SegmentsSpellToken(token);
    forall h | h in Holes(segs) ensures WellFormed(h) {
      assert Placeholder(h) in segs;
    }
    forall g | g in segs ensures g.Placeholder? ==> g.hole in Holes(segs) {
      assert g.Placeholder? ==> g == Placeholder(g.hole);
    }
    InTurnFills(segs, Holes(segs), value);
  }

  lemma TwoHoles(a: Hole, b: Hole, value: Hole -> string)
    ensures var segs := [Placeholder(a), Placeholder(b)];
            && SpelledOut(segs) == Spelled(a) + Spelled(b)
            && Filled(segs, value) == value(a) + value(b) && Holes(segs) == [a, b]
  {
    var segs := [Placeholder(a), Placeholder(b)];
    assert segs[1..] == [Placeholder(b)] && segs[1..][1..] == [];
    assert SpelledOut([Placeholder(b)]) == Spelled(b) + "" && Filled([Placeholder(b)], value) == value(b) + "";
    assert Holes([Placeholder(b)]) == [b] + [];
  }

  lemma FirstReplaced(a: Hole, b: Hole, v: string)
    requires Simple(a) && Simple(b) && a != b
    ensures ReplaceAll(Spelled(a) + Spelled(b), Spelled(a), v) == v + Spelled(b)
  {
    SamePut(a, Spelled(b), v);
    OtherPassed(a, b, "", v);
    assert Spelled(b) + "" == Spelled(b);
  }

  lemma BothReplaced(b: Hole, v: string)
    ensures ReplaceAll(Spelled(b) + Spelled(b), Spelled(b), v) == v + v
  {
    SamePut(b, Spelled(b), v);
    SamePut(b, "", v);
    assert Spelled(b) + "" == Spelled(b) && v + "" == v;
  }

  /** A value that spells another placeholder makes them differ: in turn, it is replaced as well;
      in one pass, it stays as it is. */
  lemma InTurnRescans(a: Hole, b: Hole, value: Hole -> string)
    requires Simple(a) && Simple(b) && a != b && value(a) == Spelled(b)
    ensures var token := Spelled(a) + Spelled(b);
            && Holes(Segments(token)) == [a, b]
            && InTurn(token, [a, b], value) == value(b) + value(b)
            && Filled(Segments(token), value) == Spelled(b) + value(b)
  {
    TwoHoles(a, b, value);
    SegmentsRecovered([Placeholder(a), Placeholder(b)]);
    FirstReplaced(a, b, Spelled(b));
    BothReplaced(b, value(b));
    InTurnTwo(Spelled(a) + Spelled(b), a, b, value);
  }

  lemma InTurnTwo(t: string, a: Hole, b: Hole, value: Hole -> string)
    ensures InTurn(t, [a, b], value) == ReplaceAll(ReplaceAll(t, Spelled(a), value(a)), Spelled(b), value(b))
  {
    assert [a, b][1..] == [b] && [b][1..] == [];
    var once := ReplaceAll(t, Spelled(a), value(a));
    assert InTurn(t, [a, b], value) == InTurn(once, [b], value);
    assert InTurn(once, [b], value) == InTurn(ReplaceAll(once, Spelled(b), value(b)), [], value);
  }
}
