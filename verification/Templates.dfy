/** Command templates (`plugins.py`): placeholders `{name}` and `{name:default}`, replaced in a
    single pass. */
module Templates {
  import opened Sanitizing
  import Text

  // ------------------------------------------------------------------ placeholders

  datatype Default = NoDefault | Default(text: string)

  datatype Hole = Hole(name: string, default: Default)

  datatype Segment = Literal(c: char) | Placeholder(hole: Hole)

  predicate IsWord(c: char) { 'a' <= c <= 'z' || 'A' <= c <= 'Z' || '0' <= c <= '9' || c == '_' }

  /** The end of the longest run of word characters from `i` on. */
  function WordEnd(s: string, i: nat): (end: nat)
    requires i <= |s|
    ensures i <= end <= |s| && (forall k | i <= k < end :: IsWord(s[k])) && (end < |s| ==> !IsWord(s[end]))
    decreases |s| - i
  {
    if i < |s| && IsWord(s[i]) then WordEnd(s, i + 1) else i
  }

  /** The first closing brace from `i` on, or the end. */
  function CloseAt(s: string, i: nat): (end: nat)
    requires i <= |s|
    ensures i <= end <= |s| && (forall k | i <= k < end :: s[k] != '}') && (end < |s| ==> s[end] == '}')
    decreases |s| - i
  {
    if i < |s| && s[i] != '}' then CloseAt(s, i + 1) else i
  }

  datatype Match = NoMatch | Match(hole: Hole, length: nat)

  /** Whether the placeholder pattern matches at the start of `s`. */
  function MatchAtStart(s: string): (m: Match)
    ensures m.Match? ==> 0 < m.length <= |s|
  {
    if s == [] || s[0] != '{' then NoMatch
    else
      var j := WordEnd(s, 1);
      if j == 1 || j == |s| then NoMatch
      else if s[j] == '}' then Match(Hole(s[1..j], NoDefault), j + 1)
      else if s[j] != ':' then NoMatch
      else
        var k := CloseAt(s, j + 1);
        if k == j + 1 || k == |s| then NoMatch
        else Match(Hole(s[1..j], Default(s[j + 1..k])), k + 1)
  }

  function Spelled(h: Hole): string {
    "{" + h.name + (if h.default.Default? then ":" + h.default.text else "") + "}"
  }

  predicate WellFormed(h: Hole) {
    && h.name != [] && (forall c | c in h.name :: IsWord(c))
    && (h.default.Default? ==> h.default.text != [] && '}' !in h.default.text)
  }

  lemma MatchSpells(s: string)
    requires MatchAtStart(s).Match?
    ensures s[..MatchAtStart(s).length] == Spelled(MatchAtStart(s).hole) && WellFormed(MatchAtStart(s).hole)
  {
    var j := WordEnd(s, 1);
    assert s[..j] == [s[0]] + s[1..j];
    if s[j] == ':' {
      var k := CloseAt(s, j + 1);
      SplitTwice(s, j, k);
    }
  }

  lemma SplitTwice(s: string, j: nat, k: nat)
    requires j < k < |s|
    ensures s[..k + 1] == s[..j] + ([s[j]] + s[j + 1..k]) + [s[k]]
  {}

  /** The segments of a token, split at the left-most placeholders. */
  function Segments(s: string): seq<Segment> {
    if s == [] then []
    else
      var m := MatchAtStart(s);
      if m.Match? then [Placeholder(m.hole)] + Segments(s[m.length..])
      else [Literal(s[0])] + Segments(s[1..])
  }

  function SegmentText(g: Segment): string { if g.Literal? then [g.c] else Spelled(g.hole) }

  function SpelledOut(segs: seq<Segment>): string {
    if segs == [] then "" else SegmentText(segs[0]) + SpelledOut(segs[1..])
  }

  lemma SpelledStep(g: Segment, segs: seq<Segment>)
    ensures SpelledOut([g] + segs) == SegmentText(g) + SpelledOut(segs)
  {
    assert ([g] + segs)[1..] == segs;
  }

  /** Splitting a token into segments loses nothing. */
  lemma {:induction false} SegmentsSpellToken(s: string)
    ensures SpelledOut(Segments(s)) == s
  {
    if s == [] {
    } else {
      var m := MatchAtStart(s);
      if m.Match? {
        SegmentsSpellToken(s[m.length..]);
        MatchSpells(s);
        SpelledStep(Placeholder(m.hole), Segments(s[m.length..]));
        assert s == s[..m.length] + s[m.length..];
      } else {
        SegmentsSpellToken(s[1..]);
        SpelledStep(Literal(s[0]), Segments(s[1..]));
        assert s == [s[0]] + s[1..];
      }
    }
  }

  /** No literal opens a brace, so that the placeholders are the only ones. */
  predicate Plain(segs: seq<Segment>) { forall g | g in segs :: PlainSegment(g) }

  predicate PlainSegment(g: Segment) { if g.Literal? then g.c != '{' else WellFormed(g.hole) }

  lemma WordEndIs(s: string, i: nat, end: nat)
    requires i <= end < |s| && (forall k | i <= k < end :: IsWord(s[k])) && !IsWord(s[end])
    ensures WordEnd(s, i) == end
  {}

  lemma CloseAtIs(s: string, i: nat, end: nat)
    requires i <= end < |s| && (forall k | i <= k < end :: s[k] != '}') && s[end] == '}'
    ensures CloseAt(s, i) == end
  {}

  lemma NameRead(s: string, name: string)
    requires name != [] && (forall c | c in name :: IsWord(c))
    requires |s| > |name| + 1 && s[1..|name| + 1] == name && !IsWord(s[|name| + 1])
    ensures WordEnd(s, 1) == |name| + 1
  {
    var n := |name|;
    forall k | 1 <= k < n + 1 ensures IsWord(s[k]) {
      assert s[1..n + 1][k - 1] == name[k - 1];
    }
    WordEndIs(s, 1, n + 1);
  }

  lemma DefaultRead(s: string, i: nat, text: string)
    requires '}' !in text && i + |text| < |s| && s[i..i + |text|] == text && s[i + |text|] == '}'
    ensures CloseAt(s, i) == i + |text|
  {
    forall k | i <= k < i + |text| ensures s[k] != '}' {
      assert s[i..i + |text|][k - i] == text[k - i];
    }
    CloseAtIs(s, i, i + |text|);
  }

  lemma SpelledMatches(h: Hole, rest: string)
    requires WellFormed(h)
    ensures MatchAtStart(Spelled(h) + rest) == Match(h, |Spelled(h)|)
  {
    var s, n := Spelled(h) + rest, |h.name|;
    assert s[1..n + 1] == h.name;
    if h.default.Default? {
      var d := h.default.text;
      assert s[0] == '{' && s[n + 1] == ':' && s[n + 2 + |d|] == '}';
      assert s[n + 2..n + 2 + |d|] == d;
      NameRead(s, h.name);
      DefaultRead(s, n + 2, d);
    } else {
      assert s[0] == '{' && s[n + 1] == '}';
      NameRead(s, h.name);
    }
  }

  lemma FirstSegment(g: Segment, rest: string)
    requires PlainSegment(g)
    ensures Segments(SegmentText(g) + rest) == [g] + Segments(rest)
  {
    var s := SegmentText(g) + rest;
    assert s[|SegmentText(g)|..] == rest;
    if g.Placeholder? {
      SpelledMatches(g.hole, rest);
    }
  }

  /** Splitting is inverse to spelling out: every sequence of segments without stray opening braces
      is what its own text splits into. */
  lemma {:induction false} SegmentsRecovered(segs: seq<Segment>)
    requires Plain(segs)
    ensures Segments(SpelledOut(segs)) == segs
  {
    if segs == [] {
    } else {
      SegmentsRecovered(segs[1..]);
      FirstSegment(segs[0], SpelledOut(segs[1..]));
    }
  }

  // ------------------------------------------------------------------ interpolation

  datatype Value = Null | Str(text: string) | Other(shown: string, truthy: bool)

  type Inputs = map<string, Value>

  datatype Rendered = Dropped | Argument(text: string)

  /** The default counts only for a name that is not among the inputs. */
  function Lookup(h: Hole, inputs: Inputs): Value {
    if h.name in inputs then inputs[h.name]
    else if h.default.Default? then Str(h.default.text)
    else Null
  }

  predicate Missing(v: Value) { v.Null? || v == Str("") }

  function Shown(v: Value): string {
    match v
    case Null => "None"
    case Str(text) => text
    case Other(shown, _) => shown
  }

  function Inserted(h: Hole, inputs: Inputs): string { Sanitize(Shown(Lookup(h, inputs))) }

  function Values(inputs: Inputs): Hole -> string { h => Inserted(h, inputs) }

  function Holes(segs: seq<Segment>): seq<Hole> {
    if segs == [] then []
    else (if segs[0].Placeholder? then [segs[0].hole] else []) + Holes(segs[1..])
  }

  /** All placeholders replaced at once. */
  function Filled(segs: seq<Segment>, value: Hole -> string): string {
    if segs == [] then ""
    else (if segs[0].Literal? then [segs[0].c] else value(segs[0].hole)) + Filled(segs[1..], value)
  }

  /** What interpolating a token means: the token disappears if a placeholder has no value. */
  function Meaning(token: string, inputs: Inputs): Rendered {
    if exists h | h in Holes(Segments(token)) :: Missing(Lookup(h, inputs)) then Dropped
    else Argument(Filled(Segments(token), Values(inputs)))
  }

  lemma SplitOff(s: string, value: Hole -> string)
    requires s != []
    ensures MatchAtStart(s).Match? ==>
              var h, rest := MatchAtStart(s).hole, Segments(s[MatchAtStart(s).length..]);
              && Holes(Segments(s)) == [h] + Holes(rest)
              && Filled(Segments(s), value) == value(h) + Filled(rest, value)
    ensures MatchAtStart(s).NoMatch? ==>
              var rest := Segments(s[1..]);
              && Holes(Segments(s)) == Holes(rest)
              && Filled(Segments(s), value) == [s[0]] + Filled(rest, value)
  {
    var m := MatchAtStart(s);
    if m.Match? {
      assert Segments(s)[1..] == Segments(s[m.length..]);
    } else {
      assert Segments(s)[1..] == Segments(s[1..]);
    }
  }

  method FindAll(token: string) returns (holes: seq<Hole>)
    ensures holes == Holes(Segments(token))
  {
    holes := [];
    var rest := token;
    ghost var all := Holes(Segments(token));
    while rest != []
      invariant holes + Holes(Segments(rest)) == all
      decreases |rest|
    {
      var m := MatchAtStart(rest);
      SplitOff(rest, h => "");
      if m.Match? {
        holes := holes + [m.hole];
        rest := rest[m.length..];
      } else {
        rest := rest[1..];
      }
    }
  }

  method Replacement(h: Hole, inputs: Inputs) returns (text: string)
    ensures text == Values(inputs)(h)
  {
    text := SanitizeInput(Shown(Lookup(h, inputs)));
  }

  /** The replacement of what comes first, and how much of the token it stands for. */
  method NextPiece(s: string, inputs: Inputs) returns (piece: string, n: nat)
    requires s != []
    ensures 0 < n <= |s|
    ensures Filled(Segments(s), Values(inputs)) == piece + Filled(Segments(s[n..]), Values(inputs))
  {
    var m := MatchAtStart(s);
    SplitOff(s, Values(inputs));
    if m.Match? {
      n := m.length;
      piece := Replacement(m.hole, inputs);
    } else {
      n := 1;
      piece := [s[0]];
    }
  }

  method Substitute(token: string, inputs: Inputs) returns (out: string)
    ensures out == Filled(Segments(token), Values(inputs))
  {
    out := "";
    var rest := token;
    ghost var whole := Filled(Segments(token), Values(inputs));
    while rest != []
      invariant out + Filled(Segments(rest), Values(inputs)) == whole
      decreases |rest|
    {
      var piece, n := NextPiece(rest, inputs);
      ghost var tail := Filled(Segments(rest[n..]), Values(inputs));
      assert out + (piece + tail) == (out + piece) + tail;
      out, rest := out + piece, rest[n..];
    }
  }

  lemma {:induction false} NoBraceNoHole(s: string, value: Hole -> string)
    requires '{' !in s || '}' !in s
    ensures Holes(Segments(s)) == [] && Filled(Segments(s), value) == s
  {
    if s == [] {
    } else {
      NoBraceNoHole(s[1..], value);
      if MatchAtStart(s).Match? {
        MatchHasBraces(s);
      }
      assert Segments(s)[1..] == Segments(s[1..]);
    }
  }

  lemma MatchHasBraces(s: string)
    requires MatchAtStart(s).Match?
    ensures '{' in s && '}' in s
  {
    MatchSpells(s);
    var n := MatchAtStart(s).length;
    var p := s[..n];
    assert p[0] == '{' && p[n - 1] == '}';
    assert s[0] == p[0] && s[n - 1] == p[n - 1];
  }

  method AnyMissing(holes: seq<Hole>, inputs: Inputs) returns (missing: bool)
    ensures missing <==> exists h | h in holes :: Missing(Lookup(h, inputs))
  {
    var i := 0;
    while i < |holes|
      invariant i <= |holes| && forall k | 0 <= k < i :: !Missing(Lookup(holes[k], inputs))
    {
      if Missing(Lookup(holes[i], inputs)) {
        return true;
      }
      i := i + 1;
    }
    return false;
  }

  /** A token without braces stands for itself. */
  lemma MeaningWithoutBraces(token: string, inputs: Inputs)
    requires '{' !in token || '}' !in token
    ensures Meaning(token, inputs) == Argument(token)
  {
    NoBraceNoHole(token, Values(inputs));
  }

  method Interpolate(token: string, inputs: Inputs) returns (r: Rendered)
    ensures r == Meaning(token, inputs)
  {
    if '{' !in token || '}' !in token {
      MeaningWithoutBraces(token, inputs);
      return Argument(token);
    }
    var holes := FindAll(token);
    var missing := AnyMissing(holes, inputs);
    if missing {
      return Dropped;
    }
    var text := Substitute(token, inputs);
    r := Argument(text);
  }

  /** The underscore, a digit or an ASCII letter in either case. */
  predicate InName(c: char) { c == '_' || '0' <= c <= '9' || 'a' <= Text.LowerChar(c) <= 'z' }

  /** Braces around anything but a name are no placeholder. */
  lemma NoNameStays(text: string, inputs: Inputs)
    requires '{' !in text && '}' !in text && ':' !in text
    requires text == "" || exists c | c in text :: !InName(c)
    ensures Meaning("{" + text + "}", inputs) == Argument("{" + text + "}")
  {
    var s := "{" + text + "}";
    var n := |text|;
    assert s[1..] == text + "}" && '{' !in s[1..];
    NoBraceNoHole(s[1..], Values(inputs));
    if c :| c in text && !InName(c) {
      var k :| 0 <= k < n && text[k] == c;
      assert s[k + 1] == c && !IsWord(c);
    }
    assert forall i | 1 <= i < n + 1 :: s[i] == text[i - 1];
    SplitOff(s, Values(inputs));
    assert s == [s[0]] + s[1..];
  }

  /** A token that is one placeholder.  A value among the inputs is shown whatever the default says, and a
      null or empty one drops the token; the default counts only for a name that is not among the inputs. */
  lemma PlaceholderShows(name: string, d: string, inputs: Inputs)
    requires name != "" && (forall c | c in name :: InName(c)) && d != "" && '}' !in d
    ensures var bare, defaulted := Meaning("{" + name + "}", inputs), Meaning("{" + name + ":" + d + "}", inputs);
            if name in inputs then
              && bare == defaulted
              && match inputs[name]
                 case Null => bare == Dropped
                 case Str(text) => bare == if text == "" then Dropped else Argument(Sanitize(text))
                 case Other(shown, _) => bare == Argument(Sanitize(shown))
            else
              bare == Dropped && defaulted == Argument(Sanitize(d))
  {
    OneHole(Hole(name, NoDefault), inputs);
    OneHole(Hole(name, Default(d)), inputs);
    assert "{" + name + "" + "}" == "{" + name + "}";
    assert "{" + name + (":" + d) + "}" == "{" + name + ":" + d + "}";
  }

  lemma OneHole(h: Hole, inputs: Inputs)
    requires WellFormed(h)
    ensures Meaning(Spelled(h), inputs)
         == if Missing(Lookup(h, inputs)) then Dropped else Argument(Sanitize(Shown(Lookup(h, inputs))))
  {
    var segs := [Placeholder(h)];
    FirstSegment(segs[0], "");
    assert Spelled(h) + "" == Spelled(h);
    assert Segments(Spelled(h)) == segs && segs[1..] == [];
    assert Holes(segs) == [h] + Holes(segs[1..]);
    assert Filled(segs, Values(inputs)) == Inserted(h, inputs) + Filled(segs[1..], Values(inputs));
    assert Holes(segs) == [h] && h in Holes(segs);
    assert Filled(segs, Values(inputs)) == Inserted(h, inputs);
  }

  // -------------------------------------------------- what values can put into arguments

  /** The forbidden characters of a string, in order. */
  function Dangerous(s: string): string {
    if s == [] then [] else (if Forbidden(s[0]) then [s[0]] else []) + Dangerous(s[1..])
  }

  function LiteralText(segs: seq<Segment>): string {
    if segs == [] then "" else (if segs[0].Literal? then [segs[0].c] else "") + LiteralText(segs[1..])
  }

  lemma {:induction false} DangerousJoined(a: string, b: string)
    ensures Dangerous(a + b) == Dangerous(a) + Dangerous(b)
  {
    if a == [] {
      assert a + b == b;
    } else {
      DangerousJoined(a[1..], b);
      assert (a + b)[1..] == a[1..] + b;
    }
  }

  lemma {:induction false} CleanIsNotDangerous(s: string)
    requires forall c | c in s :: !Forbidden(c)
    ensures Dangerous(s) == []
  {
    if s == [] {
    } else {
      CleanIsNotDangerous(s[1..]);
    }
  }

  /** The forbidden characters of a filled-in token are exactly those of the template's own text:
      values contribute none. */
  lemma {:induction false} DangerComesFromTemplate(segs: seq<Segment>, inputs: Inputs)
    ensures Dangerous(Filled(segs, Values(inputs))) == Dangerous(LiteralText(segs))
  {
    if segs == [] {
    } else {
      var value := Values(inputs);
      DangerComesFromTemplate(segs[1..], inputs);
      var head := if segs[0].Literal? then [segs[0].c] else value(segs[0].hole);
      var literal := if segs[0].Literal? then [segs[0].c] else "";
      DangerousJoined(head, Filled(segs[1..], value));
      DangerousJoined(literal, LiteralText(segs[1..]));
      if segs[0].Placeholder? {
        SanitizedIsClean(Shown(Lookup(segs[0].hole, inputs)));
        CleanIsNotDangerous(head);
      }
    }
  }
}
