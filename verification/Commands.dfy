/** Rendering a command template to an argument list (`plugins.py`), with conditional tokens
    `--if:<name>:then:<parts>[:else:<parts>]`. */
module Commands {
  import opened Sanitizing
  import opened Templates
  import Text

  // ----------------------------------------------------------------- splitting at colons

  function Split(s: string): (parts: seq<string>)
    ensures parts != []
  {
    if s == "" then [""]
    else
      var rest := Split(s[1..]);
      if s[0] == ':' then [""] + rest else [[s[0]] + rest[0]] + rest[1..]
  }

  function Join(parts: seq<string>): string
    requires parts != []
  {
    if |parts| == 1 then parts[0] else parts[0] + ":" + Join(parts[1..])
  }

  lemma {:induction false} SplitFirst(first: string, rest: string)
    requires ':' !in first
    ensures Split(first + ":" + rest) == [first] + Split(rest)
  {
    var s := first + ":" + rest;
    if first == "" {
      assert s[1..] == rest;
    } else {
      SplitFirst(first[1..], rest);
      assert s[1..] == first[1..] + ":" + rest;
      assert [s[0]] + first[1..] == first;
    }
  }

  lemma {:induction false} SplitOne(s: string)
    requires ':' !in s
    ensures Split(s) == [s]
  {
    if s == "" {
    } else {
      SplitOne(s[1..]);
      assert [s[0]] + s[1..] == s;
    }
  }

  /** Splitting recovers the parts of a joined token. */
  lemma {:induction false} SplitJoined(parts: seq<string>)
    requires parts != [] && forall p | p in parts :: ':' !in p
    ensures Split(Join(parts)) == parts
  {
    if |parts| == 1 {
      SplitOne(parts[0]);
    } else {
      SplitJoined(parts[1..]);
      SplitFirst(parts[0], Join(parts[1..]));
    }
  }

  // ------------------------------------------------------------------ conditional tokens

  /** The truth of an input; the word "false" counts as false, and so does a name without input. */
  predicate Condition(name: string, inputs: Inputs) {
    name in inputs &&
    match inputs[name]
    case Null => false
    case Str(text) => text != "" && Text.Lower(text) != "false"
    case Other(_, truthy) => truthy
  }

  /** The first index of `part`, or the number of parts. */
  function IndexOf(parts: seq<string>, part: string): (i: nat)
    ensures i <= |parts| && part !in parts[..i] && (i < |parts| ==> parts[i] == part)
  {
    if parts == [] || parts[0] == part then 0 else 1 + IndexOf(parts[1..], part)
  }

  /** The parts of a conditional token that are rendered. */
  function Active(token: string, inputs: Inputs): seq<string> {
    var parts := Split(token);
    if |parts| < 4 || parts[2] != "then" then []
    else
      var e := IndexOf(parts, "else");
      if Condition(parts[1], inputs) then (if e <= 3 then [] else parts[3..e])
      else if e == |parts| then []
      else parts[e + 1..]
  }

  /** What each token or part gives, one after the other. */
  function Flat(tokens: seq<string>, gives: string -> seq<string>): seq<string> {
    if tokens == [] then [] else Flat(tokens[..|tokens| - 1], gives) + gives(tokens[|tokens| - 1])
  }

  lemma FlatStep(tokens: seq<string>, i: nat, gives: string -> seq<string>)
    requires i < |tokens|
    ensures Flat(tokens[..i + 1], gives) == Flat(tokens[..i], gives) + gives(tokens[i])
  {
    assert tokens[..i + 1][..i] == tokens[..i];
  }

  function RenderedParts(parts: seq<string>, inputs: Inputs): seq<string> {
    Flat(parts, part => One(Meaning(part, inputs)))
  }

  /** Neither a missing nor an empty argument is passed on. */
  function One(r: Rendered): seq<string> {
    if r.Dropped? || r.text == "" then [] else [r.text]
  }

  method RenderParts(parts: seq<string>, inputs: Inputs) returns (out: seq<string>)
    ensures out == RenderedParts(parts, inputs)
  {
    out := [];
    var i := 0;
    while i < |parts|
      invariant i <= |parts| && out == RenderedParts(parts[..i], inputs)
    {
      FlatStep(parts, i, part => One(Meaning(part, inputs)));
      var r := Interpolate(parts[i], inputs);
      if r.Argument? && r.text != "" {
        out := out + [r.text];
      }
      i := i + 1;
    }
    assert parts[..i] == parts;
  }

  method EvaluateConditionalToken(token: string, inputs: Inputs) returns (out: seq<string>)
    ensures out == RenderedParts(Active(token, inputs), inputs)
  {
    var parts := Split(token);
    if |parts| < 4 || parts[2] != "then" {
      return [];
    }
    var e := IndexOf(parts, "else");
    var thens := if e <= 3 then [] else parts[3..e];
    var elses := if e == |parts| then [] else parts[e + 1..];
    var active := if Condition(parts[1], inputs) then thens else elses;
    assert active == Active(token, inputs);
    out := RenderParts(active, inputs);
  }

  const IF: string := "--if:"

  function TokenArguments(token: string, inputs: Inputs): seq<string> {
    if IF <= token then RenderedParts(Active(token, inputs), inputs) else One(Meaning(token, inputs))
  }

  function Command(template: seq<string>, inputs: Inputs): seq<string> {
    Flat(template, token => TokenArguments(token, inputs))
  }

  method RenderToken(token: string, inputs: Inputs) returns (out: seq<string>)
    ensures out == TokenArguments(token, inputs)
  {
    if IF <= token {
      out := EvaluateConditionalToken(token, inputs);
    } else {
      var r := Interpolate(token, inputs);
      out := if r.Argument? && r.text != "" then [r.text] else [];
    }
  }

  method RenderCommandTokens(template: seq<string>, inputs: Inputs) returns (command: seq<string>)
    ensures command == Command(template, inputs)
  {
    command := [];
    var i := 0;
    while i < |template|
      invariant i <= |template| && command == Command(template[..i], inputs)
    {
      FlatStep(template, i, token => TokenArguments(token, inputs));
      var more := RenderToken(template[i], inputs);
      command := command + more;
      i := i + 1;
    }
    assert template[..i] == template;
  }

  // --------------------------------------------------------------- what conditionals mean

  lemma IndexIs(parts: seq<string>, i: nat, part: string)
    requires i <= |parts| && part !in parts[..i] && (i < |parts| ==> parts[i] == part)
    ensures IndexOf(parts, part) == i
  {}

  /** A conditional token renders its first parts if the condition holds, and otherwise those after
      the first "else"; a condition on an input called "else" is the exception below. */
  lemma ConditionalChooses(name: string, thens: seq<string>, elses: seq<string>, inputs: Inputs)
    requires forall p | p in [name] + thens + elses :: ':' !in p
    requires "else" !in [name] + thens
    ensures IF <= Join(["--if", name, "then"] + thens + ["else"] + elses)
    ensures Active(Join(["--if", name, "then"] + thens + ["else"] + elses), inputs)
         == if Condition(name, inputs) then thens else elses
  {
    var parts := ["--if", name, "then"] + thens + ["else"] + elses;
    forall p | p in parts ensures ':' !in p {
      assert p in [name] + thens + elses || p == "--if" || p == "then" || p == "else";
    }
    SplitJoined(parts);
    var e := 3 + |thens|;
    assert parts[..e] == ["--if", name, "then"] + thens;
    IndexIs(parts, e, "else");
    assert parts[3..e] == thens && parts[e + 1..] == elses;
  }

  lemma ConditionalWithoutElse(name: string, thens: seq<string>, inputs: Inputs)
    requires forall p | p in [name] + thens :: ':' !in p
    requires "else" !in [name] + thens && thens != []
    ensures IF <= Join(["--if", name, "then"] + thens)
    ensures Active(Join(["--if", name, "then"] + thens), inputs) == if Condition(name, inputs) then thens else []
  {
    var parts := ["--if", name, "then"] + thens;
    SplitJoined(parts);
    assert parts[..|parts|] == parts;
    IndexIs(parts, |parts|, "else");
    assert parts[3..] == thens;
  }

  /** The first "else" is looked for among all parts: a condition on an input of that name renders
      nothing when it holds, and the keyword "then" with all that follows when it does not. */
  lemma ConditionOnElse(rest: seq<string>, inputs: Inputs)
    requires rest != [] && forall p | p in rest :: ':' !in p
    ensures Active(Join(["--if", "else", "then"] + rest), inputs)
         == if Condition("else", inputs) then [] else ["then"] + rest
  {
    var parts := ["--if", "else", "then"] + rest;
    SplitJoined(parts);
    IndexIs(parts, 1, "else");
    assert parts[2..] == ["then"] + rest;
  }

  /** A conditional token means what it says for every input exactly if its condition is not on an input
      called "else". */
  lemma ConditionalRightIff(name: string, thens: seq<string>, elses: seq<string>)
    requires forall p | p in [name] + thens + elses :: ':' !in p
    requires "else" !in thens
    ensures (forall inputs :: Active(Join(["--if", name, "then"] + thens + ["else"] + elses), inputs)
                           == if Condition(name, inputs) then thens else elses)
            <==> name != "else"
  {
    var token := Join(["--if", name, "then"] + thens + ["else"] + elses);
    if name != "else" {
      forall inputs ensures Active(token, inputs) == if Condition(name, inputs) then thens else elses {
        ConditionalChooses(name, thens, elses, inputs);
      }
    } else {
      var rest, none: Inputs := thens + ["else"] + elses, map[];
      assert forall p | p in rest :: p in [name] + thens + elses || p == "else";
      ConditionOnElse(rest, none);
      assert ["--if", name, "then"] + thens + ["else"] + elses == ["--if", "else", "then"] + rest;
      assert |Active(token, none)| > |elses|;
    }
  }

  // ------------------------------------------------- defaults in conditional tokens

  lemma {:induction false} SplitHasNoColon(s: string)
    ensures forall p | p in Split(s) :: ':' !in p
  {
    if s == "" {
    } else {
      var rest := Split(s[1..]);
      SplitHasNoColon(s[1..]);
      assert rest[0] in rest && forall p | p in rest[1..] :: p in rest;
    }
  }

  lemma {:induction false} NoColonNoDefault(s: string)
    requires ':' !in s
    ensures forall h | h in Holes(Segments(s)) :: h.default.NoDefault?
  {
    if s == "" {
    } else {
      var m := MatchAtStart(s);
      SplitOff(s, h => "");
      if m.Match? {
        NoColonNoDefault(s[m.length..]);
        SpelledDefaultHasColon(s);
      } else {
        NoColonNoDefault(s[1..]);
      }
    }
  }

  lemma SpelledDefaultHasColon(s: string)
    requires MatchAtStart(s).Match? && ':' !in s
    ensures MatchAtStart(s).hole.default.NoDefault?
  {}

  /** A conditional token is split at every colon, also at those in front of a default: no placeholder
      of its pieces has one. */
  lemma NoDefaultsInConditionals(token: string, inputs: Inputs)
    requires IF <= token
    ensures forall p, h | p in Active(token, inputs) && h in Holes(Segments(p)) :: h.default.NoDefault?
  {
    ActiveArePieces(token, inputs);
    SplitHasNoColon(token);
    forall p | p in Active(token, inputs) ensures forall h | h in Holes(Segments(p)) :: h.default.NoDefault? {
      NoColonNoDefault(p);
    }
  }

  // ------------------------------------------------------------- what arguments can hold

  /** The pieces of a token that are interpolated. */
  function Pieces(token: string): seq<string> { if IF <= token then Split(token) else [token] }

  /** An argument is a filled-in piece of the template in which no placeholder lacks a value, it is
      not empty, and its forbidden characters are exactly those of the template's own text. */
  ghost predicate Clean(argument: string, piece: string, inputs: Inputs) {
    && argument != ""
    && (forall h | h in Holes(Segments(piece)) :: !Missing(Lookup(h, inputs)))
    && argument == Filled(Segments(piece), Values(inputs))
    && Dangerous(argument) == Dangerous(LiteralText(Segments(piece)))
  }

  lemma OneIsClean(piece: string, inputs: Inputs)
    ensures forall a | a in One(Meaning(piece, inputs)) :: Clean(a, piece, inputs)
  {
    DangerComesFromTemplate(Segments(piece), inputs);
  }

  lemma {:induction false} PartsAreClean(parts: seq<string>, inputs: Inputs)
    ensures forall a | a in RenderedParts(parts, inputs) :: exists p | p in parts :: Clean(a, p, inputs)
  {
    if parts == [] {
    } else {
      var n := |parts| - 1;
      PartsAreClean(parts[..n], inputs);
      OneIsClean(parts[n], inputs);
      forall a | a in RenderedParts(parts, inputs) ensures exists p | p in parts :: Clean(a, p, inputs) {
        if a in RenderedParts(parts[..n], inputs) {
          var p :| p in parts[..n] && Clean(a, p, inputs);
          assert p in parts;
        } else {
          assert parts[n] in parts && Clean(a, parts[n], inputs);
        }
      }
    }
  }

  lemma ActiveArePieces(token: string, inputs: Inputs)
    requires IF <= token
    ensures forall p | p in Active(token, inputs) :: p in Pieces(token)
  {}

  lemma TokenIsClean(token: string, inputs: Inputs)
    ensures forall a | a in TokenArguments(token, inputs) :: exists p | p in Pieces(token) :: Clean(a, p, inputs)
  {
    if IF <= token {
      ActiveArePieces(token, inputs);
      PartsAreClean(Active(token, inputs), inputs);
    } else {
      OneIsClean(token, inputs);
      assert token in Pieces(token);
    }
  }

  /** Every argument of a rendered command is clean. */
  lemma {:induction false} ArgumentsAreClean(template: seq<string>, inputs: Inputs)
    ensures forall a | a in Command(template, inputs) ::
              exists t, p | t in template && p in Pieces(t) :: Clean(a, p, inputs)
  {
    if template == [] {
    } else {
      var n := |template| - 1;
      ArgumentsAreClean(template[..n], inputs);
      TokenIsClean(template[n], inputs);
      forall a | a in Command(template, inputs)
        ensures exists t, p | t in template && p in Pieces(t) :: Clean(a, p, inputs)
      {
        if a in Command(template[..n], inputs) {
          var t, p :| t in template[..n] && p in Pieces(t) && Clean(a, p, inputs);
          assert t in template;
        } else {
          var p :| p in Pieces(template[n]) && Clean(a, p, inputs);
          assert template[n] in template;
        }
      }
    }
  }

  // ----------------------------------------------------- conditions and order, spelled out

  /** "false" in any case. */
  predicate SaysFalse(text: string) {
    && |text| == 5 && text[0] in "fF" && text[1] in "aA" && text[2] in "lL" && text[3] in "sS" && text[4] in "eE"
  }

  /** A conditional token takes its first branch exactly for an input that is neither missing nor null, no
      empty text, no "false" in any case, and true if it is no text. */
  lemma BranchTaken(name: string, thens: seq<string>, elses: seq<string>, inputs: Inputs)
    requires forall p | p in [name] + thens + elses :: ':' !in p
    requires "else" !in [name] + thens
    ensures Active(Join(["--if", name, "then"] + thens + ["else"] + elses), inputs)
         == if name !in inputs then elses
            else match inputs[name]
              case Null => elses
              case Str(text) => if text == "" || SaysFalse(text) then elses else thens
              case Other(_, truthy) => if truthy then thens else elses
  {
    ConditionalChooses(name, thens, elses, inputs);
    if name in inputs && inputs[name].Str? {
      LowerIsFalse(inputs[name].text);
    }
  }

  lemma LowerIsFalse(text: string)
    ensures Text.Lower(text) == "false" <==> SaysFalse(text)
  {
    var l := Text.Lower(text);
    assert |l| == |text| && forall i | 0 <= i < |text| :: l[i] == Text.LowerChar(text[i]);
    assert l == "false" <==>
             |l| == 5 && l[0] == 'f' && l[1] == 'a' && l[2] == 'l' && l[3] == 's' && l[4] == 'e';
    assert "fF"[0] == 'f' && "fF"[1] == 'F' && "aA"[0] == 'a' && "aA"[1] == 'A' && "lL"[0] == 'l' && "lL"[1] == 'L';
    assert "sS"[0] == 's' && "sS"[1] == 'S' && "eE"[0] == 'e' && "eE"[1] == 'E';
  }

  lemma FlatOne(token: string, gives: string -> seq<string>)
    ensures Flat([token], gives) == gives(token)
  {
    assert [token][..0] == [];
    assert Flat([], gives) + gives(token) == gives(token);
  }

  /** A plain token gives its text as one argument, and nothing if it is dropped or empty. */
  lemma PlainTokenGives(token: string, inputs: Inputs)
    requires !(IF <= token)
    ensures Command([token], inputs) == match Meaning(token, inputs)
                                        case Dropped => []
                                        case Argument(text) => if text == "" then [] else [text]
  {
    FlatOne(token, t => TokenArguments(t, inputs));
  }

  lemma Regrouped(a: seq<string>, b: seq<string>, c: seq<string>)
    ensures a + b + c == a + (b + c)
  {}

  lemma {:induction false} FlatJoined(a: seq<string>, b: seq<string>, gives: string -> seq<string>)
    ensures Flat(a + b, gives) == Flat(a, gives) + Flat(b, gives)
  {
    if b == [] {
      assert a + b == a;
    } else {
      var before, last := b[..|b| - 1], b[|b| - 1];
      FlatJoined(a, before, gives);
      assert (a + b)[..|a + b| - 1] == a + before;
      Regrouped(Flat(a, gives), Flat(before, gives), gives(last));
    }
  }

  /** Commands are rendered token by token, conditional ones part by part, and none is lost or moved. */
  lemma RenderedInOrder(a: seq<string>, b: seq<string>, inputs: Inputs)
    ensures Command(a + b, inputs) == Command(a, inputs) + Command(b, inputs)
    ensures RenderedParts(a + b, inputs) == RenderedParts(a, inputs) + RenderedParts(b, inputs)
  {
    FlatJoined(a, b, token => TokenArguments(token, inputs));
    FlatJoined(a, b, part => One(Meaning(part, inputs)));
  }

  /** A conditional token gives what its rendered parts give as tokens of their own. */
  lemma ConditionalTokenGives(token: string, inputs: Inputs)
    requires IF <= token
    ensures Command([token], inputs) == Command(Active(token, inputs), inputs)
  {
    ActiveArePieces(token, inputs);
    SplitHasNoColon(token);
    forall p | p in Active(token, inputs) ensures !(IF <= p) {
      NoCondition(p);
    }
    FlatOne(token, t => TokenArguments(t, inputs));
    FlatSame(Active(token, inputs), t => TokenArguments(t, inputs), p => One(Meaning(p, inputs)));
  }

  lemma NoCondition(p: string)
    requires ':' !in p
    ensures !(IF <= p)
  {
    assert IF[4] == ':';
    assert |p| > 4 ==> p[4] in p;
  }

  lemma {:induction false} FlatSame(tokens: seq<string>, f: string -> seq<string>, g: string -> seq<string>)
    requires forall t | t in tokens :: f(t) == g(t)
    ensures Flat(tokens, f) == Flat(tokens, g)
  {
    if tokens == [] {
    } else {
      FlatSame(tokens[..|tokens| - 1], f, g);
    }
  }
}
