/** Cleaning user input before it becomes a command argument (`validation.py`). */
module Sanitizing {
  import opened Text

  const DANGEROUS: string := ";|&$`()<>\n\r'\"!\t\0"

  /** What never survives cleaning. */
  predicate Forbidden(c: char) { c in DANGEROUS || c == '\\' }

  function Slashed(s: string): string {
    seq(|s|, i requires 0 <= i < |s| => if s[i] == '\\' then '/' else s[i])
  }

  /** `s` without the characters of `bad`. */
  function Without(s: string, bad: string): string {
    if s == [] then []
    else if s[0] in bad then Without(s[1..], bad)
    else [s[0]] + Without(s[1..], bad)
  }

  function Cleaned(s: string): string { Without(Slashed(s), DANGEROUS) }

  function Sanitize(s: string): string { Strip(DropFront(Cleaned(s), IsDash)) }

  lemma {:induction false} WithoutMore(s: string, bad: string, c: char)
    ensures Without(Without(s, bad), [c]) == Without(s, bad + [c])
  {
    if s == [] {
    } else {
      WithoutMore(s[1..], bad, c);
      if s[0] !in bad {
        assert ([s[0]] + Without(s[1..], bad))[1..] == Without(s[1..], bad);
      }
    }
  }

  lemma {:induction false} WithoutDrops(s: string, bad: string)
    ensures forall c | c in Without(s, bad) :: c !in bad && c in s
    ensures (forall c | c in s :: c !in bad) ==> Without(s, bad) == s
  {
    if s == [] {
    } else {
      WithoutDrops(s[1..], bad);
      assert s == [s[0]] + s[1..];
    }
  }

  lemma {:induction false} WithoutNothing(s: string)
    ensures Without(s, []) == s
  {
    if s == [] {
    } else {
      WithoutNothing(s[1..]);
    }
  }

  /** Removing the characters one kind at a time removes them all. */
  method SanitizeInput(value: string) returns (r: string)
    ensures r == Sanitize(value)
  {
    r := Slashed(value);
    ghost var slashed := r;
    WithoutNothing(r);
    var i := 0;
    while i < |DANGEROUS|
      invariant i <= |DANGEROUS| && r == Without(slashed, DANGEROUS[..i])
    {
      WithoutMore(slashed, DANGEROUS[..i], DANGEROUS[i]);
      assert DANGEROUS[..i + 1] == DANGEROUS[..i] + [DANGEROUS[i]];
      r := Without(r, [DANGEROUS[i]]);
      i := i + 1;
    }
    assert DANGEROUS[..i] == DANGEROUS;
    r := Strip(DropFront(r, IsDash));
  }

  predicate StartsWithDash(s: string) { s != [] && s[0] == '-' }

  lemma CleanedIsClean(s: string)
    ensures forall c | c in Cleaned(s) :: !Forbidden(c)
    ensures (forall c | c in s :: !Forbidden(c)) ==> Cleaned(s) == s
  {
    WithoutDrops(Slashed(s), DANGEROUS);
    if forall c | c in s :: !Forbidden(c) {
      assert forall i | 0 <= i < |s| :: !Forbidden(s[i]);
      assert Slashed(s) == s;
    }
  }

  /** No forbidden character and no outer white space is left. */
  lemma SanitizedIsClean(s: string)
    ensures forall c | c in Sanitize(s) :: !Forbidden(c)
    ensures Strip(Sanitize(s)) == Sanitize(s)
  {
    CleanedIsClean(s);
    DropFrontResult(Cleaned(s), IsDash);
    StripTrims(DropFront(Cleaned(s), IsDash));
  }

  /** Cleaning goes character by character: a backslash becomes a slash, sixteen characters go, every other
      one stays. */
  lemma CleanedCharacter(c: char)
    ensures Cleaned([c]) ==
              if c == '\\' then "/"
              else if c == ';' || c == '|' || c == '&' || c == '$' || c == '`' || c == '(' || c == ')' || c == '<'
                || c == '>' || c == '\n' || c == '\r' || c == '\'' || c == '"' || c == '!' || c == '\t' || c == '\0'
              then ""
              else [c]
  {
    var d := if c == '\\' then '/' else c;
    assert Slashed([c]) == [d];
    WithoutOne(d, DANGEROUS);
    DangerousAre(d);
  }

  lemma WithoutOne(c: char, bad: string)
    ensures Without([c], bad) == if c in bad then "" else [c]
  {
    assert [c][1..] == "";
  }

  lemma DangerousAre(c: char)
    ensures c in DANGEROUS <==>
              || c == ';' || c == '|' || c == '&' || c == '$' || c == '`' || c == '(' || c == ')' || c == '<'
              || c == '>' || c == '\n' || c == '\r' || c == '\'' || c == '"' || c == '!' || c == '\t' || c == '\0'
  {
    var d := DANGEROUS;
    assert |d| == 16 && d[0] == ';' && d[1] == '|' && d[2] == '&' && d[3] == '$' && d[4] == '`' && d[5] == '(';
    assert d[6] == ')' && d[7] == '<' && d[8] == '>' && d[9] == '\n' && d[10] == '\r' && d[11] == '\'';
    assert d[12] == '"' && d[13] == '!' && d[14] == '\t' && d[15] == '\0';
  }

  lemma CleanedJoined(a: string, b: string)
    ensures Cleaned(a + b) == Cleaned(a) + Cleaned(b)
  {
    assert Slashed(a + b) == Slashed(a) + Slashed(b);
    WithoutJoined(Slashed(a), Slashed(b), DANGEROUS);
  }

  lemma {:induction false} WithoutJoined(a: string, b: string, bad: string)
    ensures Without(a + b, bad) == Without(a, bad) + Without(b, bad)
  {
    if a == [] {
      assert a + b == b;
    } else {
      assert (a + b)[1..] == a[1..] + b;
      WithoutJoined(a[1..], b, bad);
    }
  }

  /** Beyond that, only dashes in front and white space at both ends are removed. */
  lemma SanitizeRemovesOnly(s: string) returns (dashes: string, before: string, after: string)
    ensures Cleaned(s) == dashes + before + Sanitize(s) + after
    ensures (forall c | c in dashes :: c == '-') && forall c | c in before + after :: IsSpace(c)
  {
    dashes := DropFrontRest(Cleaned(s), IsDash);
    before, after := StripRest(DropFront(Cleaned(s), IsDash));
    assert dashes + (before + Sanitize(s) + after) == dashes + before + Sanitize(s) + after;
  }

  /** Exactly the input that has nothing to remove is left as it is. */
  lemma UnchangedIff(s: string)
    ensures Sanitize(s) == s
            <==> (forall c | c in s :: !Forbidden(c)) && !StartsWithDash(s) && Strip(s) == s
  {
    SanitizedIsClean(s);
    CleanedIsClean(s);
    if Sanitize(s) == s && StartsWithDash(s) {
      DashDropped(s);
    }
  }

  lemma DashDropped(s: string)
    requires StartsWithDash(s)
    ensures |Strip(DropFront(s, IsDash))| < |s|
  {
    DropFrontResult(s[1..], IsDash);
    StripShortens(DropFront(s, IsDash));
  }

  lemma StripShortens(s: string)
    ensures |Strip(s)| <= |s|
  {
    DropFrontResult(s, IsSpace);
    DropBackResult(DropFront(s, IsSpace), IsSpace);
  }

  /** After any leading dashes the cleaned input has white space and then another dash. */
  predicate HidesDash(s: string) {
    var u := DropFront(Cleaned(s), IsDash);
    u != [] && IsSpace(u[0]) && StartsWithDash(DropFront(u, IsSpace))
  }

  /** A leading dash survives exactly when white space hides it from the dash stripping. */
  lemma LeadingDashIff(s: string)
    ensures StartsWithDash(Sanitize(s)) <==> HidesDash(s)
  {
    var u := DropFront(Cleaned(s), IsDash);
    var t := DropFront(u, IsSpace);
    DropFrontResult(Cleaned(s), IsDash);
    DropFrontResult(u, IsSpace);
    DropBackResult(t, IsSpace);
    if StartsWithDash(t) {
      FrontSurvives(t);
    }
  }

  lemma {:induction false} FrontSurvives(t: string)
    requires t != [] && !IsSpace(t[0])
    ensures DropBack(t, IsSpace) != [] && DropBack(t, IsSpace)[0] == t[0]
  {
    if IsSpace(t[|t| - 1]) {
      FrontSurvives(t[..|t| - 1]);
    }
  }

  /** Cleaning twice is cleaning once exactly when the input hides no dash. */
  lemma IdempotentIff(s: string)
    ensures Sanitize(Sanitize(s)) == Sanitize(s) <==> !HidesDash(s)
  {
    LeadingDashIff(s);
    SanitizedIsClean(s);
    UnchangedIff(Sanitize(s));
  }

  lemma NothingToClean()
    ensures Cleaned(" -x") == " -x" && Cleaned("-x") == "-x"
  {
    assert !Forbidden(' ') && !Forbidden('-') && !Forbidden('x');
    CleanedIsClean(" -x");
    CleanedIsClean("-x");
  }

  lemma DashStripped()
    ensures Strip(DropFront("-x", IsDash)) == "x"
  {
    assert DropFront("-x", IsDash) == "x";
    assert DropFront("x", IsSpace) == "x" && DropBack("x", IsSpace) == "x";
  }

  lemma SpaceStripped()
    ensures Strip(DropFront(" -x", IsDash)) == "-x"
  {
    assert DropFront(" -x", IsDash) == " -x";
    assert DropFront(" -x", IsSpace) == "-x" && DropBack("-x", IsSpace) == "-x";
  }

  /** The shortest such input. */
  lemma HiddenDash()
    ensures Sanitize(" -x") == "-x" && Sanitize("-x") == "x"
  {
    NothingToClean();
    DashStripped();
    SpaceStripped();
  }
}
