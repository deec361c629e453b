/** Trimming and lower-casing of strings as Python's `strip`, `lstrip`, `rstrip` and `lower` do it. */
module Text {

  /** The white space `str.strip()` removes. */
  predicate IsSpace(c: char) {
    || c == ' ' || '\t' <= c <= '\r' || '\U{1c}' <= c <= '\U{1f}' || c == '\U{85}' || c == '\U{a0}'
    || c == '\U{1680}' || '\U{2000}' <= c <= '\U{200a}' || c == '\U{2028}' || c == '\U{2029}' || c == '\U{202f}'
    || c == '\U{205f}' || c == '\U{3000}'
  }

  predicate IsDash(c: char) { c == '-' }

  function DropFront(s: string, drop: char -> bool): string {
    if s != [] && drop(s[0]) then DropFront(s[1..], drop) else s
  }

  function DropBack(s: string, drop: char -> bool): string {
    if s != [] && drop(s[|s| - 1]) then DropBack(s[..|s| - 1], drop) else s
  }

  function LowerChar(c: char): char { if 'A' <= c <= 'Z' then c - 'A' + 'a' else c }

  function Lower(s: string): string { seq(|s|, i requires 0 <= i < |s| => LowerChar(s[i])) }

  function Strip(s: string): string { DropBack(DropFront(s, IsSpace), IsSpace) }

  lemma {:induction false} DropFrontResult(s: string, drop: char -> bool)
    ensures var r := DropFront(s, drop);
            && (r != [] ==> !drop(r[0]))
            && |r| <= |s| && r == s[|s| - |r|..]
            && forall c | c in r :: c in s
  {
    if s != [] && drop(s[0]) {
      DropFrontResult(s[1..], drop);
    }
  }

  lemma {:induction false} DropBackResult(s: string, drop: char -> bool)
    ensures var r := DropBack(s, drop);
            && (r != [] ==> !drop(r[|r| - 1]))
            && |r| <= |s| && r == s[..|r|]
            && forall c | c in r :: c in s
  {
    if s != [] && drop(s[|s| - 1]) {
      DropBackResult(s[..|s| - 1], drop);
    }
  }

  /** What is dropped in front. */
  lemma {:induction false} DropFrontRest(s: string, drop: char -> bool) returns (gone: string)
    ensures s == gone + DropFront(s, drop) && forall c | c in gone :: drop(c)
  {
    gone := [];
    if s != [] && drop(s[0]) {
      var rest := DropFrontRest(s[1..], drop);
      gone := [s[0]] + rest;
      assert s == [s[0]] + s[1..];
    }
  }

  lemma {:induction false} DropBackRest(s: string, drop: char -> bool) returns (gone: string)
    ensures s == DropBack(s, drop) + gone && forall c | c in gone :: drop(c)
  {
    gone := [];
    if s != [] && drop(s[|s| - 1]) {
      var rest := DropBackRest(s[..|s| - 1], drop);
      gone := rest + [s[|s| - 1]];
      assert s == s[..|s| - 1] + [s[|s| - 1]];
    }
  }

  lemma StripRest(s: string) returns (before: string, after: string)
    ensures s == before + Strip(s) + after && forall c | c in before + after :: IsSpace(c)
  {
    before := DropFrontRest(s, IsSpace);
    after := DropBackRest(DropFront(s, IsSpace), IsSpace);
    assert before + (Strip(s) + after) == before + Strip(s) + after;
  }

  /** Trimming is idempotent and keeps only characters of its argument. */
  lemma StripTrims(s: string)
    ensures Strip(Strip(s)) == Strip(s)
    ensures Strip(s) != [] ==> !IsSpace(Strip(s)[0]) && !IsSpace(Strip(s)[|Strip(s)| - 1])
    ensures forall c | c in Strip(s) :: c in s
  {
    var t := DropFront(s, IsSpace);
    DropFrontResult(s, IsSpace);
    DropBackResult(t, IsSpace);
  }
}
