/** Stable sorting by a total preorder, as Python's `sorted` and `list.sort` do it,
    and the lexicographic order of strings. */
module Sorting {

  ghost predicate TotalPreorder<T(!new)>(le: (T, T) -> bool) {
    && (forall x, y :: le(x, y) || le(y, x))
    && (forall x, y, z :: le(x, y) && le(y, z) ==> le(x, z))
  }

  ghost predicate SortedBy<T>(s: seq<T>, le: (T, T) -> bool) {
    forall i, j | 0 <= i < j < |s| :: le(s[i], s[j])
  }

  function Insert<T>(x: T, s: seq<T>, le: (T, T) -> bool): seq<T> {
    if s == [] then [x]
    else if le(x, s[0]) then [x] + s
    else [s[0]] + Insert(x, s[1..], le)
  }

  function Sort<T>(s: seq<T>, le: (T, T) -> bool): seq<T> {
    if s == [] then [] else Insert(s[0], Sort(s[1..], le), le)
  }

  lemma {:induction false} InsertAdds<T>(x: T, s: seq<T>, le: (T, T) -> bool)
    ensures multiset(Insert(x, s, le)) == multiset{x} + multiset(s)
  {
    if s == [] {
    } else {
      assert s == [s[0]] + s[1..];
      if !le(x, s[0]) {
        InsertAdds(x, s[1..], le);
      }
    }
  }

  lemma InsertComesFrom<T>(x: T, s: seq<T>, le: (T, T) -> bool, y: T)
    requires y in Insert(x, s, le)
    ensures y == x || y in s
  {
    InsertAdds(x, s, le);
    assert y in multiset(Insert(x, s, le));
  }

  lemma {:induction false} InsertKeeps<T(!new)>(x: T, s: seq<T>, le: (T, T) -> bool)
    requires TotalPreorder(le) && SortedBy(s, le)
    ensures SortedBy(Insert(x, s, le), le)
  {
    if s == [] {
    } else if le(x, s[0]) {
      assert forall i | 0 <= i < |s| :: le(x, s[i]);
    } else {
      var t := Insert(x, s[1..], le);
      InsertKeeps(x, s[1..], le);
      forall i | 0 <= i < |t| ensures le(s[0], t[i]) {
        InsertComesFrom(x, s[1..], le, t[i]);
      }
    }
  }

  /** The elements of `s` that are equivalent to `x`, in their order. */
  function Class<T>(s: seq<T>, x: T, le: (T, T) -> bool): seq<T> {
    if s == [] then []
    else (if le(x, s[0]) && le(s[0], x) then [s[0]] else []) + Class(s[1..], x, le)
  }

  lemma {:induction false} InsertIsStable<T(!new)>(y: T, s: seq<T>, x: T, le: (T, T) -> bool)
    requires TotalPreorder(le)
    ensures Class(Insert(y, s, le), x, le) == Class([y] + s, x, le)
  {
    if s == [] {
      assert [y] + s == [y];
    } else if le(y, s[0]) {
    } else {
      var rest := s[1..];
      InsertIsStable(y, rest, x, le);
      StrictlyBelow(s[0], y, x, le);
      PassedBy(s[0], y, Insert(y, rest, le), rest, x, le);
      assert s == [s[0]] + rest;
    }
  }

  lemma StrictlyBelow<T(!new)>(z: T, y: T, x: T, le: (T, T) -> bool)
    requires TotalPreorder(le) && !le(y, z)
    ensures !(le(x, z) && le(z, x) && le(x, y) && le(y, x))
  {}

  lemma PassedBy<T>(z: T, y: T, t: seq<T>, rest: seq<T>, x: T, le: (T, T) -> bool)
    requires !(le(x, z) && le(z, x) && le(x, y) && le(y, x))
    requires Class(t, x, le) == Class([y] + rest, x, le)
    ensures Class([z] + t, x, le) == Class([y] + ([z] + rest), x, le)
  {
    ClassStep(z, t, x, le);
    ClassStep(y, rest, x, le);
    ClassStep(z, rest, x, le);
    ClassStep(y, [z] + rest, x, le);
  }

  lemma ClassStep<T>(y: T, s: seq<T>, x: T, le: (T, T) -> bool)
    ensures Class([y] + s, x, le) == (if le(x, y) && le(y, x) then [y] else []) + Class(s, x, le)
  {
    assert ([y] + s)[1..] == s;
  }

  /** Sorting is stable: equivalent elements keep their order. */
  lemma {:induction false} SortIsStable<T(!new)>(s: seq<T>, x: T, le: (T, T) -> bool)
    requires TotalPreorder(le)
    ensures Class(Sort(s, le), x, le) == Class(s, x, le)
  {
    if s == [] {
    } else {
      var rest := Sort(s[1..], le);
      SortIsStable(s[1..], x, le);
      InsertIsStable(s[0], rest, x, le);
      ClassStep(s[0], rest, x, le);
    }
  }

  /** Sorting yields a sorted rearrangement of its input in which equivalent elements keep their order. */
  lemma {:induction false} SortSorts<T(!new)>(s: seq<T>, le: (T, T) -> bool)
    requires TotalPreorder(le)
    ensures SortedBy(Sort(s, le), le)
    ensures multiset(Sort(s, le)) == multiset(s)
    ensures forall x :: Class(Sort(s, le), x, le) == Class(s, x, le)
  {
    if s == [] {
    } else {
      SortSorts(s[1..], le);
      InsertKeeps(s[0], Sort(s[1..], le), le);
      InsertAdds(s[0], Sort(s[1..], le), le);
      assert s == [s[0]] + s[1..];
    }
    forall x ensures Class(Sort(s, le), x, le) == Class(s, x, le) {
      SortIsStable(s, x, le);
    }
  }

  lemma DistinctCount<T>(s: seq<T>, x: T)
    requires forall i, j | 0 <= i < j < |s| :: s[i] != s[j]
    ensures multiset(s)[x] == if x in s then 1 else 0
  {
    if x in s {
      var i :| 0 <= i < |s| && s[i] == x;
      var front, back := s[..i], s[i + 1..];
      assert s == front + [x] + back;
      assert x !in front;
      assert x !in back;
    }
  }

  lemma CountDistinct<T>(s: seq<T>, i: nat, j: nat)
    requires i < j < |s| && multiset(s)[s[i]] <= 1
    ensures s[i] != s[j]
  {
    assert s == s[..i] + [s[i]] + s[i + 1..j] + [s[j]] + s[j + 1..];
  }

  predicate LexLe(a: string, b: string) {
    if a == [] then true
    else if b == [] then false
    else if a[0] != b[0] then a[0] < b[0]
    else LexLe(a[1..], b[1..])
  }

  lemma {:induction false} LexTotal(a: string, b: string)
    ensures LexLe(a, b) || LexLe(b, a)
    ensures LexLe(a, b) && LexLe(b, a) ==> a == b
  {
    if a == [] || b == [] {
    } else {
      LexTotal(a[1..], b[1..]);
      assert a == [a[0]] + a[1..] && b == [b[0]] + b[1..];
    }
  }

  lemma {:induction false} LexTransitive(a: string, b: string, c: string)
    requires LexLe(a, b) && LexLe(b, c)
    ensures LexLe(a, c)
  {
    if a != [] && b != [] && c != [] && a[0] == b[0] == c[0] {
      LexTransitive(a[1..], b[1..], c[1..]);
    }
  }

  lemma LexIsTotalPreorder()
    ensures TotalPreorder(LexLe)
  {
    forall x, y ensures LexLe(x, y) || LexLe(y, x) { LexTotal(x, y); }
    forall x, y, z | LexLe(x, y) && LexLe(y, z) ensures LexLe(x, z) { LexTransitive(x, y, z); }
  }
}
