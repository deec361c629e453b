/** Every verdict on a literal target (`validation.py`), read off its addresses. */
module TargetVerdicts {
  import opened Arithmetic
  import opened Networks
  import opened Options

  /** The target holds the address. */
  predicate Holds(n: Net, a: nat) { n.base <= a <= n.Last() }

  /** 0.x.x.x, 169.254.x.x and 224.x.x.x to 239.x.x.x. */
  predicate BlockedAddress(v: Version, a: nat) {
    v.V4? && (Octet(a, 0) == 0 || (Octet(a, 0) == 169 && Octet(a, 1) == 254) || 224 <= Octet(a, 0) <= 239)
  }

  /** 10.x.x.x, 172.16.x.x to 172.31.x.x, 192.168.x.x and 127.x.x.x. */
  predicate PrivateAddress(v: Version, a: nat) {
    && v.V4?
    && (|| Octet(a, 0) == 10 || (Octet(a, 0) == 172 && 16 <= Octet(a, 1) <= 31)
        || (Octet(a, 0) == 192 && Octet(a, 1) == 168) || Octet(a, 0) == 127)
  }

  /** 127.x.x.x and ::1. */
  predicate LoopsBack(v: Version, a: nat) { if v.V4? then Octet(a, 0) == 127 else a == 1 }

  ghost predicate SomeBlocked(n: Net) { exists a | Holds(n, a) :: BlockedAddress(n.version, a) }

  ghost predicate NonePrivate(n: Net) { forall a | Holds(n, a) :: !PrivateAddress(n.version, a) }

  ghost predicate AllLoopBack(n: Net) { forall a | Holds(n, a) :: LoopsBack(n.version, a) }

  // ------------------------------------------------------------------- ranges and octets

  lemma BlockedIsInRange(v: Version, a: nat)
    requires v.V4? ==> a < 0x1_0000_0000
    ensures BlockedAddress(v, a) <==> exists r | r in BLOCKED :: r.version == v && Holds(r, a)
  {
    Pow2Values();
    assert BLOCKED[0] in BLOCKED && BLOCKED[1] in BLOCKED && BLOCKED[2] in BLOCKED;
    if v.V4? {
      FirstOctet(a);
      SecondOctet(a);
    }
  }

  lemma PrivateIsInRange(v: Version, a: nat)
    requires v.V4? ==> a < 0x1_0000_0000
    ensures PrivateAddress(v, a) <==> exists r | r in PRIVATE :: r.version == v && Holds(r, a)
  {
    Pow2Values();
    assert PRIVATE[0] in PRIVATE && PRIVATE[1] in PRIVATE && PRIVATE[2] in PRIVATE && PRIVATE[3] in PRIVATE;
    if v.V4? {
      FirstOctet(a);
      SecondOctet(a);
    }
  }

  lemma FirstOctet(a: nat)
    requires a < 0x1_0000_0000
    ensures Octet(a, 0) * 0x100_0000 <= a < (Octet(a, 0) + 1) * 0x100_0000
  {}

  lemma SecondOctet(a: nat)
    requires a < 0x1_0000_0000
    ensures var start := Octet(a, 0) * 0x100_0000 + Octet(a, 1) * 0x1_0000; start <= a < start + 0x1_0000
  {
    OctetsCompose(a);
  }

  lemma AddressFits(n: Net, a: nat)
    requires n.Valid() && Holds(n, a)
    ensures n.version.V4? ==> a < 0x1_0000_0000
  {
    Pow2Values();
  }

  lemma OverlapIsSharedAddress(n: Net, r: Net)
    requires n.Valid() && r.Valid()
    ensures Overlaps(n, r) <==> n.version == r.version && exists a :: Holds(n, a) && Holds(r, a)
  {
    OverlapIsSharing(n, r);
    var a := if n.base >= r.base then n.base else r.base;
    assert Overlaps(n, r) ==> Holds(n, a) && Holds(r, a);
  }

  lemma BlockedIff(n: Net)
    requires n.Valid()
    ensures (exists b | b in BLOCKED :: Overlaps(n, b)) <==> SomeBlocked(n)
  {
    RangesValid();
    if b :| b in BLOCKED && Overlaps(n, b) {
      OverlapIsSharedAddress(n, b);
      var a :| Holds(n, a) && Holds(b, a);
      AddressFits(n, a);
      BlockedIsInRange(n.version, a);
    }
    if a :| Holds(n, a) && BlockedAddress(n.version, a) {
      AddressFits(n, a);
      BlockedIsInRange(n.version, a);
      var b :| b in BLOCKED && b.version == n.version && Holds(b, a);
      OverlapIsSharedAddress(n, b);
    }
  }

  lemma PrivateIff(n: Net)
    requires n.Valid()
    ensures !OverlapsPrivate(n) <==> NonePrivate(n)
  {
    RangesValid();
    if r :| r in PRIVATE && n.version == r.version && (SubnetOf(n, r) || Overlaps(n, r)) {
      OverlapIsSharing(n, r);
      OverlapIsSharedAddress(n, r);
      var a :| Holds(n, a) && Holds(r, a);
      AddressFits(n, a);
      PrivateIsInRange(n.version, a);
    }
    if a :| Holds(n, a) && PrivateAddress(n.version, a) {
      AddressFits(n, a);
      PrivateIsInRange(n.version, a);
      var r :| r in PRIVATE && r.version == n.version && Holds(r, a);
      OverlapIsSharedAddress(n, r);
    }
  }

  lemma LoopbackIff(n: Net)
    requires n.Valid()
    ensures IsLoopback(n) <==> AllLoopBack(n)
    ensures n.version.V6? ==> (AllLoopBack(n) <==> n == Net(V6, 1, 128))
  {
    AddressFits(n, n.base);
    AddressFits(n, n.Last());
    assert Holds(n, n.base) && Holds(n, n.Last());
    if n.version.V4? && IsLoopback(n) {
      forall a | Holds(n, a) ensures Octet(a, 0) == 127 {
        AddressFits(n, a);
        FirstOctet(a);
      }
    }
    if n.version.V6? && n.base == n.Last() {
      SingleAddress(n);
    }
  }

  lemma SingleAddress(n: Net)
    requires n.Valid() && n.Size() == 1
    ensures n.prefix == Width(n.version)
  {}

  // ------------------------------------------------------------------------- the verdicts

  /** No listed pattern lets the target through. */
  ghost predicate Unlisted(n: Net, patterns: seq<Pattern>) {
    patterns != [] && forall p | p in patterns :: !Permits(p, n)
  }

  /** Each verdict exactly when its reason holds and none before it does. */
  lemma VerdictIff(n: Net, safeMode: bool, s: Settings)
    requires n.Valid()
    ensures var v := Judged(n, safeMode, s);
            var looped := !s.allowLoopback && AllLoopBack(n);
            && (v == OverlapsBlocked <==> SomeBlocked(n))
            && (v == LoopbackDisabled <==> !SomeBlocked(n) && looped)
            && (v == Public <==> !SomeBlocked(n) && !looped && safeMode && NonePrivate(n))
            && (v == NotAllowed <==>
                  !SomeBlocked(n) && !looped && safeMode && !NonePrivate(n) && Unlisted(n, s.allowed))
            && (v == Accepted <==>
                  !SomeBlocked(n) && !looped && (safeMode ==> !NonePrivate(n) && !Unlisted(n, s.allowed)))
  {
    BlockedIff(n);
    LoopbackIff(n);
    PrivateIff(n);
  }

  /** Up to three numbers of at most 255, then stars only. */
  ghost predicate IsWildcard(parts: seq<Part>) {
    && |parts| == 4 && parts[3].Star?
    && (forall i | 0 <= i < 4 :: parts[i].Star? || (parts[i].Num? && parts[i].n <= 255))
    && forall i | 0 <= i < 3 && parts[i].Star? :: parts[i + 1].Star?
  }

  lemma WildcardIff(parts: seq<Part>)
    ensures Wildcard(parts).Some? <==> IsWildcard(parts)
    ensures Wildcard(parts).Some? ==> Wildcard(parts).value.Valid() && Wildcard(parts).value.version == V4
  {
    if Wildcard(parts).Some? {
      WildcardIsExact(parts, 0);
    }
  }

  lemma SubnetIsAllInside(n: Net, m: Net)
    requires n.Valid() && m.Valid() && n.version == m.version
    ensures SubnetOf(n, m) <==> forall a | Holds(n, a) :: Holds(m, a)
  {
    assert Holds(n, n.base) && Holds(n, n.Last());
  }

  lemma WildcardAllInside(n: Net, parts: seq<Part>)
    requires n.Valid() && n.version == V4 && Wildcard(parts).Some?
    ensures SubnetOf(n, Wildcard(parts).value)
            <==> forall a, i | Holds(n, a) && 0 <= i < 4 && parts[i].Num? :: Octet(a, i) == parts[i].n
  {
    var m := Wildcard(parts).value;
    WildcardIff(parts);
    SubnetIsAllInside(n, m);
    forall a | Holds(n, a)
      ensures Holds(m, a) <==> forall i | 0 <= i < 4 && parts[i].Num? :: Octet(a, i) == parts[i].n
    {
      AddressFits(n, a);
      ContainsIsRange(m, a);
      WildcardIsExact(parts, a);
    }
  }

  /** What a pattern lets through: a network, the targets with all addresses inside; a wildcard, those with
      the fixed octets in all addresses; any other text, a single address that it matches. */
  lemma PermitsIff(p: Pattern, n: Net)
    requires n.Valid() && (p.Cidr? ==> p.net.Valid())
    ensures Permits(p, n) <==>
              match p
              case Cidr(m) => n.version == m.version && forall a | Holds(n, a) :: Holds(m, a)
              case Text(parts, glob) =>
                || (n.version == V4 && IsWildcard(parts)
                    && forall a, i | Holds(n, a) && 0 <= i < 4 && parts[i].Num? :: Octet(a, i) == parts[i].n)
                || (n.base == n.Last() && glob(n.version, n.base))
  {
    match p {
      case Cidr(m) =>
        if n.version == m.version {
          SubnetIsAllInside(n, m);
          OverlapIsSharing(n, m);
        }
      case Text(parts, glob) =>
        WildcardIff(parts);
        if n.version == V4 && Wildcard(parts).Some? {
          WildcardAllInside(n, parts);
        }
    }
  }
}
