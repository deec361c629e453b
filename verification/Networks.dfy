/** Containment of literal IP targets (`validation.py`): CIDR blocks, wildcard allow-list
    patterns, and the decision of safe mode. */
module Networks {
  import opened Options
  import opened Arithmetic

  lemma Pow2Values()
    ensures Pow2(0) == 1 && Pow2(8) == 0x100 && Pow2(16) == 0x1_0000 && Pow2(20) == 0x10_0000
    ensures Pow2(24) == 0x100_0000 && Pow2(28) == 0x1000_0000 && Pow2(32) == 0x1_0000_0000
    ensures Pow2(17) == 0x2_0000 && Pow2(21) == 0x20_0000 && Pow2(25) == 0x200_0000 && Pow2(27) == 0x800_0000
  {
    assert Pow2(4) == 16 by { assert Pow2(2) == 4; }
    Pow2Add(4, 4);
    Pow2Add(8, 8);
    Pow2Add(16, 4);
    Pow2Add(16, 8);
    Pow2Add(24, 4);
    Pow2Add(16, 16);
    assert Pow2(17) == 2 * Pow2(16) && Pow2(21) == 2 * Pow2(20) && Pow2(25) == 2 * Pow2(24);
    assert Pow2(26) == 2 * Pow2(25) && Pow2(27) == 2 * Pow2(26);
  }

  datatype Version = V4 | V6

  function Width(v: Version): nat { if v.V4? then 32 else 128 }

  /** A network: its first address and its prefix length. */
  datatype Net = Net(version: Version, base: nat, prefix: nat) {
    ghost predicate Valid() {
      prefix <= Width(version) && base % Size() == 0 && base + Size() <= Pow2(Width(version))
    }

    function Size(): nat { if prefix <= Width(version) then Pow2(Width(version) - prefix) else 1 }

    function Last(): nat { base + Size() - 1 }

    /** An address masked to the prefix is the network address. */
    predicate Contains(v: Version, a: nat) { v == version && a / Size() * Size() == base }
  }

  lemma MultipleMod(q: nat, size: nat)
    requires size >= 1
    ensures q * size % size == 0 && q * size / size == q
  {
    assert (q + 1) * size == q * size + size;
    QuotientBetween(q * size, size, q);
    assert q * size / size * size + q * size % size == q * size;
  }

  function Masked(a: nat, size: nat): nat
    requires size >= 1
  {
    a / size * size
  }

  lemma MaskedFits(address: nat, width: nat, prefix: nat)
    requires prefix <= width && address < Pow2(width)
    ensures var size := Pow2(width - prefix);
            var base := Masked(address, size);
            base % size == 0 && base + size <= Pow2(width) && base <= address < base + size
  {
    Pow2Add(prefix, width - prefix);
    MaskedWithin(address, Pow2(width - prefix), Pow2(prefix));
  }

  lemma MaskedWithin(address: nat, size: nat, count: nat)
    requires size >= 1 && address < count * size
    ensures Masked(address, size) % size == 0 && Masked(address, size) + size <= count * size
    ensures Masked(address, size) <= address < Masked(address, size) + size
  {
    var q := address / size;
    QuotientBounds(address, size);
    assert (q + 1) * size == q * size + size;
    BelowMultiple(q, count, size);
    MultipleMod(q, size);
  }

  lemma BelowMultiple(q: nat, count: nat, size: nat)
    requires q * size < count * size
    ensures q * size + size <= count * size
  {
    MulCancel(q, count, size);
    MulLe(q + 1, count, size);
    assert (q + 1) * size == q * size + size;
  }

  /** `ip_network(..., strict=False)` drops the host bits and keeps the address inside. */
  function NetOf(v: Version, address: nat, prefix: nat): (n: Net)
    requires prefix <= Width(v) && address < Pow2(Width(v))
    ensures n.Valid() && n.version == v && n.prefix == prefix && n.base <= address <= n.Last()
  {
    var n := Net(v, Masked(address, Pow2(Width(v) - prefix)), prefix);
    assert n.Size() == Pow2(Width(v) - prefix);
    MaskedFits(address, Width(v), prefix);
    n
  }

  predicate SubnetOf(a: Net, b: Net) { b.base <= a.base && a.Last() <= b.Last() }

  predicate Overlaps(a: Net, b: Net) {
    b.Contains(a.version, a.base) || b.Contains(a.version, a.Last())
    || a.Contains(b.version, b.base) || a.Contains(b.version, b.Last())
  }

  /** Masking tests membership of the address range. */
  lemma ContainsIsRange(n: Net, a: nat)
    requires n.Valid()
    ensures n.Contains(n.version, a) <==> n.base <= a <= n.Last()
  {
    var size := n.Size();
    QuotientBounds(a, size);
    assert (a / size + 1) * size == a / size * size + size;
    assert n.base / size * size == n.base;
    if n.base <= a <= n.Last() {
      assert (n.base / size + 1) * size == n.base / size * size + size;
      QuotientBetween(a, size, n.base / size);
    }
  }

  /** Networks overlap if and only if they share an address. */
  lemma OverlapIsSharing(a: Net, b: Net)
    requires a.Valid() && b.Valid()
    ensures Overlaps(a, b) <==> a.version == b.version && a.base <= b.Last() && b.base <= a.Last()
  {
    ContainsIsRange(b, a.base);
    ContainsIsRange(b, a.Last());
    ContainsIsRange(a, b.base);
    ContainsIsRange(a, b.Last());
  }

  /** CIDR blocks nest or are disjoint: of two that overlap, the longer prefix is inside. */
  lemma NestOrDisjoint(a: Net, b: Net)
    requires a.Valid() && b.Valid() && Overlaps(a, b) && a.prefix >= b.prefix
    ensures SubnetOf(a, b)
  {
    OverlapIsSharing(a, b);
    var s, q := a.Size(), Pow2(a.prefix - b.prefix);
    Pow2Add(a.prefix - b.prefix, Width(a.version) - a.prefix);
    AlignedNest(a.base, s, b.base, q);
  }

  /** A block of size `s` that meets an aligned block of size `q * s` lies in it. */
  lemma AlignedNest(x: nat, s: nat, y: nat, q: nat)
    requires s >= 1 && q >= 1 && q * s >= 1 && x % s == 0 && y % (q * s) == 0
    requires x < y + q * s && y < x + s
    ensures y <= x && x + s <= y + q * s
  {
    var k, m := x / s, y / (q * s);
    assert x == k * s;
    assert y == m * (q * s) == (m * q) * s;
    MultiplesNest(k, m * q, q, s);
  }

  lemma MultiplesNest(k: nat, j: nat, q: nat, s: nat)
    requires s >= 1 && k * s < j * s + q * s && j * s < k * s + s
    ensures j * s <= k * s && k * s + s <= j * s + q * s
  {
    assert (k + 1) * s == k * s + s;
    assert (j + q) * s == j * s + q * s;
    MulCancel(k, j + q, s);
    MulCancel(j, k + 1, s);
    MulLe(j, k, s);
    MulLe(k + 1, j + q, s);
  }

  // ----------------------------------------------------------- allow-list patterns

  datatype Part = Star | Num(n: nat) | Other

  /** An allow-list entry: a network, or a text that is none, with its dot-separated parts and
      the addresses whose text matches it as a shell pattern. */
  datatype Pattern = Cidr(net: Net) | Text(parts: seq<Part>, glob: (Version, nat) -> bool)

  /** Numbers up to 255, then stars, at least one. */
  predicate TrailingStars(parts: seq<Part>, fixed: nat)
    requires fixed <= |parts|
  {
    && (forall i | 0 <= i < fixed :: parts[i].Num? && parts[i].n <= 255)
    && (forall i | fixed <= i < |parts| :: parts[i].Star?)
  }

  function Number(p: Part): nat { if p.Num? then p.n else 0 }

  /** `10.*.*.*` stands for `10.0.0.0/8`. */
  function Wildcard(parts: seq<Part>): Option<Net> {
    if |parts| != 4 then None
    else
      var k := if !parts[0].Num? then 0 else if !parts[1].Num? then 1
               else if !parts[2].Num? then 2 else if !parts[3].Num? then 3 else 4;
      if k == 4 || !TrailingStars(parts, k) then None
      else Some(Net(V4, Number(parts[0]) * 0x100_0000 + Number(parts[1]) * 0x1_0000
                        + Number(parts[2]) * 0x100 + Number(parts[3]), k * 8))
  }

  function Octet(a: nat, i: nat): nat
    requires i < 4
  {
    if i == 0 then a / 0x100_0000 else if i == 1 then a / 0x1_0000 % 0x100
    else if i == 2 then a / 0x100 % 0x100 else a % 0x100
  }

  /** The converted network has exactly the addresses with the fixed octets. */
  lemma WildcardIsExact(parts: seq<Part>, a: nat)
    requires Wildcard(parts).Some? && a < 0x1_0000_0000
    ensures Wildcard(parts).value.Valid()
    ensures Wildcard(parts).value.Contains(V4, a) <==>
              forall i | 0 <= i < 4 && parts[i].Num? :: Octet(a, i) == parts[i].n
  {
    Pow2Values();
    var n := Wildcard(parts).value;
    OctetsCompose(a);
    if n.prefix == 0 {
      assert n.Size() == 0x1_0000_0000;
      assert parts == [Star, Star, Star, Star];
    } else if n.prefix == 8 {
      OneOctet(a, parts[0].n);
      assert parts == [parts[0], Star, Star, Star];
    } else if n.prefix == 16 {
      TwoOctets(a, parts[0].n, parts[1].n);
      assert parts == [parts[0], parts[1], Star, Star];
    } else {
      ThreeOctets(a, parts[0].n, parts[1].n, parts[2].n);
      assert parts == [parts[0], parts[1], parts[2], Star];
    }
  }

  lemma OneOctet(a: nat, p0: nat)
    requires a < 0x1_0000_0000 && p0 <= 255
    ensures p0 * 0x100_0000 % 0x100_0000 == 0 && p0 * 0x100_0000 + 0x100_0000 <= 0x1_0000_0000
    ensures a / 0x100_0000 * 0x100_0000 == p0 * 0x100_0000 <==> Octet(a, 0) == p0
  {
  }

  lemma TwoOctets(a: nat, p0: nat, p1: nat)
    requires a < 0x1_0000_0000 && p0 <= 255 && p1 <= 255
    ensures var base := p0 * 0x100_0000 + p1 * 0x1_0000;
            && base % 0x1_0000 == 0 && base + 0x1_0000 <= 0x1_0000_0000
            && (a / 0x1_0000 * 0x1_0000 == base <==> Octet(a, 0) == p0 && Octet(a, 1) == p1)
  {
    OctetsCompose(a);
    var o0, o1, o2, o3 := Octet(a, 0), Octet(a, 1), Octet(a, 2), Octet(a, 3);
    Leading(a, 0x1_0000, o0 * 0x100 + o1, o2 * 0x100 + o3, p0 * 0x100 + p1);
  }

  lemma ThreeOctets(a: nat, p0: nat, p1: nat, p2: nat)
    requires a < 0x1_0000_0000 && p0 <= 255 && p1 <= 255 && p2 <= 255
    ensures var base := p0 * 0x100_0000 + p1 * 0x1_0000 + p2 * 0x100;
            && base % 0x100 == 0 && base + 0x100 <= 0x1_0000_0000
            && (a / 0x100 * 0x100 == base <==> Octet(a, 0) == p0 && Octet(a, 1) == p1 && Octet(a, 2) == p2)
  {
    OctetsCompose(a);
    var o0, o1, o2, o3 := Octet(a, 0), Octet(a, 1), Octet(a, 2), Octet(a, 3);
    Leading(a, 0x100, o0 * 0x1_0000 + o1 * 0x100 + o2, o3, p0 * 0x1_0000 + p1 * 0x100 + p2);
  }

  lemma OctetsCompose(a: nat)
    requires a < 0x1_0000_0000
    ensures a == Octet(a, 0) * 0x100_0000 + Octet(a, 1) * 0x1_0000 + Octet(a, 2) * 0x100 + Octet(a, 3)
    ensures forall i | 0 <= i < 4 :: Octet(a, i) <= 255
  {
    var h, m := a / 0x1_0000, a / 0x100;
    assert m / 0x100 == h && h / 0x100 == a / 0x100_0000;
  }

  /** Masking compares the leading part of a number. */
  lemma Leading(a: nat, size: nat, lead: nat, rest: nat, p: nat)
    requires size >= 1 && a == lead * size + rest && rest < size
    ensures a / size * size == p * size <==> lead == p
    ensures p * size % size == 0
  {
    assert (lead + 1) * size == lead * size + size;
    QuotientBetween(a, size, lead);
    MultipleMod(p, size);
    MultipleMod(lead, size);
  }

  // ------------------------------------------------------------ the decision

  const BLOCKED: seq<Net> := [
    Net(V4, 0, 8),               // 0.0.0.0/8
    Net(V4, 0xA9FE_0000, 16),    // 169.254.0.0/16
    Net(V4, 0xE000_0000, 4)]     // 224.0.0.0/4

  const PRIVATE: seq<Net> := [
    Net(V4, 0x0A00_0000, 8),     // 10.0.0.0/8
    Net(V4, 0xAC10_0000, 12),    // 172.16.0.0/12
    Net(V4, 0xC0A8_0000, 16),    // 192.168.0.0/16
    Net(V4, 0x7F00_0000, 8)]     // 127.0.0.0/8

  lemma RangesValid()
    ensures forall r | r in BLOCKED :: r.Valid()
    ensures forall r | r in PRIVATE :: r.Valid()
  {
    Pow2Values();
  }

  datatype Settings = Settings(allowLoopback: bool, allowed: seq<Pattern>)

  datatype Verdict = Accepted | OverlapsBlocked | LoopbackDisabled | Public | NotAllowed

  predicate LoopbackAddress(v: Version, a: nat) {
    if v.V4? then 0x7F00_0000 <= a < 0x8000_0000 else a == 1
  }

  predicate IsLoopback(n: Net) { LoopbackAddress(n.version, n.base) && LoopbackAddress(n.version, n.Last()) }

  predicate OverlapsPrivate(n: Net) {
    exists r | r in PRIVATE :: n.version == r.version && (SubnetOf(n, r) || Overlaps(n, r))
  }

  /** Whether one pattern lets a network through: a single address may match in any way, a
      range only by lying inside a network. */
  predicate Permits(p: Pattern, n: Net) {
    match p
    case Cidr(m) => n.version == m.version && (SubnetOf(n, m) || (n.Size() == 1 && Overlaps(n, m)))
    case Text(parts, glob) =>
      || (Wildcard(parts).Some? && n.version == V4 && SubnetOf(n, Wildcard(parts).value))
      || (n.Size() == 1 && glob(n.version, n.base))
  }

  /** The loops over the patterns of the allow list; an empty list allows everything. */
  method NetWithinAllowed(n: Net, patterns: seq<Pattern>) returns (ok: bool)
    ensures ok <==> patterns == [] || exists p | p in patterns :: Permits(p, n)
  {
    if |patterns| == 0 {
      return true;
    }
    var i := 0;
    if n.Size() == 1 {
      while i < |patterns|
        invariant i <= |patterns|
        invariant forall j | 0 <= j < i :: !Permits(patterns[j], n)
      {
        match patterns[i] {
          case Cidr(m) =>
            if n.version == m.version && (SubnetOf(n, m) || Overlaps(n, m)) {
              assert Permits(patterns[i], n);
              return true;
            }
          case Text(parts, glob) =>
            var converted := Wildcard(parts);
            if converted.Some? && n.version == converted.value.version && SubnetOf(n, converted.value) {
              assert Permits(patterns[i], n);
              return true;
            }
            if glob(n.version, n.base) {
              assert Permits(patterns[i], n);
              return true;
            }
        }
        i := i + 1;
      }
      return false;
    }
    while i < |patterns|
      invariant i <= |patterns|
      invariant forall j | 0 <= j < i :: !Permits(patterns[j], n)
    {
      var m := match patterns[i] case Cidr(m) => Some(m) case Text(parts, _) => Wildcard(parts);
      if m.Some? && n.version == m.value.version && SubnetOf(n, m.value) {
        assert Permits(patterns[i], n);
        return true;
      }
      i := i + 1;
    }
    return false;
  }

  /** `validate_target` on a literal address or network. */
  method ValidateLiteral(n: Net, safeMode: bool, s: Settings) returns (v: Verdict)
    ensures v == Judged(n, safeMode, s)
  {
    if exists b | b in BLOCKED :: Overlaps(n, b) {
      return OverlapsBlocked;
    }
    if IsLoopback(n) && !s.allowLoopback {
      return LoopbackDisabled;
    }
    if safeMode {
      if !OverlapsPrivate(n) {
        return Public;
      }
      var within := NetWithinAllowed(n, s.allowed);
      if !within {
        return NotAllowed;
      }
    }
    v := Accepted;
  }

  ghost function Judged(n: Net, safeMode: bool, s: Settings): Verdict {
    if exists b | b in BLOCKED :: Overlaps(n, b) then OverlapsBlocked
    else if IsLoopback(n) && !s.allowLoopback then LoopbackDisabled
    else if safeMode && !OverlapsPrivate(n) then Public
    else if safeMode && s.allowed != [] && !(exists p | p in s.allowed :: Permits(p, n)) then NotAllowed
    else Accepted
  }

  // ------------------------------------------------------------ what safe mode ensures

  ghost predicate IsPrivate(v: Version, a: nat) { exists r | r in PRIVATE :: r.Contains(v, a) }

  ghost predicate IsBlocked(v: Version, a: nat) { exists r | r in BLOCKED :: r.Contains(v, a) }

  /** The addresses a pattern stands for. */
  ghost predicate Allows(p: Pattern, v: Version, a: nat) {
    match p
    case Cidr(m) => m.Contains(v, a)
    case Text(parts, glob) =>
      (Wildcard(parts).Some? && Wildcard(parts).value.Contains(v, a)) || glob(v, a)
  }

  lemma WildcardValid(parts: seq<Part>)
    requires Wildcard(parts).Some?
    ensures Wildcard(parts).value.Valid() && Wildcard(parts).value.version == V4
  {
    WildcardIsExact(parts, 0);
  }

  lemma SubnetShares(n: Net, m: Net, a: nat)
    requires n.Valid() && m.Valid() && n.version == m.version && SubnetOf(n, m) && n.Contains(n.version, a)
    ensures m.Contains(n.version, a)
  {
    ContainsIsRange(n, a);
    ContainsIsRange(m, a);
  }

  /** A pattern that lets a network through stands for all its addresses. */
  lemma PermittedIsAllowed(p: Pattern, n: Net, a: nat)
    requires n.Valid() && (p.Cidr? ==> p.net.Valid()) && Permits(p, n) && n.Contains(n.version, a)
    ensures Allows(p, n.version, a)
  {
    ContainsIsRange(n, a);
    match p {
      case Cidr(m) =>
        if SubnetOf(n, m) {
          SubnetShares(n, m, a);
        } else {
          OverlapIsSharing(n, m);
          ContainsIsRange(m, a);
        }
      case Text(parts, glob) =>
        if Wildcard(parts).Some? && n.version == V4 && SubnetOf(n, Wildcard(parts).value) {
          WildcardValid(parts);
          SubnetShares(n, Wildcard(parts).value, a);
        }
    }
  }

  lemma UnblockedNetwork(n: Net, a: nat)
    requires n.Valid() && !(exists b | b in BLOCKED :: Overlaps(n, b)) && n.Contains(n.version, a)
    ensures !IsBlocked(n.version, a)
  {
    RangesValid();
    ContainsIsRange(n, a);
    forall b | b in BLOCKED ensures !b.Contains(n.version, a) {
      assert !Overlaps(n, b);
      OverlapIsSharing(n, b);
      if b.version == n.version {
        ContainsIsRange(b, a);
      }
    }
  }

  /** With a non-empty allow list that stays within the private ranges, every address of every
      accepted target is allowed, private and outside the blocked ranges, although the test
      for privacy asks for an overlap only. */
  lemma SafeModeConfines(n: Net, s: Settings, a: nat)
    requires n.Valid() && n.Contains(n.version, a)
    requires s.allowed != [] && forall p | p in s.allowed && p.Cidr? :: p.net.Valid()
    requires forall p, v, x | p in s.allowed && Allows(p, v, x) :: IsPrivate(v, x)
    requires Judged(n, true, s) == Accepted
    ensures (exists p | p in s.allowed :: Allows(p, n.version, a))
    ensures IsPrivate(n.version, a) && !IsBlocked(n.version, a)
  {
    var p :| p in s.allowed && Permits(p, n);
    PermittedIsAllowed(p, n, a);
    UnblockedNetwork(n, a);
  }

  /** The block a private range was split from, and the first address of the other half. */
  function Parent(r: Net): (Net, nat) {
    if r.base == 0x0A00_0000 then (Net(V4, 0x0A00_0000, 7), 0x0B00_0000)
    else if r.base == 0xAC10_0000 then (Net(V4, 0xAC00_0000, 11), 0xAC00_0000)
    else if r.base == 0xC0A8_0000 then (Net(V4, 0xC0A8_0000, 15), 0xC0A9_0000)
    else (Net(V4, 0x7E00_0000, 7), 0x7E00_0000)
  }

  lemma NotPrivate(a: nat)
    requires a in {0x0B00_0000, 0xAC00_0000, 0xC0A9_0000, 0x7E00_0000}
    ensures !IsPrivate(V4, a)
  {
    Pow2Values();
    RangesValid();
    forall r | r in PRIVATE ensures !r.Contains(V4, a) {
      ContainsIsRange(r, a);
    }
  }

  lemma ParentContains(r: Net)
    requires r in PRIVATE
    ensures var (parent, other) := Parent(r);
            && parent.Valid() && parent.version == V4 && parent.prefix == r.prefix - 1
            && parent.base <= r.base <= parent.Last() && parent.base <= other <= parent.Last()
  {
    Pow2Values();
  }

  lemma ParentLeavesPrivate(r: Net)
    requires r in PRIVATE
    ensures var (parent, other) := Parent(r);
            && parent.Valid() && parent.version == V4 && parent.prefix == r.prefix - 1
            && parent.base <= r.base <= parent.Last() && parent.base <= other <= parent.Last()
            && !IsPrivate(V4, other)
  {
    ParentContains(r);
    NotPrivate(Parent(r).1);
  }

  /** Without an allow list, the addresses of a target that overlaps the private ranges are
      all private exactly when its prefix is as long as that of a range it overlaps. */
  lemma PrivateExactlyWhenNarrow(n: Net)
    requires n.Valid() && OverlapsPrivate(n)
    ensures (forall a | n.Contains(n.version, a) :: IsPrivate(n.version, a))
       <==> exists r | r in PRIVATE :: n.prefix >= r.prefix && Overlaps(n, r)
  {
    RangesValid();
    if r :| r in PRIVATE && n.prefix >= r.prefix && Overlaps(n, r) {
      OverlapIsSharing(n, r);
      NestOrDisjoint(n, r);
      forall a | n.Contains(n.version, a) ensures IsPrivate(n.version, a) {
        SubnetShares(n, r, a);
      }
    } else {
      var r :| r in PRIVATE && n.version == r.version && (SubnetOf(n, r) || Overlaps(n, r));
      OverlapIsSharing(n, r);
      WideHasPublic(n, r);
    }
  }

  lemma WideHasPublic(n: Net, r: Net)
    requires n.Valid() && r in PRIVATE && Overlaps(n, r) && n.prefix < r.prefix && n.version == V4
    ensures exists a :: n.Contains(V4, a) && !IsPrivate(V4, a)
  {
    RangesValid();
    ParentLeavesPrivate(r);
    var (parent, other) := Parent(r);
    NestOrDisjointSymmetric(r, n);
    assert n.base <= r.base && r.base <= n.Last();
    OverlapIsSharing(parent, n);
    NestOrDisjoint(parent, n);
    ContainsIsRange(n, other);
  }

  lemma NestOrDisjointSymmetric(r: Net, n: Net)
    requires r.Valid() && n.Valid() && Overlaps(n, r) && n.prefix <= r.prefix
    ensures SubnetOf(r, n) && r.version == n.version
  {
    OverlapIsSharing(n, r);
    OverlapIsSharing(r, n);
    NestOrDisjoint(r, n);
  }

  /** `8.0.0.0/5` is such a target: safe mode accepts it with an empty allow list, and it
      holds the public address 8.8.8.8. */
  lemma BroadTargetAccepted(allowLoopback: bool)
    ensures var n := Net(V4, 0x0800_0000, 5);
            n.Valid() && Judged(n, true, Settings(allowLoopback, [])) == Accepted
            && n.Contains(V4, 0x0808_0808) && !IsPrivate(V4, 0x0808_0808)
  {
    Pow2Values();
    RangesValid();
    var n := Net(V4, 0x0800_0000, 5);
    assert n.Size() == 0x800_0000;
    forall b | b in BLOCKED ensures !Overlaps(n, b) {
      OverlapIsSharing(n, b);
    }
    OverlapIsSharing(n, PRIVATE[0]);
    assert PRIVATE[0] in PRIVATE;
    forall r | r in PRIVATE ensures !r.Contains(V4, 0x0808_0808) {
      ContainsIsRange(r, 0x0808_0808);
    }
  }
}
