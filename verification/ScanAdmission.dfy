/** Scan admissions under Redis failures: the limiter object, and a machine that interleaves
    the atomic blocks of any number of checks in flight. */
module ScanAdmission {
  import opened Arithmetic
  import opened ScanRateLimiter

  /** How a Redis pipeline ends: `ReplyLost` means that the server ran it but the caller saw
      an error, `Unreached` that the server never saw it. */
  datatype Pipe = Replied | ReplyLost | Unreached

  /** A check that passed the minute tier and has not reached the hour tier yet. */
  datatype Pass = Pass(ip: string, second: int)

  datatype Admission = Admission(ip: string, second: int, viaRedis: bool)

  datatype Server = Server(counters: Counters, history: History, clock: real,
                           inFlight: seq<Pass>, log: seq<Admission>)

  const FRESH := Server(map[], map[], 0.0, [], [])

  /** The blocks of `check` between two awaits. */
  datatype Event =
    | FirstPipe(ip: string, second: int, pipe: Pipe)
    | SecondPipe(i: nat, pipe: Pipe)
    | InMemory(ip: string, now: real)

  predicate Enabled(s: Server, e: Event) {
    match e
    case FirstPipe(_, _, _) => true
    case SecondPipe(i, _) => i < |s.inFlight|
    case InMemory(_, now) => s.clock <= now
  }

  function AfterPipe(k: Counters, b: Bucket, p: Pipe): Counters {
    if p.Unreached? then k else Bump(k, b)
  }

  function TakeFirst(c: Config, s: Server, ip: string, second: int, p: Pipe): Server
    requires c.Valid()
  {
    var b := BucketOf(c, ip, Minute, second);
    var k := AfterPipe(s.counters, b, p);
    s.(counters := k,
       inFlight := if p.Replied? && k[b] <= c.rateLimit then s.inFlight + [Pass(ip, second)] else s.inFlight)
  }

  function TakeSecond(c: Config, s: Server, i: nat, p: Pipe): Server
    requires c.Valid() && i < |s.inFlight|
  {
    var pass := s.inFlight[i];
    var b := BucketOf(c, pass.ip, Hour, pass.second);
    var k := AfterPipe(s.counters, b, p);
    s.(counters := k, inFlight := s.inFlight[..i] + s.inFlight[i + 1..],
       log := if p.Replied? && k[b] <= c.burstLimit
              then s.log + [Admission(pass.ip, pass.second, true)] else s.log)
  }

  function TakeInMemory(c: Config, s: Server, ip: string, now: real): Server
    requires c.Valid()
  {
    var (h, v) := Fallback(c, s.history, ip, now);
    s.(history := h, clock := now,
       log := if v.Admit? then s.log + [Admission(ip, now.Floor, false)] else s.log)
  }

  /** An event that is not enabled does not happen. */
  function Step(c: Config, s: Server, e: Event): Server
    requires c.Valid()
  {
    if !Enabled(s, e) then s
    else
      match e
      case FirstPipe(ip, second, p) => TakeFirst(c, s, ip, second, p)
      case SecondPipe(i, p) => TakeSecond(c, s, i, p)
      case InMemory(ip, now) => TakeInMemory(c, s, ip, now)
  }

  function Run(c: Config, s: Server, es: seq<Event>): Server
    requires c.Valid()
  {
    if es == [] then s else Step(c, Run(c, s, es[..|es| - 1]), es[|es| - 1])
  }

  // ------------------------------------------------------------------ counting

  predicate Hits(c: Config, b: Bucket, ip: string, second: int)
    requires c.Valid()
  {
    BucketOf(c, ip, b.tier, second) == b
  }

  /** The admissions of one backend in a client's aligned window. */
  function InWindow(c: Config, log: seq<Admission>, b: Bucket, viaRedis: bool): nat
    requires c.Valid()
  {
    if log == [] then 0
    else
      var a := log[|log| - 1];
      InWindow(c, log[..|log| - 1], b, viaRedis)
        + if a.viaRedis == viaRedis && Hits(c, b, a.ip, a.second) then 1 else 0
  }

  function Passed(c: Config, ps: seq<Pass>, b: Bucket): nat
    requires c.Valid()
  {
    if ps == [] then 0
    else Passed(c, ps[..|ps| - 1], b) + if Hits(c, b, ps[|ps| - 1].ip, ps[|ps| - 1].second) then 1 else 0
  }

  lemma InWindowSnoc(c: Config, log: seq<Admission>, a: Admission, b: Bucket, viaRedis: bool)
    requires c.Valid()
    ensures InWindow(c, log + [a], b, viaRedis) == InWindow(c, log, b, viaRedis)
              + if a.viaRedis == viaRedis && Hits(c, b, a.ip, a.second) then 1 else 0
  {
    assert (log + [a])[..|log|] == log;
  }

  lemma PassedSnoc(c: Config, ps: seq<Pass>, p: Pass, b: Bucket)
    requires c.Valid()
    ensures Passed(c, ps + [p], b) == Passed(c, ps, b) + if Hits(c, b, p.ip, p.second) then 1 else 0
  {
    assert (ps + [p])[..|ps|] == ps;
  }

  lemma {:induction false} PassedRemove(c: Config, ps: seq<Pass>, i: nat, b: Bucket)
    requires c.Valid() && i < |ps|
    ensures Passed(c, ps, b) == Passed(c, ps[..i] + ps[i + 1..], b)
                                  + if Hits(c, b, ps[i].ip, ps[i].second) then 1 else 0
    decreases |ps|
  {
    var n := |ps| - 1;
    var front := ps[..n];
    PassedSnoc(c, front, ps[n], b);
    RemoveBeforeLast(ps, i);
    if i == n {
    } else {
      PassedRemove(c, front, i, b);
      PassedSnoc(c, front[..i] + front[i + 1..], ps[n], b);
    }
  }

  lemma RemoveBeforeLast(ps: seq<Pass>, i: nat)
    requires i < |ps|
    ensures var n := |ps| - 1;
            var front := ps[..n];
            && ps == front + [ps[n]]
            && ps[..i] + ps[i + 1..] == if i == n then front else front[..i] + front[i + 1..] + [ps[n]]
  {}

  // ----------------------------------------------------------------- the bound

  ghost predicate RedisBounded(c: Config, s: Server)
    requires c.Valid()
  {
    && (forall b: Bucket | b.tier.Minute? ::
          InWindow(c, s.log, b, true) + Passed(c, s.inFlight, b) <= Min(CountIn(s.counters, b), c.rateLimit))
    && (forall b: Bucket | b.tier.Hour? ::
          InWindow(c, s.log, b, true) <= Min(CountIn(s.counters, b), c.burstLimit))
  }

  ghost predicate MemoryBounded(c: Config, s: Server)
    requires c.Valid()
  {
    && Stamped(c, s.history, s.clock)
    && (forall b :: InWindow(c, s.log, b, false) <= c.Limit(b.tier))
    && (forall b | Current(c, b, s.clock) :: |At(s.history, b)| == InWindow(c, s.log, b, false))
  }

  lemma FirstBounded(c: Config, s: Server, ip: string, second: int, p: Pipe)
    requires c.Valid() && RedisBounded(c, s)
    ensures RedisBounded(c, TakeFirst(c, s, ip, second, p))
  {
    forall b ensures Passed(c, s.inFlight + [Pass(ip, second)], b)
                  == Passed(c, s.inFlight, b) + if Hits(c, b, ip, second) then 1 else 0
    {
      PassedSnoc(c, s.inFlight, Pass(ip, second), b);
    }
    FirstKept(c, s, BucketOf(c, ip, Minute, second), p, TakeFirst(c, s, ip, second, p));
  }

  lemma FirstKept(c: Config, s: Server, bm: Bucket, p: Pipe, s': Server)
    requires c.Valid() && RedisBounded(c, s) && bm.tier.Minute?
    requires s'.counters == AfterPipe(s.counters, bm, p) && s'.log == s.log
    requires forall b: Bucket | b.tier.Minute? ::
               Passed(c, s'.inFlight, b) == Passed(c, s.inFlight, b)
                 + if p.Replied? && CountIn(s'.counters, bm) <= c.rateLimit && b == bm then 1 else 0
    ensures RedisBounded(c, s')
  {
  }

  lemma PassLeaves(c: Config, ps: seq<Pass>, i: nat, left: seq<Pass>)
    requires c.Valid() && i < |ps| && left == ps[..i] + ps[i + 1..]
    ensures forall b :: Passed(c, ps, b) == Passed(c, left, b) + if Hits(c, b, ps[i].ip, ps[i].second) then 1 else 0
  {
    forall b ensures Passed(c, ps, b) == Passed(c, left, b) + if Hits(c, b, ps[i].ip, ps[i].second) then 1 else 0 {
      PassedRemove(c, ps, i, b);
    }
  }

  lemma Logged(c: Config, log: seq<Admission>, a: Admission, after: seq<Admission>)
    requires c.Valid() && after == log + [a] && a.viaRedis
    ensures forall b :: InWindow(c, after, b, true)
                     == InWindow(c, log, b, true) + if Hits(c, b, a.ip, a.second) then 1 else 0
  {
    forall b ensures InWindow(c, after, b, true)
                  == InWindow(c, log, b, true) + if Hits(c, b, a.ip, a.second) then 1 else 0
    {
      InWindowSnoc(c, log, a, b, true);
    }
  }

  lemma SecondBounded(c: Config, s: Server, i: nat, p: Pipe)
    requires c.Valid() && i < |s.inFlight| && RedisBounded(c, s)
    ensures RedisBounded(c, TakeSecond(c, s, i, p))
  {
    var pass := s.inFlight[i];
    var left := s.inFlight[..i] + s.inFlight[i + 1..];
    var one := Admission(pass.ip, pass.second, true);
    PassLeaves(c, s.inFlight, i, left);
    Logged(c, s.log, one, s.log + [one]);
    SecondKept(c, s, BucketOf(c, pass.ip, Minute, pass.second), BucketOf(c, pass.ip, Hour, pass.second),
               p, TakeSecond(c, s, i, p));
  }

  lemma SecondKept(c: Config, s: Server, bm: Bucket, bh: Bucket, p: Pipe, s': Server)
    requires c.Valid() && RedisBounded(c, s) && bm.tier.Minute? && bh.tier.Hour?
    requires s'.counters == AfterPipe(s.counters, bh, p)
    requires forall b: Bucket | b.tier.Minute? ::
               Passed(c, s.inFlight, b) == Passed(c, s'.inFlight, b) + if b == bm then 1 else 0
    requires forall b ::
               InWindow(c, s'.log, b, true) == InWindow(c, s.log, b, true)
                 + if p.Replied? && CountIn(s'.counters, bh) <= c.burstLimit && b in {bm, bh} then 1 else 0
    ensures RedisBounded(c, s')
  {
  }

  lemma OtherBackend(c: Config, log: seq<Admission>, a: Admission, other: bool)
    requires c.Valid() && a.viaRedis != other
    ensures forall b :: InWindow(c, log + [a], b, other) == InWindow(c, log, b, other)
  {
    forall b ensures InWindow(c, log + [a], b, other) == InWindow(c, log, b, other) {
      InWindowSnoc(c, log, a, b, other);
    }
  }

  lemma InMemoryLog(c: Config, log: seq<Admission>, ip: string, now: real, admit: bool, after: seq<Admission>)
    requires c.Valid() && after == if admit then log + [Admission(ip, now.Floor, false)] else log
    ensures forall b :: InWindow(c, after, b, false)
                     == InWindow(c, log, b, false) + if admit && Hits(c, b, ip, now.Floor) then 1 else 0
  {
    forall b ensures InWindow(c, log + [Admission(ip, now.Floor, false)], b, false)
                  == InWindow(c, log, b, false) + if Hits(c, b, ip, now.Floor) then 1 else 0
    {
      InWindowSnoc(c, log, Admission(ip, now.Floor, false), b, false);
    }
  }

  /** The effect of a fallback check on the numbers of recorded instants. */
  lemma FallbackCounts(c: Config, h: History, clock: real, ip: string, now: real, h': History, admit: bool)
    requires c.Valid() && clock <= now && Stamped(c, h, clock)
    requires h' == Fallback(c, h, ip, now).0 && admit == Fallback(c, h, ip, now).1.Admit?
    ensures var bm, bh := BucketOf(c, ip, Minute, now.Floor), BucketOf(c, ip, Hour, now.Floor);
            && Stamped(c, h', now) && Current(c, bm, now) && Current(c, bh, now)
            && (admit <==> |At(h, bm)| < c.rateLimit && |At(h, bh)| < c.burstLimit)
            && (forall b | Current(c, b, now) ::
                  |At(h', b)| == |At(h, b)| + if admit && b in {bm, bh} then 1 else 0)
  {
    FallbackEffect(c, h, clock, ip, now);
  }

  lemma StillCurrent(c: Config, clock: real, now: real)
    requires c.Valid() && clock <= now
    ensures forall b | Current(c, b, now) :: Current(c, b, clock)
  {
    forall b | Current(c, b, now) ensures Current(c, b, clock) {
      CurrentEarlier(c, b, clock, now);
    }
  }

  lemma InMemoryBounded(c: Config, s: Server, ip: string, now: real)
    requires c.Valid() && s.clock <= now && MemoryBounded(c, s)
    ensures MemoryBounded(c, TakeInMemory(c, s, ip, now))
  {
    var s', admit := TakeInMemory(c, s, ip, now), Fallback(c, s.history, ip, now).1.Admit?;
    FallbackCounts(c, s.history, s.clock, ip, now, s'.history, admit);
    InMemoryLog(c, s.log, ip, now, admit, s'.log);
    StillCurrent(c, s.clock, now);
    InMemoryKept(c, s, s'.history, now, BucketOf(c, ip, Minute, now.Floor), BucketOf(c, ip, Hour, now.Floor),
                 admit, s');
  }

  lemma InMemoryKept(c: Config, s: Server, h: History, now: real, bm: Bucket, bh: Bucket, admit: bool, s': Server)
    requires c.Valid() && MemoryBounded(c, s) && Stamped(c, h, now)
    requires forall b | Current(c, b, now) :: Current(c, b, s.clock)
    requires bm.tier.Minute? && bh.tier.Hour? && Current(c, bm, now) && Current(c, bh, now)
    requires admit <==> |At(s.history, bm)| < c.rateLimit && |At(s.history, bh)| < c.burstLimit
    requires forall b | Current(c, b, now) ::
               |At(h, b)| == |At(s.history, b)| + if admit && b in {bm, bh} then 1 else 0
    requires s'.history == h && s'.clock == now
    requires forall b :: InWindow(c, s'.log, b, false)
                      == InWindow(c, s.log, b, false) + if admit && b in {bm, bh} then 1 else 0
    ensures MemoryBounded(c, s')
  {
  }

  lemma StepBounded(c: Config, s: Server, e: Event)
    requires c.Valid() && RedisBounded(c, s) && MemoryBounded(c, s)
    ensures RedisBounded(c, Step(c, s, e)) && MemoryBounded(c, Step(c, s, e))
  {
    if Enabled(s, e) {
      match e {
        case FirstPipe(ip, second, p) =>
          FirstBounded(c, s, ip, second, p);
        case SecondPipe(i, p) =>
          SecondBounded(c, s, i, p);
          OtherBackend(c, s.log, Admission(s.inFlight[i].ip, s.inFlight[i].second, true), false);
        case InMemory(ip, now) =>
          InMemoryBounded(c, s, ip, now);
          OtherBackend(c, s.log, Admission(ip, now.Floor, false), true);
      }
    }
  }

  /** Whatever Redis does and however checks interleave, each backend admits at most the
      limit in a client's aligned window, so both together at most twice the limit.  A rate limit
      of zero turns the limiter off (`DisabledIff`). */
  lemma {:induction false} AdmissionsBounded(c: Config, es: seq<Event>)
    requires c.Valid() && c.rateLimit >= 1
    ensures RedisBounded(c, Run(c, FRESH, es)) && MemoryBounded(c, Run(c, FRESH, es))
    ensures forall b, viaRedis :: InWindow(c, Run(c, FRESH, es).log, b, viaRedis) <= c.Limit(b.tier)
  {
    if es == [] {
    } else {
      var n := |es| - 1;
      AdmissionsBounded(c, es[..n]);
      StepBounded(c, Run(c, FRESH, es[..n]), es[n]);
    }
    forall b, viaRedis: bool ensures InWindow(c, Run(c, FRESH, es).log, b, viaRedis) <= c.Limit(b.tier) {
      assert b.tier.Minute? || b.tier.Hour?;
    }
  }

  /** The admissions of one backend for a client between two seconds, both included. */
  function Between(log: seq<Admission>, ip: string, lo: int, hi: int, viaRedis: bool): nat {
    if log == [] then 0
    else
      var a := log[|log| - 1];
      Between(log[..|log| - 1], ip, lo, hi, viaRedis)
        + if a.viaRedis == viaRedis && a.ip == ip && lo <= a.second <= hi then 1 else 0
  }

  /** A stretch of one window length meets two aligned windows at most. */
  lemma {:induction false} StretchMeetsTwoWindows(c: Config, log: seq<Admission>, ip: string, t: Tier,
                                                  lo: int, viaRedis: bool)
    requires c.Valid()
    ensures var w := WindowAt(lo, c.Size(t));
            Between(log, ip, lo, lo + c.Size(t), viaRedis)
              <= InWindow(c, log, Bucket(ip, t, w), viaRedis) + InWindow(c, log, Bucket(ip, t, w + 1), viaRedis)
  {
    if log == [] {
    } else {
      var a := log[|log| - 1];
      var size := c.Size(t);
      StretchMeetsTwoWindows(c, log[..|log| - 1], ip, t, lo, viaRedis);
      if lo <= a.second <= lo + size {
        var w := lo / size;
        QuotientBounds(lo, size);
        assert (w + 2) * size == (w + 1) * size + size;
        if a.second < (w + 1) * size {
          QuotientBetween(a.second, size, w);
        } else {
          QuotientBetween(a.second, size, w + 1);
        }
      }
    }
  }

  /** In any stretch of one window length, a client gets at most twice the limit from one
      backend and four times the limit from both, in every run. */
  lemma StretchBounded(c: Config, es: seq<Event>, ip: string, t: Tier, lo: int)
    requires c.Valid() && c.rateLimit >= 1
    ensures var log, hi := Run(c, FRESH, es).log, lo + c.Size(t);
            Between(log, ip, lo, hi, true) <= 2 * c.Limit(t) && Between(log, ip, lo, hi, false) <= 2 * c.Limit(t)
  {
    AdmissionsBounded(c, es);
    var log := Run(c, FRESH, es).log;
    StretchMeetsTwoWindows(c, log, ip, t, lo, true);
    StretchMeetsTwoWindows(c, log, ip, t, lo, false);
  }

  // ------------------------------------------- the windows are aligned and do not slide

  function Copies<T>(x: T, n: nat): seq<T> { seq(n, i => x) }

  lemma CopiesSnoc<T>(x: T, n: nat)
    requires n > 0
    ensures Copies(x, n) == Copies(x, n - 1) + [x]
  {}

  lemma {:induction false} CopiesInWindow(c: Config, log: seq<Admission>, a: Admission, n: nat, b: Bucket)
    requires c.Valid() && !a.viaRedis
    ensures InWindow(c, log + Copies(a, n), b, false)
         == InWindow(c, log, b, false) + if Hits(c, b, a.ip, a.second) then n else 0
  {
    if n == 0 {
      assert log + Copies(a, 0) == log;
    } else {
      CopiesSnoc(a, n);
      CopiesInWindow(c, log, a, n - 1, b);
      InWindowSnoc(c, log + Copies(a, n - 1), a, b, false);
      assert log + Copies(a, n) == log + Copies(a, n - 1) + [a];
    }
  }

  lemma BetweenSnoc(log: seq<Admission>, a: Admission, ip: string, lo: int, hi: int, viaRedis: bool)
    ensures Between(log + [a], ip, lo, hi, viaRedis) == Between(log, ip, lo, hi, viaRedis)
              + if a.viaRedis == viaRedis && a.ip == ip && lo <= a.second <= hi then 1 else 0
  {
    assert (log + [a])[..|log|] == log;
  }

  lemma {:induction false} CopiesBetween(log: seq<Admission>, a: Admission, n: nat, lo: int, hi: int)
    requires !a.viaRedis && lo <= a.second <= hi
    ensures Between(log + Copies(a, n), a.ip, lo, hi, false) == Between(log, a.ip, lo, hi, false) + n
  {
    if n == 0 {
      assert log + Copies(a, 0) == log;
    } else {
      CopiesSnoc(a, n);
      CopiesBetween(log, a, n - 1, lo, hi);
      BetweenSnoc(log + Copies(a, n - 1), a, a.ip, lo, hi, false);
      assert log + Copies(a, n) == log + Copies(a, n - 1) + [a];
    }
  }

  /** Both windows have room for `n` more requests in memory. */
  predicate RoomFor(c: Config, log: seq<Admission>, ip: string, second: nat, n: nat)
    requires c.Valid()
  {
    && InWindow(c, log, BucketOf(c, ip, Minute, second), false) + n <= c.rateLimit
    && InWindow(c, log, BucketOf(c, ip, Hour, second), false) + n <= c.burstLimit
  }

  lemma RoomLeft(c: Config, log: seq<Admission>, ip: string, second: nat, n: nat, m: nat)
    requires c.Valid() && m <= n && RoomFor(c, log, ip, second, n)
    ensures RoomFor(c, log + Copies(Admission(ip, second, false), m), ip, second, n - m)
  {
    CopiesInWindow(c, log, Admission(ip, second, false), m, BucketOf(c, ip, Minute, second));
    CopiesInWindow(c, log, Admission(ip, second, false), m, BucketOf(c, ip, Hour, second));
  }

  lemma OneMoreAdmitted(c: Config, es: seq<Event>, ip: string, second: nat)
    requires c.Valid() && c.rateLimit >= 1 && Run(c, FRESH, es).clock <= second as real
    requires RoomFor(c, Run(c, FRESH, es).log, ip, second, 1)
    ensures var s, s' := Run(c, FRESH, es), Run(c, FRESH, es + [InMemory(ip, second as real)]);
            s'.clock == second as real && s'.log == s.log + [Admission(ip, second, false)]
  {
    var s, now := Run(c, FRESH, es), second as real;
    AdmissionsBounded(c, es);
    RunSnoc(c, FRESH, es, InMemory(ip, now));
    StillCurrent(c, s.clock, now);
    assert now.Floor == second;
    var (h, v) := Fallback(c, s.history, ip, now);
    FallbackCounts(c, s.history, s.clock, ip, now, h, v.Admit?);
  }

  lemma CopiesCons<T>(s: seq<T>, x: T, n: nat)
    requires n > 0
    ensures s + Copies(x, n) == s + [x] + Copies(x, n - 1)
  {}

  lemma CopiesNone<T>(s: seq<T>, x: T)
    ensures s + Copies(x, 0) == s
  {}

  /** `out` comes after `es` and a burst of `n` requests of one second, all of them admitted. */
  ghost predicate Grants(c: Config, es: seq<Event>, out: seq<Event>, ip: string, second: nat, n: nat)
    requires c.Valid()
  {
    && Run(c, FRESH, out).clock <= second as real
    && Run(c, FRESH, out).log == Run(c, FRESH, es).log + Copies(Admission(ip, second, false), n)
  }

  lemma BurstStep(c: Config, es: seq<Event>, ip: string, second: nat, n: nat) returns (next: seq<Event>)
    requires c.Valid() && c.rateLimit >= 1 && Run(c, FRESH, es).clock <= second as real
    requires n > 0 && RoomFor(c, Run(c, FRESH, es).log, ip, second, n)
    ensures next == es + [InMemory(ip, second as real)] && Grants(c, es, next, ip, second, 1)
    ensures RoomFor(c, Run(c, FRESH, next).log, ip, second, n - 1)
  {
    var log, a := Run(c, FRESH, es).log, Admission(ip, second, false);
    next := es + [InMemory(ip, second as real)];
    OneMoreAdmitted(c, es, ip, second);
    RoomLeft(c, log, ip, second, n, 1);
    CopiesCons(log, a, 1);
    CopiesNone(log + [a], a);
  }

  lemma GrantsJoined(c: Config, es: seq<Event>, next: seq<Event>, out: seq<Event>, ip: string, second: nat, n: nat)
    requires c.Valid() && n > 0 && Grants(c, es, next, ip, second, 1) && Grants(c, next, out, ip, second, n - 1)
    ensures Grants(c, es, out, ip, second, n)
  {
    var log, a := Run(c, FRESH, es).log, Admission(ip, second, false);
    CopiesCons(log, a, n);
    CopiesCons(log, a, 1);
    CopiesNone(log + [a], a);
  }

  lemma {:induction false} BurstGranted(c: Config, es: seq<Event>, ip: string, second: nat, n: nat)
    returns (out: seq<Event>)
    requires c.Valid() && c.rateLimit >= 1 && Run(c, FRESH, es).clock <= second as real
    requires RoomFor(c, Run(c, FRESH, es).log, ip, second, n)
    ensures out == es + Copies(InMemory(ip, second as real), n) && Grants(c, es, out, ip, second, n)
    decreases n
  {
    var e := InMemory(ip, second as real);
    if n == 0 {
      out := es;
      CopiesNone(es, e);
      CopiesNone(Run(c, FRESH, es).log, Admission(ip, second, false));
    } else {
      var next := BurstStep(c, es, ip, second, n);
      out := BurstGranted(c, next, ip, second, n - 1);
      GrantsJoined(c, es, next, out, ip, second, n);
      CopiesCons(es, e, n);
    }
  }

  lemma BurstAdmitted(c: Config, es: seq<Event>, ip: string, second: nat, n: nat)
    requires c.Valid() && c.rateLimit >= 1 && Run(c, FRESH, es).clock <= second as real
    requires RoomFor(c, Run(c, FRESH, es).log, ip, second, n)
    ensures Run(c, FRESH, es + Copies(InMemory(ip, second as real), n)).clock <= second as real
    ensures Run(c, FRESH, es + Copies(InMemory(ip, second as real), n)).log
         == Run(c, FRESH, es).log + Copies(Admission(ip, second, false), n)
  {
    var out := BurstGranted(c, es, ip, second, n);
  }

  function OtherTier(t: Tier): Tier { if t.Minute? then Hour else Minute }

  /** A window's limit used up at its end, and the next window's at its start. */
  function TwoBursts(c: Config, t: Tier, ip: string, lo: nat): seq<Event>
    requires c.Valid()
  {
    var next := (WindowAt(lo, c.Size(t)) + 1) * c.Size(t);
    Copies(InMemory(ip, lo as real), c.Limit(t)) + Copies(InMemory(ip, next as real), c.Limit(t))
  }

  lemma NextWindow(lo: nat, size: nat)
    requires size >= 1
    ensures var next := (WindowAt(lo, size) + 1) * size;
            lo < next <= lo + size && WindowAt(next, size) == WindowAt(lo, size) + 1
            && (next <= lo + size - 1 <==> lo % size != 0)
  {
    var w := lo / size;
    QuotientBounds(lo, size);
    assert (w + 1) * size == w * size + size && (w + 2) * size == (w + 1) * size + size;
    QuotientBetween((w + 1) * size, size, w + 1);
    assert w * size + lo % size == lo;
  }

  lemma FirstBurst(c: Config, t: Tier, ip: string, lo: nat, next: nat)
    requires c.Valid() && c.rateLimit >= 1 && c.Limit(OtherTier(t)) >= 2 * c.Limit(t)
    requires WindowAt(next, c.Size(t)) != WindowAt(lo, c.Size(t))
    ensures var s := Run(c, FRESH, Copies(InMemory(ip, lo as real), c.Limit(t)));
            && s.clock <= lo as real && s.log == Copies(Admission(ip, lo, false), c.Limit(t))
            && RoomFor(c, s.log, ip, next, c.Limit(t))
  {
    var n, e, a := c.Limit(t), InMemory(ip, lo as real), Admission(ip, lo, false);
    var nothing: seq<Event>, none: seq<Admission> := [], [];
    assert Run(c, FRESH, nothing) == FRESH;
    BurstAdmitted(c, nothing, ip, lo, n);
    assert nothing + Copies(e, n) == Copies(e, n) && none + Copies(a, n) == Copies(a, n);
    CopiesInWindow(c, none, a, n, BucketOf(c, ip, Minute, next));
    CopiesInWindow(c, none, a, n, BucketOf(c, ip, Hour, next));
    assert !Hits(c, BucketOf(c, ip, t, next), ip, lo);
  }

  lemma BothBursts(ip: string, lo: nat, next: nat, n: nat, hi: nat)
    requires lo <= next <= hi
    ensures var log := Copies(Admission(ip, lo, false), n) + Copies(Admission(ip, next, false), n);
            Between(log, ip, lo, hi, false) == 2 * n
  {
    var none: seq<Admission>, a, b := [], Admission(ip, lo, false), Admission(ip, next, false);
    CopiesBetween(none, a, n, lo, hi);
    assert none + Copies(a, n) == Copies(a, n);
    CopiesBetween(Copies(a, n), b, n, lo, hi);
  }

  /** Twice the limit is reached, wherever the next window starts within the stretch and the other tier
      leaves room for as much. */
  lemma TwiceTheLimit(c: Config, t: Tier, ip: string, lo: nat, hi: nat)
    requires c.Valid() && c.rateLimit >= 1 && c.Limit(OtherTier(t)) >= 2 * c.Limit(t)
    requires (WindowAt(lo, c.Size(t)) + 1) * c.Size(t) <= hi
    ensures Between(Run(c, FRESH, TwoBursts(c, t, ip, lo)).log, ip, lo, hi, false) == 2 * c.Limit(t)
  {
    var n := c.Limit(t);
    var next: nat := (WindowAt(lo, c.Size(t)) + 1) * c.Size(t);
    NextWindow(lo, c.Size(t));
    FirstBurst(c, t, ip, lo, next);
    BurstAdmitted(c, Copies(InMemory(ip, lo as real), n), ip, next, n);
    BothBursts(ip, lo, next, n, hi);
  }

  lemma {:induction false} AlignedStretch(c: Config, log: seq<Admission>, ip: string, t: Tier, lo: nat, viaRedis: bool)
    requires c.Valid() && lo % c.Size(t) == 0
    ensures Between(log, ip, lo, lo + c.Size(t) - 1, viaRedis)
         == InWindow(c, log, Bucket(ip, t, WindowAt(lo, c.Size(t))), viaRedis)
  {
    if log == [] {
    } else {
      AlignedStretch(c, log[..|log| - 1], ip, t, lo, viaRedis);
      AlignedWindow(lo, c.Size(t), log[|log| - 1].second);
    }
  }

  lemma AlignedWindow(lo: nat, size: nat, second: int)
    requires size >= 1 && lo % size == 0
    ensures lo <= second <= lo + size - 1 <==> WindowAt(second, size) == WindowAt(lo, size)
  {
    var w := lo / size;
    assert w * size == lo && (w + 1) * size == w * size + size;
    QuotientBounds(second, size);
    if lo <= second <= lo + size - 1 {
      QuotientBetween(second, size, w);
    }
  }

  /** The admissions of one backend for a client in the stretch of one window length from `lo` on. */
  function InStretch(c: Config, t: Tier, es: seq<Event>, ip: string, lo: nat, viaRedis: bool): nat
    requires c.Valid()
  {
    Between(Run(c, FRESH, es).log, ip, lo, lo + c.Size(t) - 1, viaRedis)
  }

  ghost predicate StaysWithin(c: Config, t: Tier, lo: nat)
    requires c.Valid()
  {
    forall es, ip, viaRedis :: InStretch(c, t, es, ip, lo, viaRedis) <= c.Limit(t)
  }

  /** No run exceeds the limit in a stretch of one window length exactly if the stretch starts on a window
      boundary, the other tier leaving room for twice as much. */
  lemma StretchWithinLimitIff(c: Config, t: Tier, lo: nat)
    requires c.Valid() && c.rateLimit >= 1 && c.Limit(t) >= 1 && c.Limit(OtherTier(t)) >= 2 * c.Limit(t)
    ensures StaysWithin(c, t, lo) <==> lo % c.Size(t) == 0
  {
    if lo % c.Size(t) == 0 {
      forall es, ip, viaRedis ensures InStretch(c, t, es, ip, lo, viaRedis) <= c.Limit(t) {
        AdmissionsBounded(c, es);
        AlignedStretch(c, Run(c, FRESH, es).log, ip, t, lo, viaRedis);
      }
    } else {
      NextWindow(lo, c.Size(t));
      TwiceTheLimit(c, t, "", lo, lo + c.Size(t) - 1);
      assert InStretch(c, t, TwoBursts(c, t, "", lo), "", lo, false) == 2 * c.Limit(t);
    }
  }

  /** One request a minute, and two admitted within one second of each other. */
  lemma SlidingWindowMissed()
    ensures var c := Config(1, 60, 10, 3600);
            c.Valid() && Between(Run(c, FRESH, TwoBursts(c, Minute, "a", 59)).log, "a", 59, 60, false) == 2
  {
    TwiceTheLimit(Config(1, 60, 10, 3600), Minute, "a", 59, 60);
  }

  // ------------------------------------------------------------- a whole check

  datatype Attempt = Decided(v: Verdict) | Broken

  /** The Redis part of a check: the counters it leaves and how it ends. */
  function RedisAttempt(c: Config, k: Counters, ip: string, second: int, first: Pipe, next: Pipe)
    : (r: (Counters, Attempt))
    requires c.Valid()
  {
    var bm, bh := BucketOf(c, ip, Minute, second), BucketOf(c, ip, Hour, second);
    var k1 := AfterPipe(k, bm, first);
    if !first.Replied? then (k1, Broken)
    else if k1[bm] > c.rateLimit then (k1, Decided(RateExceeded(c.rateWindow - second % c.rateWindow)))
    else
      var k2 := AfterPipe(k1, bh, next);
      if !next.Replied? then (k2, Broken)
      else if k2[bh] > c.burstLimit then (k2, Decided(BurstExceeded(c.burstWindow - second % c.burstWindow)))
      else (k2, Decided(Admit))
  }

  datatype Checked = Checked(counters: Counters, history: History, redisFailed: bool, v: Verdict)

  /** A check that nothing interrupts; `later` is the clock when it reaches the fallback. */
  function CheckOutcome(c: Config, hasRedis: bool, k: Counters, h: History, failed: bool, ip: string,
                        now: real, later: real, pingOk: bool, first: Pipe, next: Pipe): Checked
    requires c.Valid()
  {
    var (h', v) := Fallback(c, h, ip, later);
    if c.rateLimit == 0 then Checked(k, h, failed, Admit)
    else if !hasRedis || (failed && !pingOk) then Checked(k, h', failed, v)
    else
      match RedisAttempt(c, k, ip, now.Floor, first, next)
      case (k', Broken) => Checked(k', h', true, v)
      case (k', Decided(d)) => Checked(k', h, false, d)
  }

  /** The history after `n` checks by one client at one instant, without Redis, and whether all were admitted. */
  function Repeated(c: Config, n: nat): (History, bool)
    requires c.Valid()
  {
    if n == 0 then (map[], true)
    else
      var (h, all) := Repeated(c, n - 1);
      var r := CheckOutcome(c, false, map[], h, false, "", 0.0, 0.0, true, Replied, Replied);
      (r.history, all && r.v.Admit?)
  }

  lemma {:induction false} RepeatedFills(c: Config, n: nat)
    requires c.Valid() && c.rateLimit >= 1
    ensures Stamped(c, Repeated(c, n).0, 0.0)
    ensures Repeated(c, n).1 ==> n <= c.rateLimit && |At(Repeated(c, n).0, BucketOf(c, "", Minute, 0))| == n
  {
    if n == 0 {
    } else {
      RepeatedFills(c, n - 1);
      FallbackEffect(c, Repeated(c, n - 1).0, 0.0, "", 0.0);
    }
  }

  lemma {:induction false} RepeatedPasses(c: Config, n: nat)
    requires c.Valid() && c.rateLimit == 0
    ensures Repeated(c, n).1
  {
    if n == 0 {
    } else {
      RepeatedPasses(c, n - 1);
    }
  }

  /** A rate limit of zero, and no other, turns the limiter off: then every check in every state admits and
      changes nothing; with any other limit, even one client's checks at one instant are not all admitted. */
  lemma DisabledIff(c: Config)
    requires c.Valid()
    ensures c.rateLimit == 0 <==> forall n :: Repeated(c, n).1
    ensures c.rateLimit == 0 ==>
              forall hasRedis, k, h, failed, ip, now, later, pingOk, first, next ::
                CheckOutcome(c, hasRedis, k, h, failed, ip, now, later, pingOk, first, next)
                  == Checked(k, h, failed, Admit)
  {
    if c.rateLimit == 0 {
      forall n ensures Repeated(c, n).1 {
        RepeatedPasses(c, n);
      }
    } else {
      RepeatedFills(c, c.rateLimit + 1);
      assert !Repeated(c, c.rateLimit + 1).1;
    }
  }

  /** The events of such a check. */
  function AttemptEvents(c: Config, k: Counters, ip: string, second: int, first: Pipe, next: Pipe): seq<Event>
    requires c.Valid()
  {
    var b := BucketOf(c, ip, Minute, second);
    if !first.Replied? || CountIn(k, b) + 1 > c.rateLimit then [FirstPipe(ip, second, first)]
    else [FirstPipe(ip, second, first), SecondPipe(0, next)]
  }

  function CheckEvents(c: Config, hasRedis: bool, k: Counters, failed: bool, ip: string,
                       now: real, later: real, pingOk: bool, first: Pipe, next: Pipe): seq<Event>
    requires c.Valid()
  {
    if c.rateLimit == 0 then []
    else if !hasRedis || (failed && !pingOk) then [InMemory(ip, later)]
    else
      AttemptEvents(c, k, ip, now.Floor, first, next)
        + if RedisAttempt(c, k, ip, now.Floor, first, next).1.Broken? then [InMemory(ip, later)] else []
  }

  lemma RunShort(c: Config, s: Server, e1: Event, e2: Event)
    requires c.Valid()
    ensures Run(c, s, [e1]) == Step(c, s, e1)
    ensures Run(c, s, [e1, e2]) == Step(c, Step(c, s, e1), e2)
  {
    assert [e1][..0] == [] && [e1, e2][..1] == [e1];
  }

  lemma RunSnoc(c: Config, s: Server, es: seq<Event>, e: Event)
    requires c.Valid()
    ensures Run(c, s, es + [e]) == Step(c, Run(c, s, es), e)
  {
    assert (es + [e])[..|es|] == es;
  }

  lemma AttemptIsARun(c: Config, k: Counters, h: History, clock: real, ip: string, second: int,
                      first: Pipe, next: Pipe)
    requires c.Valid()
    ensures var (k', a) := RedisAttempt(c, k, ip, second, first, next);
            Run(c, Server(k, h, clock, [], []), AttemptEvents(c, k, ip, second, first, next))
              == Server(k', h, clock, [], if a == Decided(Admit) then [Admission(ip, second, true)] else [])
  {
    var s := Server(k, h, clock, [], []);
    RunShort(c, s, FirstPipe(ip, second, first), SecondPipe(0, next));
    var s1 := Step(c, s, FirstPipe(ip, second, first));
    if first.Replied? && CountIn(k, BucketOf(c, ip, Minute, second)) + 1 <= c.rateLimit {
      assert s1.inFlight == [Pass(ip, second)];
    }
  }

  /** An uninterrupted check is a run of the machine: it leaves what the run leaves, and it
      admits exactly when the run logs an admission (a zero rate limit admits unlogged). */
  lemma CheckIsARun(c: Config, hasRedis: bool, k: Counters, h: History, failed: bool, clock: real, ip: string,
                    now: real, later: real, pingOk: bool, first: Pipe, next: Pipe)
    requires c.Valid() && clock <= later
    ensures var r := CheckOutcome(c, hasRedis, k, h, failed, ip, now, later, pingOk, first, next);
            var s := Run(c, Server(k, h, clock, [], []),
                         CheckEvents(c, hasRedis, k, failed, ip, now, later, pingOk, first, next));
            && r.counters == s.counters && r.history == s.history && s.inFlight == []
            && |s.log| == (if r.v.Admit? && c.rateLimit != 0 then 1 else 0)
  {
    var s := Server(k, h, clock, [], []);
    if c.rateLimit != 0 {
      RunShort(c, s, InMemory(ip, later), InMemory(ip, later));
      AttemptIsARun(c, k, h, clock, ip, now.Floor, first, next);
      RunSnoc(c, s, AttemptEvents(c, k, ip, now.Floor, first, next), InMemory(ip, later));
      assert AttemptEvents(c, k, ip, now.Floor, first, next) + []
          == AttemptEvents(c, k, ip, now.Floor, first, next);
    }
  }

  // ---------------------------------------------------------- the limiter object

  class Limiter {
    const c: Config
    const hasRedis: bool
    var history: History
    var redisFailed: bool
    var counters: Counters  // kept by the Redis server

    constructor (c: Config, hasRedis: bool)
      ensures this.c == c && this.hasRedis == hasRedis
      ensures history == map[] && counters == map[] && !redisFailed
    {
      this.c, this.hasRedis := c, hasRedis;
      history, counters, redisFailed := map[], map[], false;
    }

    method PruneHistory(cutoff: real)
      modifies this`history
      ensures history == Prune(old(history), cutoff)
    {
      ghost var was := history;
      var keys := history.Keys;
      while keys != {}
        invariant keys <= was.Keys
        invariant history.Keys == keys + Prune(was, cutoff).Keys
        invariant forall b | b in keys :: b in history && history[b] == was[b]
        invariant forall b | b in Prune(was, cutoff) && b !in keys ::
                    b in history && history[b] == Prune(was, cutoff)[b]
      {
        var b :| b in keys;
        var kept := KeepAfter(history[b], cutoff);
        if kept == [] {
          history := history - {b};
        } else {
          history := history[b := kept];
        }
        keys := keys - {b};
      }
    }

    method CheckFallback(ip: string, now: real) returns (v: Verdict)
      requires c.Valid()
      modifies this`history
      ensures (history, v) == Fallback(c, old(history), ip, now)
    {
      var bm := Bucket(ip, Minute, FloatWindow(now, c.rateWindow));
      var bh := Bucket(ip, Hour, FloatWindow(now, c.burstWindow));
      PruneHistory(Cutoff(c, now));
      history := history[bm := At(history, bm)];
      if |history[bm]| + 1 > c.rateLimit {
        return RateExceeded(c.rateWindow - now.Floor % c.rateWindow);
      }
      history := history[bh := At(history, bh)];
      if |history[bh]| + 1 > c.burstLimit {
        return BurstExceeded(c.burstWindow - now.Floor % c.burstWindow);
      }
      history := history[bm := history[bm] + [now]];
      history := history[bh := history[bh] + [now]];
      v := Admit;
    }

    method TryRedis(ip: string, second: int, first: Pipe, next: Pipe) returns (a: Attempt)
      requires c.Valid()
      modifies this`counters
      ensures (counters, a) == RedisAttempt(c, old(counters), ip, second, first, next)
    {
      var bm := BucketOf(c, ip, Minute, second);
      counters := AfterPipe(counters, bm, first);
      if !first.Replied? {
        return Broken;
      }
      if counters[bm] > c.rateLimit {
        return Decided(RateExceeded(c.rateWindow - second % c.rateWindow));
      }
      var bh := BucketOf(c, ip, Hour, second);
      counters := AfterPipe(counters, bh, next);
      if !next.Replied? {
        return Broken;
      }
      if counters[bh] > c.burstLimit {
        return Decided(BurstExceeded(c.burstWindow - second % c.burstWindow));
      }
      a := Decided(Admit);
    }

    method Check(ip: string, now: real, later: real, pingOk: bool, first: Pipe, next: Pipe)
      returns (v: Verdict)
      requires c.Valid()
      modifies this
      ensures Checked(counters, history, redisFailed, v)
           == CheckOutcome(c, hasRedis, old(counters), old(history), old(redisFailed),
                           ip, now, later, pingOk, first, next)
    {
      if c.rateLimit == 0 {
        return Admit;
      }
      if !hasRedis {
        v := CheckFallback(ip, later);
        return;
      }
      if redisFailed {
        if pingOk {
          redisFailed := false;
        } else {
          v := CheckFallback(ip, later);
          return;
        }
      }
      var a := TryRedis(ip, now.Floor, first, next);
      match a {
        case Decided(d) => v := d;
        case Broken =>
          redisFailed := true;
          v := CheckFallback(ip, later);
      }
    }
  }
}
