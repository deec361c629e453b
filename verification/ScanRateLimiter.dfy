/** The two-tier fixed-window limiter of scan requests (`rate_limiter.py`).

    Two backends count differently: Redis counts every request of a minute window,
    rejected or not, while the in-memory fallback records admitted requests only and
    prunes old ones.  A request may use either, depending on Redis failures. */
module ScanRateLimiter {
  import opened Arithmetic

  datatype Config = Config(rateLimit: nat, rateWindow: nat, burstLimit: nat, burstWindow: nat) {
    predicate Valid() { rateWindow >= 1 && burstWindow >= 1 }

    function Limit(t: Tier): nat { if t.Minute? then rateLimit else burstLimit }

    function Size(t: Tier): nat { if t.Minute? then rateWindow else burstWindow }

    function Longest(): nat { if rateWindow >= burstWindow then rateWindow else burstWindow }
  }

  datatype Tier = Minute | Hour
  datatype Bucket = Bucket(ip: string, tier: Tier, window: int)
  type History = map<Bucket, seq<real>>
  type Counters = map<Bucket, nat>

  datatype Verdict = Admit | RateExceeded(retryAfter: int) | BurstExceeded(retryAfter: int)

  // ---------------------------------------------------------------- windows

  /** The window of a whole second, as the Redis path computes it. */
  function WindowAt(second: int, size: nat): int
    requires size >= 1
  {
    second / size
  }

  /** `int(now // size)` on a fractional clock, as the fallback computes it. */
  function FloatWindow(now: real, size: nat): int
    requires size >= 1
  {
    (now / (size as real)).Floor
  }

  /** Both clocks put an instant in the same window. */
  lemma FloatWindowIsWindow(now: real, size: nat)
    requires size >= 1
    ensures FloatWindow(now, size) == WindowAt(now.Floor, size)
  {
    FloatWindowBounds(now, size);
    var q := FloatWindow(now, size);
    assert (q * size) as real <= now < ((q + 1) * size) as real;
    QuotientBetween(now.Floor, size, q);
  }

  lemma FloatWindowBounds(now: real, size: nat)
    requires size >= 1
    ensures (FloatWindow(now, size) * size) as real <= now
    ensures now < ((FloatWindow(now, size) + 1) * size) as real
  {
    var s := size as real;
    var q := FloatWindow(now, size);
    RealMulLt(q as real, now / s, s);
    RealMulLt(now / s, (q + 1) as real, s);
    assert now / s * s == now;
    assert (q * size) as real == q as real * s;
    assert ((q + 1) * size) as real == (q + 1) as real * s;
  }

  /** Instants of one window are less than a window length apart. */
  lemma SameWindowIsClose(a: real, b: real, size: nat)
    requires size >= 1 && FloatWindow(a, size) == FloatWindow(b, size)
    ensures b - a < size as real
  {
    FloatWindowBounds(a, size);
    FloatWindowBounds(b, size);
    var q := FloatWindow(a, size);
    assert (q + 1) * size == q * size + size;
  }

  function BucketOf(c: Config, ip: string, t: Tier, second: int): Bucket
    requires c.Valid()
  {
    Bucket(ip, t, WindowAt(second, c.Size(t)))
  }

  // --------------------------------------------------------- the fallback path

  function KeepAfter(stamps: seq<real>, cutoff: real): seq<real> {
    if stamps == [] then []
    else if stamps[0] > cutoff then [stamps[0]] + KeepAfter(stamps[1..], cutoff)
    else KeepAfter(stamps[1..], cutoff)
  }

  lemma {:induction false} KeepAfterAppend(stamps: seq<real>, x: real, cutoff: real)
    ensures KeepAfter(stamps + [x], cutoff)
         == KeepAfter(stamps, cutoff) + (if x > cutoff then [x] else [])
  {
    if stamps == [] {
      assert stamps + [x] == [x];
    } else {
      assert (stamps + [x])[1..] == stamps[1..] + [x];
      KeepAfterAppend(stamps[1..], x, cutoff);
    }
  }

  lemma {:induction false} KeepAfterAll(stamps: seq<real>, cutoff: real)
    requires forall x | x in stamps :: x > cutoff
    ensures KeepAfter(stamps, cutoff) == stamps
  {
    if stamps == [] {
    } else {
      assert stamps[0] in stamps && forall x | x in stamps[1..] :: x in stamps;
      KeepAfterAll(stamps[1..], cutoff);
    }
  }

  lemma {:induction false} KeepAfterIn(stamps: seq<real>, cutoff: real)
    ensures forall x | x in KeepAfter(stamps, cutoff) :: x in stamps && x > cutoff
  {
    if stamps == [] {
    } else {
      KeepAfterIn(stamps[1..], cutoff);
    }
  }

  function At(h: History, b: Bucket): seq<real> { if b in h then h[b] else [] }

  function Prune(h: History, cutoff: real): History {
    map b | b in h && KeepAfter(h[b], cutoff) != [] :: KeepAfter(h[b], cutoff)
  }

  function Cutoff(c: Config, now: real): real { now - (c.Longest() as real) }

  /** One fallback check: the new history and the verdict. */
  function Fallback(c: Config, h: History, ip: string, now: real): (r: (History, Verdict))
    requires c.Valid()
  {
    var bm := Bucket(ip, Minute, FloatWindow(now, c.rateWindow));
    var bh := Bucket(ip, Hour, FloatWindow(now, c.burstWindow));
    var h1 := Prune(h, Cutoff(c, now));
    var h2 := h1[bm := At(h1, bm)];
    if |At(h1, bm)| + 1 > c.rateLimit then
      (h2, RateExceeded(c.rateWindow - now.Floor % c.rateWindow))
    else
      var h3 := h2[bh := At(h2, bh)];
      if |At(h2, bh)| + 1 > c.burstLimit then
        (h3, BurstExceeded(c.burstWindow - now.Floor % c.burstWindow))
      else
        (h3[bm := At(h3, bm) + [now]][bh := At(h3, bh) + [now]], Admit)
  }

  // ------------------------------------------------------------ the Redis path

  function CountIn(k: Counters, b: Bucket): nat { if b in k then k[b] else 0 }

  function Bump(k: Counters, b: Bucket): Counters { k[b := CountIn(k, b) + 1] }

  /** One check on a healthy Redis at a whole second: the new counters and the verdict. */
  function RedisCheck(c: Config, k: Counters, ip: string, second: int): (r: (Counters, Verdict))
    requires c.Valid()
  {
    var bm := BucketOf(c, ip, Minute, second);
    var k1 := Bump(k, bm);
    if k1[bm] > c.rateLimit then (k1, RateExceeded(c.rateWindow - second % c.rateWindow))
    else
      var bh := BucketOf(c, ip, Hour, second);
      var k2 := Bump(k1, bh);
      if k2[bh] > c.burstLimit then (k2, BurstExceeded(c.burstWindow - second % c.burstWindow))
      else (k2, Admit)
  }

  // ---------------------------------------- the two paths admit the same requests

  datatype Request = Request(ip: string, now: real)

  ghost predicate Timed(trace: seq<Request>) {
    && (forall i | 0 <= i < |trace| :: trace[i].now >= 0.0)
    && (forall i, j | 0 <= i < j < |trace| :: trace[i].now <= trace[j].now)
  }

  /** Counters and decisions after serving a trace on Redis alone, from a fresh start. */
  function RedisRun(c: Config, trace: seq<Request>): (r: (Counters, seq<bool>))
    requires c.Valid()
  {
    if trace == [] then (map[], [])
    else
      var n := |trace| - 1;
      var (k, ds) := RedisRun(c, trace[..n]);
      var (k', v) := RedisCheck(c, k, trace[n].ip, trace[n].now.Floor);
      (k', ds + [v.Admit?])
  }

  /** History and decisions after serving a trace in memory alone, from a fresh start. */
  function FallbackRun(c: Config, trace: seq<Request>): (r: (History, seq<bool>))
    requires c.Valid()
  {
    if trace == [] then (map[], [])
    else
      var n := |trace| - 1;
      var (h, ds) := FallbackRun(c, trace[..n]);
      var (h', v) := Fallback(c, h, trace[n].ip, trace[n].now);
      (h', ds + [v.Admit?])
  }

  /** Every recorded instant is past and lies in the window of its bucket. */
  ghost predicate Stamped(c: Config, h: History, clock: real)
    requires c.Valid()
  {
    forall b, x | b in h && x in h[b] ::
      x <= clock && FloatWindow(x, c.Size(b.tier)) == b.window
  }

  ghost predicate Current(c: Config, b: Bucket, clock: real)
    requires c.Valid()
  {
    b.window >= FloatWindow(clock, c.Size(b.tier))
  }

  /** Pruning never touches a window that is still open. */
  lemma PruneKeepsOpenWindows(c: Config, h: History, clock: real, now: real, b: Bucket)
    requires c.Valid() && clock <= now && Stamped(c, h, clock)
    requires Current(c, b, now)
    ensures At(Prune(h, Cutoff(c, now)), b) == At(h, b)
  {
    var size := c.Size(b.tier);
    var cutoff := Cutoff(c, now);
    forall x | x in At(h, b) ensures x > cutoff {
      FloatWindowIsWindow(x, size);
      FloatWindowIsWindow(now, size);
      QuotientMonotone(x.Floor, now.Floor, size);
      SameWindowIsClose(x, now, size);
      assert size as real <= c.Longest() as real;
    }
    KeepAfterAll(At(h, b), cutoff);
  }

  lemma PruneKeepsStamped(c: Config, h: History, clock: real, cutoff: real)
    requires c.Valid() && Stamped(c, h, clock)
    ensures Stamped(c, Prune(h, cutoff), clock)
  {
    var p := Prune(h, cutoff);
    forall b, x | b in p && x in p[b]
      ensures x <= clock && FloatWindow(x, c.Size(b.tier)) == b.window
    {
      KeepAfterIn(h[b], cutoff);
    }
  }

  lemma CurrentEarlier(c: Config, b: Bucket, clock: real, now: real)
    requires c.Valid() && clock <= now && Current(c, b, now)
    ensures Current(c, b, clock)
  {
    var size := c.Size(b.tier);
    FloatWindowIsWindow(clock, size);
    FloatWindowIsWindow(now, size);
    QuotientMonotone(clock.Floor, now.Floor, size);
  }

  /** One fallback check over the pruned history. */
  lemma FallbackUnfolds(c: Config, h: History, ip: string, now: real, bm: Bucket, bh: Bucket)
    requires c.Valid()
    requires bm == Bucket(ip, Minute, FloatWindow(now, c.rateWindow))
    requires bh == Bucket(ip, Hour, FloatWindow(now, c.burstWindow))
    ensures var p := Prune(h, Cutoff(c, now));
            var (h', v) := Fallback(c, h, ip, now);
            && (v.Admit? <==> |At(p, bm)| < c.rateLimit && |At(p, bh)| < c.burstLimit)
            && (forall b :: At(h', b) == At(p, b) + if v.Admit? && b in {bm, bh} then [now] else [])
  {
    forall s: seq<real> ensures s + [] == s {}
  }

  lemma RecordedStamped(c: Config, h: History, h': History, now: real, bm: Bucket, bh: Bucket, admit: bool)
    requires c.Valid() && Stamped(c, h, now)
    requires bm.tier.Minute? && bm.window == FloatWindow(now, c.rateWindow)
    requires bh.tier.Hour? && bh.window == FloatWindow(now, c.burstWindow)
    requires forall b :: At(h', b) == At(h, b) + if admit && b in {bm, bh} then [now] else []
    ensures Stamped(c, h', now)
  {
    forall b, x | b in h' && x in h'[b] ensures x <= now && FloatWindow(x, c.Size(b.tier)) == b.window {
      assert x in At(h', b);
      assert x in At(h, b) || (x == now && b in {bm, bh});
    }
  }

  /** What one fallback check does to the open windows. */
  lemma FallbackEffect(c: Config, h: History, clock: real, ip: string, now: real)
    requires c.Valid() && clock <= now && Stamped(c, h, clock)
    ensures var bm, bh := BucketOf(c, ip, Minute, now.Floor), BucketOf(c, ip, Hour, now.Floor);
            var (h', v) := Fallback(c, h, ip, now);
            && Stamped(c, h', now)
            && Current(c, bm, now) && Current(c, bh, now)
            && (v.Admit? <==> |At(h, bm)| < c.rateLimit && |At(h, bh)| < c.burstLimit)
            && (forall b | Current(c, b, now) ::
                  At(h', b) == At(h, b) + (if v.Admit? && b in {bm, bh} then [now] else []))
  {
    FloatWindowIsWindow(now, c.rateWindow);
    FloatWindowIsWindow(now, c.burstWindow);
    var bm, bh := BucketOf(c, ip, Minute, now.Floor), BucketOf(c, ip, Hour, now.Floor);
    var p := Prune(h, Cutoff(c, now));
    assert Current(c, bm, now) && Current(c, bh, now);
    PruneKeepsStamped(c, h, clock, Cutoff(c, now));
    FallbackUnfolds(c, h, ip, now, bm, bh);
    RecordedStamped(c, p, Fallback(c, h, ip, now).0, now, bm, bh, Fallback(c, h, ip, now).1.Admit?);
    forall b | Current(c, b, now) ensures At(p, b) == At(h, b) {
      PruneKeepsOpenWindows(c, h, clock, now, b);
    }
  }

  /** With minute windows nested in hour windows: the hour lists hold what Redis counted
      up to the limit and, while no request of the hour was refused by the hour tier, so do
      the minute lists. */
  ghost predicate Agree(c: Config, k: Counters, h: History, clock: real)
    requires c.Valid()
  {
    && Stamped(c, h, clock)
    && (forall b: Bucket | b.tier.Hour? && Current(c, b, clock) ::
          |At(h, b)| == Min(CountIn(k, b), c.burstLimit))
    && (forall b: Bucket | b.tier.Minute? && Current(c, b, clock) ::
          CountIn(k, HourOf(c, b)) <= c.burstLimit ==>
          |At(h, b)| == Min(CountIn(k, b), c.rateLimit))
  }

  function Min(a: nat, b: nat): nat { if a <= b then a else b }

  /** The hour bucket in which a minute window starts. */
  function HourOf(c: Config, b: Bucket): Bucket
    requires c.Valid()
  {
    Bucket(b.ip, Hour, WindowAt(b.window * c.rateWindow, c.burstWindow))
  }

  lemma HourContainsMinute(c: Config, second: int)
    requires c.Valid() && c.burstWindow % c.rateWindow == 0
    ensures WindowAt(WindowAt(second, c.rateWindow) * c.rateWindow, c.burstWindow)
         == WindowAt(second, c.burstWindow)
  {
    var r, b := c.rateWindow, c.burstWindow;
    var w, q := second / r, second / b;
    QuotientBounds(second, r);
    QuotientBounds(second, b);
    // the hour starts on a minute boundary, so not after the minute of this second
    var m := b / r;
    assert b == m * r;
    assert q * b == (q * m) * r;
    MulCancel(q * m, w + 1, r);
    MulLe(q * m, w, r);
    QuotientBetween(w * r, b, q);
  }

  /** What one Redis check does to the counters. */
  lemma RedisEffect(c: Config, k: Counters, ip: string, second: int)
    requires c.Valid()
    ensures var bm, bh := BucketOf(c, ip, Minute, second), BucketOf(c, ip, Hour, second);
            var (k', v) := RedisCheck(c, k, ip, second);
            && (v.Admit? <==> CountIn(k, bm) < c.rateLimit && CountIn(k, bh) < c.burstLimit)
            && (forall b :: CountIn(k', b) == CountIn(k, b) +
                  if b == bm || (b == bh && CountIn(k, bm) < c.rateLimit) then 1 else 0)
  {
  }

  lemma AgreeStep(c: Config, k: Counters, h: History, clock: real, ip: string, now: real)
    requires c.Valid() && c.rateLimit >= 1 && c.burstWindow % c.rateWindow == 0
    requires 0.0 <= clock <= now && Agree(c, k, h, clock)
    ensures var (k', rv) := RedisCheck(c, k, ip, now.Floor);
            var (h', fv) := Fallback(c, h, ip, now);
            Agree(c, k', h', now) && (rv.Admit? <==> fv.Admit?)
  {
    FallbackEffect(c, h, clock, ip, now);
    RedisEffect(c, k, ip, now.Floor);
    HourContainsMinute(c, now.Floor);
    forall b | Current(c, b, now) ensures Current(c, b, clock) {
      CurrentEarlier(c, b, clock, now);
    }
    var (k', rv) := RedisCheck(c, k, ip, now.Floor);
    var (h', fv) := Fallback(c, h, ip, now);
    AgreeKept(c, k, h, clock, k', h', now,
              BucketOf(c, ip, Minute, now.Floor), BucketOf(c, ip, Hour, now.Floor), rv.Admit?, fv.Admit?);
  }

  /** The step from the effects of the two checks alone. */
  lemma AgreeKept(c: Config, k: Counters, h: History, clock: real, k': Counters, h': History, now: real,
                  bm: Bucket, bh: Bucket, redis: bool, memory: bool)
    requires c.Valid() && Agree(c, k, h, clock) && Stamped(c, h', now)
    requires forall b | Current(c, b, now) :: Current(c, b, clock)
    requires bm.tier.Minute? && bh == HourOf(c, bm) && Current(c, bm, now) && Current(c, bh, now)
    requires redis <==> CountIn(k, bm) < c.rateLimit && CountIn(k, bh) < c.burstLimit
    requires memory <==> |At(h, bm)| < c.rateLimit && |At(h, bh)| < c.burstLimit
    requires forall b :: CountIn(k', b) == CountIn(k, b) +
               if b == bm || (b == bh && CountIn(k, bm) < c.rateLimit) then 1 else 0
    requires forall b | Current(c, b, now) ::
               |At(h', b)| == |At(h, b)| + if memory && b in {bm, bh} then 1 else 0
    ensures Agree(c, k', h', now) && (redis <==> memory)
  {
  }

  lemma {:induction false} AgreeRun(c: Config, trace: seq<Request>)
    requires c.Valid() && c.rateLimit >= 1 && c.burstWindow % c.rateWindow == 0 && Timed(trace)
    ensures RedisRun(c, trace).1 == FallbackRun(c, trace).1
    ensures Agree(c, RedisRun(c, trace).0, FallbackRun(c, trace).0,
                  if trace == [] then 0.0 else trace[|trace| - 1].now)
  {
    if trace == [] {
    } else {
      var n := |trace| - 1;
      AgreeRun(c, trace[..n]);
      AgreeStep(c, RedisRun(c, trace[..n]).0, FallbackRun(c, trace[..n]).0,
                if n == 0 then 0.0 else trace[n - 1].now, trace[n].ip, trace[n].now);
    }
  }

  ghost predicate SameDecisions(rateWindow: nat, burstWindow: nat)
    requires rateWindow >= 1 && burstWindow >= 1
  {
    forall rateLimit: nat, burstLimit: nat, trace: seq<Request> | rateLimit >= 1 && Timed(trace) ::
      var c := Config(rateLimit, rateWindow, burstLimit, burstWindow);
      RedisRun(c, trace).1 == FallbackRun(c, trace).1
  }

  /** The two backends admit exactly the same requests, whatever the limits and the trace,
      if and only if the rate window divides the burst window. */
  lemma BackendsAgreeIffWindowsNest(rateWindow: nat, burstWindow: nat)
    requires rateWindow >= 1 && burstWindow >= 1
    ensures SameDecisions(rateWindow, burstWindow) <==> burstWindow % rateWindow == 0
  {
    if burstWindow % rateWindow == 0 {
      forall rateLimit: nat, burstLimit: nat, trace: seq<Request> | rateLimit >= 1 && Timed(trace)
        ensures var c := Config(rateLimit, rateWindow, burstLimit, burstWindow);
                RedisRun(c, trace).1 == FallbackRun(c, trace).1
      {
        AgreeRun(Config(rateLimit, rateWindow, burstLimit, burstWindow), trace);
      }
    } else {
      StraddlingWindowDiffers(rateWindow, burstWindow);
    }
  }

  function StraddlingTrace(burstWindow: nat): seq<Request>
    requires burstWindow >= 1
  {
    var before, after := (burstWindow - 1) as real, burstWindow as real;
    [Request("", before), Request("", before), Request("", after)]
  }

  lemma RedisSnoc(c: Config, trace: seq<Request>, r: Request)
    requires c.Valid()
    ensures RedisRun(c, trace + [r]).0 == RedisCheck(c, RedisRun(c, trace).0, r.ip, r.now.Floor).0
    ensures RedisRun(c, trace + [r]).1
         == RedisRun(c, trace).1 + [RedisCheck(c, RedisRun(c, trace).0, r.ip, r.now.Floor).1.Admit?]
  {
    assert (trace + [r])[..|trace|] == trace;
  }

  lemma FallbackSnoc(c: Config, trace: seq<Request>, r: Request)
    requires c.Valid()
    ensures FallbackRun(c, trace + [r]).0 == Fallback(c, FallbackRun(c, trace).0, r.ip, r.now).0
    ensures FallbackRun(c, trace + [r]).1
         == FallbackRun(c, trace).1 + [Fallback(c, FallbackRun(c, trace).0, r.ip, r.now).1.Admit?]
  {
    assert (trace + [r])[..|trace|] == trace;
  }

  /** Two requests just before the end of an hour and one just after, in one minute window:
      the refused second request uses up the minute in Redis only. */
  lemma StraddlingWindowDiffers(rateWindow: nat, burstWindow: nat)
    requires rateWindow >= 1 && burstWindow >= 1 && burstWindow % rateWindow != 0
    ensures var c, trace := Config(2, rateWindow, 1, burstWindow), StraddlingTrace(burstWindow);
            && Timed(trace)
            && RedisRun(c, trace).1 == [true, false, false]
            && FallbackRun(c, trace).1 == [true, false, true]
  {
    var c, t := Config(2, rateWindow, 1, burstWindow), StraddlingTrace(burstWindow);
    var before, after := burstWindow - 1, burstWindow;
    assert t[0].now.Floor == before && t[2].now.Floor == after;
    assert WindowAt(before, rateWindow) == WindowAt(after, rateWindow) by {
      var w := after / rateWindow;
      assert w * rateWindow + after % rateWindow == after;
      QuotientBetween(before, rateWindow, w);
    }
    assert WindowAt(before, burstWindow) == 0 && WindowAt(after, burstWindow) == 1 by {
      QuotientBetween(before, burstWindow, 0);
      QuotientBetween(after, burstWindow, 1);
    }
    assert [] + [t[0]] + [t[1]] + [t[2]] == t;
    RedisStraddles(c, t[0], t[2]);
    FallbackStraddles(c, t[0], t[2]);
  }

  ghost predicate Straddles(c: Config, r: Request, r': Request)
    requires c.Valid()
  {
    && 0.0 <= r.now <= r'.now && r.ip == r'.ip
    && c.rateLimit == 2 && c.burstLimit == 1
    && BucketOf(c, r.ip, Minute, r.now.Floor) == BucketOf(c, r.ip, Minute, r'.now.Floor)
    && BucketOf(c, r.ip, Hour, r.now.Floor) != BucketOf(c, r.ip, Hour, r'.now.Floor)
  }

  lemma RedisStraddles(c: Config, r: Request, r': Request)
    requires c.Valid() && Straddles(c, r, r')
    ensures RedisRun(c, [] + [r] + [r] + [r']).1 == [true, false, false]
  {
    RedisSnoc(c, [], r);
    RedisEffect(c, map[], r.ip, r.now.Floor);
    RedisSnoc(c, [] + [r], r);
    RedisEffect(c, RedisRun(c, [] + [r]).0, r.ip, r.now.Floor);
    RedisSnoc(c, [] + [r] + [r], r');
    RedisEffect(c, RedisRun(c, [] + [r] + [r]).0, r.ip, r'.now.Floor);
  }

  lemma FallbackStraddles(c: Config, r: Request, r': Request)
    requires c.Valid() && Straddles(c, r, r')
    ensures FallbackRun(c, [] + [r] + [r] + [r']).1 == [true, false, true]
  {
    var bm, bh, bh' := BucketOf(c, r.ip, Minute, r.now.Floor), BucketOf(c, r.ip, Hour, r.now.Floor),
                       BucketOf(c, r.ip, Hour, r'.now.Floor);
    var h1, h2 := FallbackRun(c, [] + [r]).0, FallbackRun(c, [] + [r] + [r]).0;
    FallbackSnoc(c, [], r);
    FallbackEffect(c, map[], r.now, r.ip, r.now);
    FallbackSnoc(c, [] + [r], r);
    FallbackEffect(c, h1, r.now, r.ip, r.now);
    FallbackSnoc(c, [] + [r] + [r], r');
    FallbackEffect(c, h2, r.now, r.ip, r'.now);
    // the window after the boundary was open all along, and empty
    FloatWindowIsWindow(r.now, c.burstWindow);
    QuotientMonotone(r.now.Floor, r'.now.Floor, c.burstWindow);
    assert Current(c, bh', r.now);
    assert At(h2, bh') == [] && At(h2, bm) == [r.now];
  }
}
