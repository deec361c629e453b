/** How many scans fit into a stretch of one hour window's length (`rate_limiter.py`) when the minute tier
    may bind as well, minute windows being nested in hour windows. */
module HourStretches {
  import opened Arithmetic
  import opened ScanRateLimiter
  import opened ScanAdmission

  ghost predicate Nested(c: Config) {
    c.Valid() && c.rateLimit >= 1 && c.burstWindow % c.rateWindow == 0
  }

  /** How many minute windows the seconds from `x` to `y` meet. */
  function MinuteWindows(c: Config, x: nat, y: int): nat
    requires c.Valid()
  {
    if y < x then 0
    else
      var n := WindowAt(y, c.rateWindow) - WindowAt(x, c.rateWindow) + 1;
      if n >= 0 then n else 0
  }

  /** What both tiers together allow between two seconds of one hour window. */
  function Capacity(c: Config, x: nat, y: int): nat
    requires c.Valid()
  {
    Min(c.burstLimit, c.rateLimit * MinuteWindows(c, x, y))
  }

  function NextHour(c: Config, lo: nat): nat
    requires c.Valid()
  {
    if WindowAt(lo, c.burstWindow) >= 0 then (WindowAt(lo, c.burstWindow) + 1) * c.burstWindow else 0
  }

  /** What fits into the stretch of one hour window's length from `lo` on: what fits before the next hour
      window starts, and what fits after. */
  function Most(c: Config, lo: nat): nat
    requires c.Valid()
  {
    Capacity(c, lo, NextHour(c, lo) - 1) + Capacity(c, NextHour(c, lo), lo + c.burstWindow - 1)
  }

  // ------------------------------------------------------------------- never more

  lemma {:induction false} BetweenSplit(log: seq<Admission>, ip: string, x: int, m: int, y: int, viaRedis: bool)
    requires x <= m + 1 <= y + 1
    ensures Between(log, ip, x, y, viaRedis) == Between(log, ip, x, m, viaRedis) + Between(log, ip, m + 1, y, viaRedis)
  {
    if log == [] {
    } else {
      BetweenSplit(log[..|log| - 1], ip, x, m, y, viaRedis);
    }
  }

  lemma {:induction false} BetweenInWindow(c: Config, log: seq<Admission>, ip: string, t: Tier, x: nat, y: nat,
                                           viaRedis: bool)
    requires c.Valid() && WindowAt(x, c.Size(t)) == WindowAt(y, c.Size(t))
    ensures Between(log, ip, x, y, viaRedis) <= InWindow(c, log, Bucket(ip, t, WindowAt(x, c.Size(t))), viaRedis)
  {
    if log == [] {
    } else {
      var a := log[|log| - 1];
      BetweenInWindow(c, log[..|log| - 1], ip, t, x, y, viaRedis);
      if x <= a.second <= y {
        QuotientMonotone(x, a.second, c.Size(t));
        QuotientMonotone(a.second, y, c.Size(t));
      }
    }
  }

  lemma NextMinute(c: Config, x: nat, y: nat)
    requires c.Valid() && x <= y
    ensures var next := (WindowAt(x, c.rateWindow) + 1) * c.rateWindow;
            && x < next && WindowAt(next, c.rateWindow) == WindowAt(x, c.rateWindow) + 1
            && WindowAt(next - 1, c.rateWindow) == WindowAt(x, c.rateWindow)
            && (next <= y <==> WindowAt(x, c.rateWindow) < WindowAt(y, c.rateWindow))
            && WindowAt(x, c.rateWindow) <= WindowAt(y, c.rateWindow)
  {
    var r := c.rateWindow;
    var w := x / r;
    QuotientBounds(x, r);
    QuotientBounds(y, r);
    assert (w + 1) * r == w * r + r && (w + 2) * r == (w + 1) * r + r;
    QuotientBetween((w + 1) * r, r, w + 1);
    QuotientBetween((w + 1) * r - 1, r, w);
    QuotientMonotone(x, y, r);
    if (w + 1) * r <= y {
      QuotientMonotone((w + 1) * r, y, r);
    } else {
      QuotientBetween(y, r, w);
    }
  }

  /** The minute tier alone. */
  lemma {:induction false} MinuteCover(c: Config, log: seq<Admission>, ip: string, x: nat, y: nat, viaRedis: bool)
    requires c.Valid() && x <= y
    requires forall b: Bucket | b.tier.Minute? :: InWindow(c, log, b, viaRedis) <= c.rateLimit
    ensures Between(log, ip, x, y, viaRedis) <= c.rateLimit * MinuteWindows(c, x, y)
    decreases y - x
  {
    var w, v := WindowAt(x, c.rateWindow), WindowAt(y, c.rateWindow);
    NextMinute(c, x, y);
    if w == v {
      BetweenInWindow(c, log, ip, Minute, x, y, viaRedis);
      assert MinuteWindows(c, x, y) == 1;
    } else {
      var next: nat := (w + 1) * c.rateWindow;
      BetweenSplit(log, ip, x, next - 1, y, viaRedis);
      BetweenInWindow(c, log, ip, Minute, x, next - 1, viaRedis);
      MinuteCover(c, log, ip, next, y, viaRedis);
      assert MinuteWindows(c, x, y) == 1 + MinuteWindows(c, next, y);
      OneMoreTimes(c.rateLimit, MinuteWindows(c, next, y));
    }
  }

  lemma OneMoreTimes(a: nat, n: nat)
    ensures a * (1 + n) == a + a * n
  {}

  lemma {:induction false} NothingBetween(log: seq<Admission>, ip: string, x: int, y: int, viaRedis: bool)
    requires y < x
    ensures Between(log, ip, x, y, viaRedis) == 0
  {
    if log == [] {
    } else {
      NothingBetween(log[..|log| - 1], ip, x, y, viaRedis);
    }
  }

  /** Both tiers, within one hour window. */
  lemma HourPart(c: Config, es: seq<Event>, ip: string, x: nat, y: int, viaRedis: bool)
    requires c.Valid() && c.rateLimit >= 1
    requires x <= y ==> WindowAt(x, c.burstWindow) == WindowAt(y, c.burstWindow)
    ensures Between(Run(c, FRESH, es).log, ip, x, y, viaRedis) <= Capacity(c, x, y)
  {
    var log := Run(c, FRESH, es).log;
    AdmissionsBounded(c, es);
    if x <= y {
      MinuteCover(c, log, ip, x, y, viaRedis);
      BetweenInWindow(c, log, ip, Hour, x, y, viaRedis);
    } else {
      NothingBetween(log, ip, x, y, viaRedis);
    }
  }

  lemma HourFacts(c: Config, lo: nat)
    requires c.Valid()
    ensures var next, hi, h := NextHour(c, lo), lo + c.burstWindow - 1, WindowAt(lo, c.burstWindow);
            && lo < next <= hi + 1 && WindowAt(next - 1, c.burstWindow) == h
            && WindowAt(next, c.burstWindow) == h + 1
            && (next <= hi ==> WindowAt(hi, c.burstWindow) == h + 1)
            && (next <= hi <==> lo % c.burstWindow != 0)
  {
    var size := c.burstWindow;
    var h := lo / size;
    NextWindow(lo, size);
    QuotientBounds(lo, size);
    assert (h + 1) * size == h * size + size && (h + 2) * size == (h + 1) * size + size;
    QuotientBetween((h + 1) * size - 1, size, h);
    if (h + 1) * size <= lo + size - 1 {
      QuotientBetween(lo + size - 1, size, h + 1);
    }
  }

  lemma NeverMore(c: Config, es: seq<Event>, ip: string, lo: nat, viaRedis: bool)
    requires c.Valid() && c.rateLimit >= 1
    ensures InStretch(c, Hour, es, ip, lo, viaRedis) <= Most(c, lo)
  {
    var next, hi := NextHour(c, lo), lo + c.burstWindow - 1;
    HourFacts(c, lo);
    BetweenSplit(Run(c, FRESH, es).log, ip, lo, next - 1, hi, viaRedis);
    HourPart(c, es, ip, lo, next - 1, viaRedis);
    HourPart(c, es, ip, next, hi, viaRedis);
  }

  // -------------------------------------------------------------------- as many

  /** All admissions lie in minute windows before that of `x`. */
  ghost predicate Earlier(c: Config, log: seq<Admission>, x: nat)
    requires c.Valid()
  {
    forall a | a in log :: WindowAt(a.second, c.rateWindow) < WindowAt(x, c.rateWindow)
  }

  lemma {:induction false} EarlierIsEmpty(c: Config, log: seq<Admission>, b: Bucket)
    requires c.Valid() && forall a | a in log :: WindowAt(a.second, c.Size(b.tier)) != b.window
    ensures InWindow(c, log, b, false) == 0
  {
    if log == [] {
    } else {
      var n := |log| - 1;
      assert log[n] in log && forall a | a in log[..n] :: a in log;
      EarlierIsEmpty(c, log[..n], b);
    }
  }

  /** Admissions of one client in memory between two seconds. */
  ghost predicate Within(more: seq<Admission>, ip: string, x: nat, y: int) {
    forall a | a in more :: a.ip == ip && !a.viaRedis && x <= a.second <= y
  }

  lemma {:induction false} WithinBetween(log: seq<Admission>, more: seq<Admission>, ip: string, lo: nat, hi: int)
    requires Within(more, ip, lo, hi)
    ensures Between(log + more, ip, lo, hi, false) == Between(log, ip, lo, hi, false) + |more|
  {
    if more == [] {
      assert log + more == log;
    } else {
      var n := |more| - 1;
      assert more[n] in more && forall a | a in more[..n] :: a in more;
      WithinBetween(log, more[..n], ip, lo, hi);
      BetweenSnoc(log + more[..n], more[n], ip, lo, hi, false);
      assert log + more == log + more[..n] + [more[n]];
    }
  }

  /** `out` continues `es` with `n` admissions of the client between two seconds. */
  ghost predicate Continues(c: Config, es: seq<Event>, out: seq<Event>, more: seq<Admission>, ip: string, x: nat,
                            y: int, n: nat)
    requires c.Valid()
  {
    && Run(c, FRESH, out).log == Run(c, FRESH, es).log + more && |more| == n && Within(more, ip, x, y)
  }

  /** The first minute window of a part takes its share. */
  lemma MinuteBurst(c: Config, es: seq<Event>, ip: string, x: nat, k: nat)
    requires c.Valid() && c.rateLimit >= 1 && Run(c, FRESH, es).clock <= x as real
    requires Earlier(c, Run(c, FRESH, es).log, x) && k <= c.rateLimit
    requires InWindow(c, Run(c, FRESH, es).log, BucketOf(c, ip, Hour, x), false) + k <= c.burstLimit
    ensures var out, more := es + Copies(InMemory(ip, x as real), k), Copies(Admission(ip, x, false), k);
            Continues(c, es, out, more, ip, x, x, k) && Run(c, FRESH, out).clock <= x as real
  {
    EarlierIsEmpty(c, Run(c, FRESH, es).log, BucketOf(c, ip, Minute, x));
    BurstAdmitted(c, es, ip, x, k);
  }

  lemma ContinuesJoined(c: Config, es: seq<Event>, mid: seq<Event>, out: seq<Event>, first: seq<Admission>,
                        tail: seq<Admission>, ip: string, x: nat, next: nat, y: nat, k: nat, m: nat, n: nat)
    requires c.Valid() && x <= next <= y && n == k + m
    requires Continues(c, es, mid, first, ip, x, x, k) && Continues(c, mid, out, tail, ip, next, y, m)
    ensures Continues(c, es, out, first + tail, ip, x, y, n)
  {
    var log := Run(c, FRESH, es).log;
    assert log + first + tail == log + (first + tail);
  }

  lemma AfterMinute(c: Config, log: seq<Admission>, ip: string, x: nat, next: nat, k: nat)
    requires c.Valid() && Earlier(c, log, x) && WindowAt(x, c.rateWindow) < WindowAt(next, c.rateWindow)
    requires WindowAt(x, c.burstWindow) == WindowAt(next, c.burstWindow)
    ensures var after := log + Copies(Admission(ip, x, false), k);
            && Earlier(c, after, next)
            && InWindow(c, after, BucketOf(c, ip, Hour, next), false)
                 == InWindow(c, log, BucketOf(c, ip, Hour, x), false) + k
  {
    CopiesInWindow(c, log, Admission(ip, x, false), k, BucketOf(c, ip, Hour, x));
  }

  lemma RestFits(c: Config, x: nat, y: nat, next: nat, n: nat)
    requires c.Valid() && x <= y && n > c.rateLimit && n <= c.rateLimit * MinuteWindows(c, x, y)
    requires next == (WindowAt(x, c.rateWindow) + 1) * c.rateWindow
    ensures x < next <= y && n - c.rateLimit <= c.rateLimit * MinuteWindows(c, next, y)
    ensures WindowAt(next, c.rateWindow) == WindowAt(x, c.rateWindow) + 1
  {
    NextMinute(c, x, y);
    assert c.rateLimit * 1 == c.rateLimit;
    if next <= y {
      assert MinuteWindows(c, x, y) == 1 + MinuteWindows(c, next, y);
      OneMoreTimes(c.rateLimit, MinuteWindows(c, next, y));
    }
  }

  /** After `es` the client has used nothing of the minute of `x`, and `n` requests fit into its hour. */
  ghost predicate Ready(c: Config, es: seq<Event>, ip: string, x: nat, n: nat)
    requires c.Valid()
  {
    var s := Run(c, FRESH, es);
    && s.clock <= x as real && Earlier(c, s.log, x)
    && InWindow(c, s.log, BucketOf(c, ip, Hour, x), false) + n <= c.burstLimit
  }

  function Burst(es: seq<Event>, ip: string, x: nat, k: nat): seq<Event> { es + Copies(InMemory(ip, x as real), k) }

  lemma LastBurst(c: Config, es: seq<Event>, ip: string, x: nat, y: nat, n: nat)
    requires c.Valid() && c.rateLimit >= 1 && x <= y && n <= c.rateLimit && Ready(c, es, ip, x, n)
    ensures Continues(c, es, Burst(es, ip, x, n), Copies(Admission(ip, x, false), n), ip, x, y, n)
    ensures Run(c, FRESH, Burst(es, ip, x, n)).clock <= y as real
  {
    MinuteBurst(c, es, ip, x, n);
  }

  lemma FullMinute(c: Config, es: seq<Event>, ip: string, x: nat, y: nat, next: nat, n: nat)
    requires c.Valid() && c.rateLimit >= 1 && x <= y && Ready(c, es, ip, x, n)
    requires WindowAt(x, c.burstWindow) == WindowAt(y, c.burstWindow)
    requires n > c.rateLimit && x < next <= y && WindowAt(next, c.rateWindow) == WindowAt(x, c.rateWindow) + 1
    ensures var k := c.rateLimit;
            && Continues(c, es, Burst(es, ip, x, k), Copies(Admission(ip, x, false), k), ip, x, x, k)
            && Ready(c, Burst(es, ip, x, k), ip, next, n - k)
  {
    MinuteBurst(c, es, ip, x, c.rateLimit);
    QuotientMonotone(x, next, c.burstWindow);
    QuotientMonotone(next, y, c.burstWindow);
    AfterMinute(c, Run(c, FRESH, es).log, ip, x, next, c.rateLimit);
  }

  /** As many requests as both tiers allow can be spread over the minute windows of a part of an hour window. */
  lemma {:induction false} SpreadBursts(c: Config, es: seq<Event>, ip: string, x: nat, y: nat, n: nat)
    returns (out: seq<Event>, more: seq<Admission>)
    requires c.Valid() && c.rateLimit >= 1 && x <= y && Ready(c, es, ip, x, n)
    requires WindowAt(x, c.burstWindow) == WindowAt(y, c.burstWindow)
    requires n <= c.rateLimit * MinuteWindows(c, x, y)
    ensures Continues(c, es, out, more, ip, x, y, n) && Run(c, FRESH, out).clock <= y as real
    decreases y - x
  {
    if n <= c.rateLimit {
      LastBurst(c, es, ip, x, y, n);
      out, more := Burst(es, ip, x, n), Copies(Admission(ip, x, false), n);
    } else {
      var next: nat := (WindowAt(x, c.rateWindow) + 1) * c.rateWindow;
      RestFits(c, x, y, next, n);
      SameHour(c, x, next, y);
      var mid, first := OneFullMinute(c, es, ip, x, y, next, n);
      var tail;
      out, tail := SpreadBursts(c, mid, ip, next, y, n - c.rateLimit);
      more := first + tail;
      ContinuesJoined(c, es, mid, out, first, tail, ip, x, next, y, c.rateLimit, n - c.rateLimit, n);
    }
  }

  lemma OneFullMinute(c: Config, es: seq<Event>, ip: string, x: nat, y: nat, next: nat, n: nat)
    returns (mid: seq<Event>, first: seq<Admission>)
    requires c.Valid() && c.rateLimit >= 1 && x <= y && Ready(c, es, ip, x, n)
    requires WindowAt(x, c.burstWindow) == WindowAt(y, c.burstWindow)
    requires n > c.rateLimit && x < next <= y && WindowAt(next, c.rateWindow) == WindowAt(x, c.rateWindow) + 1
    ensures Continues(c, es, mid, first, ip, x, x, c.rateLimit) && Ready(c, mid, ip, next, n - c.rateLimit)
  {
    mid, first := Burst(es, ip, x, c.rateLimit), Copies(Admission(ip, x, false), c.rateLimit);
    FullMinute(c, es, ip, x, y, next, n);
  }

  lemma SameHour(c: Config, x: nat, next: nat, y: nat)
    requires c.Valid() && x <= next <= y && WindowAt(x, c.burstWindow) == WindowAt(y, c.burstWindow)
    ensures WindowAt(next, c.burstWindow) == WindowAt(y, c.burstWindow)
  {
    QuotientMonotone(x, next, c.burstWindow);
    QuotientMonotone(next, y, c.burstWindow);
  }

  lemma MinuteBeforeHour(c: Config, x: nat, next: nat)
    requires Nested(c) && x < next && next % c.burstWindow == 0
    ensures WindowAt(x, c.rateWindow) < WindowAt(next, c.rateWindow)
  {
    var r, b := c.rateWindow, c.burstWindow;
    var m, q := b / r, next / b;
    assert b == m * r && next == q * b == (q * m) * r;
    QuotientBetween(next, r, q * m);
    QuotientBounds(x, r);
    MulCancel(x / r, q * m, r);
  }

  lemma WithinIsEarlier(c: Config, more: seq<Admission>, ip: string, x: nat, next: nat)
    requires Nested(c) && next > 0 && next % c.burstWindow == 0 && Within(more, ip, x, next - 1)
    ensures Earlier(c, more, next)
    ensures InWindow(c, more, BucketOf(c, ip, Hour, next), false) == 0
  {
    forall a | a in more
      ensures WindowAt(a.second, c.rateWindow) < WindowAt(next, c.rateWindow)
      ensures WindowAt(a.second, c.burstWindow) != WindowAt(next, c.burstWindow)
    {
      MinuteBeforeHour(c, a.second, next);
      HourBefore(c, a.second, next);
    }
    EarlierIsEmpty(c, more, BucketOf(c, ip, Hour, next));
  }

  lemma HourBefore(c: Config, x: nat, next: nat)
    requires c.Valid() && x < next && next % c.burstWindow == 0
    ensures WindowAt(x, c.burstWindow) < WindowAt(next, c.burstWindow)
  {
    var b := c.burstWindow;
    assert next == next / b * b;
    QuotientBounds(x, b);
    MulCancel(x / b, next / b, b);
  }

  lemma NextHourAligned(c: Config, lo: nat)
    requires c.Valid()
    ensures NextHour(c, lo) % c.burstWindow == 0 && NextHour(c, lo) > 0
  {
    HourFacts(c, lo);
    var b, q := c.burstWindow, WindowAt(lo, c.burstWindow) + 1;
    QuotientBetween(q * b, b, q);
    assert (q + 1) * b == q * b + b;
    assert q * b / b * b + q * b % b == q * b;
  }

  lemma FreshIsReady(c: Config, ip: string, x: nat, n: nat)
    requires c.Valid() && n <= c.burstLimit
    ensures Run(c, FRESH, []).log == [] && Ready(c, [], ip, x, n)
  {}

  /** A run that takes what fits before the next hour window. */
  lemma FirstPart(c: Config, ip: string, lo: nat) returns (es: seq<Event>, more: seq<Admission>)
    requires Nested(c)
    ensures var next, n := NextHour(c, lo), Capacity(c, lo, NextHour(c, lo) - 1);
            && Run(c, FRESH, es).log == more && |more| == n && Within(more, ip, lo, next - 1)
            && Ready(c, es, ip, next, c.burstLimit)
  {
    var next := NextHour(c, lo);
    HourFacts(c, lo);
    NextHourAligned(c, lo);
    FreshIsReady(c, ip, lo, Capacity(c, lo, next - 1));
    es, more := SpreadBursts(c, [], ip, lo, next - 1, Capacity(c, lo, next - 1));
    assert [] + more == more;
    WithinIsEarlier(c, more, ip, lo, next);
  }

  lemma SecondPart(c: Config, first: seq<Event>, ip: string, lo: nat) returns (es: seq<Event>, tail: seq<Admission>)
    requires Nested(c) && Ready(c, first, ip, NextHour(c, lo), c.burstLimit)
    ensures var next, hi := NextHour(c, lo), lo + c.burstWindow - 1;
            Continues(c, first, es, tail, ip, next, hi, Capacity(c, next, hi))
  {
    var next, hi := NextHour(c, lo), lo + c.burstWindow - 1;
    HourFacts(c, lo);
    if next <= hi {
      es, tail := SpreadBursts(c, first, ip, next, hi, Capacity(c, next, hi));
    } else {
      es, tail := first, [];
      assert Run(c, FRESH, first).log + tail == Run(c, FRESH, first).log;
    }
  }

  lemma BothParts(more: seq<Admission>, tail: seq<Admission>, ip: string, lo: nat, next: nat, hi: int)
    requires Within(more, ip, lo, next - 1) && Within(tail, ip, next, hi) && lo <= next <= hi + 1
    ensures Between(more + tail, ip, lo, hi, false) == |more| + |tail|
  {
    var none: seq<Admission> := [];
    WithinBetween(none, more, ip, lo, hi);
    assert none + more == more;
    WithinBetween(more, tail, ip, lo, hi);
  }

  /** As many requests as fit are admitted in some run. */
  lemma AsMany(c: Config, ip: string, lo: nat) returns (es: seq<Event>)
    requires Nested(c)
    ensures InStretch(c, Hour, es, ip, lo, false) == Most(c, lo)
  {
    var first, more := FirstPart(c, ip, lo);
    var tail;
    es, tail := SecondPart(c, first, ip, lo);
    HourFacts(c, lo);
    BothParts(more, tail, ip, lo, NextHour(c, lo), lo + c.burstWindow - 1);
  }

  // ------------------------------------------------------------------- the condition

  /** With nested windows and any limits, the stretch of one hour window's length from `lo` on never sees more
      than the hour limit exactly if no more fits into its two parts. */
  lemma HourStretchIff(c: Config, lo: nat)
    requires Nested(c)
    ensures StaysWithin(c, Hour, lo) <==> Most(c, lo) <= c.burstLimit
  {
    forall es, ip, viaRedis ensures InStretch(c, Hour, es, ip, lo, viaRedis) <= Most(c, lo) {
      NeverMore(c, es, ip, lo, viaRedis);
    }
    if StaysWithin(c, Hour, lo) {
      var es := AsMany(c, "", lo);
      assert InStretch(c, Hour, es, "", lo, false) <= c.Limit(Hour);
    }
  }

  /** Under the shipped limits, five a minute and ten an hour, that is so exactly at the full hours. */
  lemma ShippedHourStretch(lo: nat)
    ensures StaysWithin(Config(5, 60, 10, 3600), Hour, lo) <==> lo % 3600 == 0
  {
    var c := Config(5, 60, 10, 3600);
    HourStretchIff(c, lo);
    HourFacts(c, lo);
    ShippedWindows(lo);
  }

  lemma ShippedWindows(lo: nat)
    ensures var c := Config(5, 60, 10, 3600);
            Most(c, lo) <= 10 <==> lo % 3600 == 0
  {
    var c := Config(5, 60, 10, 3600);
    var q, p := lo / 3600, lo % 3600;
    var next, hi := 3600 * q + 3600, lo + 3599;
    assert lo == 3600 * q + p && NextHour(c, lo) == next;
    assert lo / 60 == 60 * q + p / 60 && (next - 1) / 60 == 60 * q + 59 && next / 60 == 60 * q + 60;
    assert hi / 60 == 60 * q + (p + 3599) / 60;
  }
}
