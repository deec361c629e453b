/** What a scan check answers (`rate_limiter.py`): which limit it names, when it lets the client come back,
    when it talks to Redis, and what it forgets. */
module ScanVerdicts {
  import opened Arithmetic
  import opened ScanRateLimiter
  import opened ScanAdmission

  /** After `d` seconds, and no sooner, the clock is in the next window. */
  ghost predicate OpensIn(second: int, size: nat, d: int)
    requires size >= 1
  {
    && 1 <= d <= size && WindowAt(second + d, size) == WindowAt(second, size) + 1
    && forall t | second <= t < second + d :: WindowAt(t, size) == WindowAt(second, size)
  }

  /** A rejection tells when the window of its tier is over. */
  ghost predicate TellsWhen(c: Config, second: int, v: Verdict)
    requires c.Valid()
  {
    && (v.RateExceeded? ==> OpensIn(second, c.rateWindow, v.retryAfter))
    && (v.BurstExceeded? ==> OpensIn(second, c.burstWindow, v.retryAfter))
  }

  /** A rejection names the minute tier if that is full, and the hour tier if only that is. */
  predicate NamesTier(v: Verdict, minuteFull: bool, hourFull: bool) {
    && (v.RateExceeded? <==> minuteFull) && (v.BurstExceeded? <==> !minuteFull && hourFull)
    && (v.Admit? <==> !minuteFull && !hourFull)
  }

  lemma RestOfWindow(second: int, size: nat)
    requires size >= 1
    ensures OpensIn(second, size, size - second % size)
  {
    var q, d := second / size, size - second % size;
    assert q * size + second % size == second;
    assert (q + 1) * size == q * size + size && (q + 2) * size == q * size + size + size;
    QuotientBetween(second + d, size, q + 1);
    forall t | second <= t < second + d ensures WindowAt(t, size) == q {
      QuotientBetween(t, size, q);
    }
  }

  /** The in-memory path. */
  lemma FallbackTells(c: Config, h: History, clock: real, ip: string, now: real)
    requires c.Valid() && clock <= now && Stamped(c, h, clock)
    ensures var v := Fallback(c, h, ip, now).1;
            && TellsWhen(c, now.Floor, v)
            && NamesTier(v, |At(h, BucketOf(c, ip, Minute, now.Floor))| >= c.rateLimit,
                         |At(h, BucketOf(c, ip, Hour, now.Floor))| >= c.burstLimit)
  {
    RestOfWindow(now.Floor, c.rateWindow);
    RestOfWindow(now.Floor, c.burstWindow);
    FallbackEffect(c, h, clock, ip, now);
    FloatWindowIsWindow(now, c.rateWindow);
    PruneKeepsOpenWindows(c, h, clock, now, BucketOf(c, ip, Minute, now.Floor));
  }

  /** The Redis path alone. */
  lemma RedisTells(c: Config, k: Counters, ip: string, second: int)
    requires c.Valid()
    ensures var v := RedisCheck(c, k, ip, second).1;
            && TellsWhen(c, second, v)
            && NamesTier(v, CountIn(k, BucketOf(c, ip, Minute, second)) >= c.rateLimit,
                         CountIn(k, BucketOf(c, ip, Hour, second)) >= c.burstLimit)
  {
    RestOfWindow(second, c.rateWindow);
    RestOfWindow(second, c.burstWindow);
  }

  /** The Redis path with its failures: it breaks off exactly at a pipeline whose reply it needs and misses,
      and answers from the counters otherwise. */
  lemma AttemptTells(c: Config, k: Counters, ip: string, second: int, first: Pipe, next: Pipe)
    requires c.Valid()
    ensures var a := RedisAttempt(c, k, ip, second, first, next).1;
            var minuteFull := CountIn(k, BucketOf(c, ip, Minute, second)) >= c.rateLimit;
            var hourFull := CountIn(k, BucketOf(c, ip, Hour, second)) >= c.burstLimit;
            && (a.Broken? <==> !first.Replied? || (!minuteFull && !next.Replied?))
            && (a.Decided? ==> TellsWhen(c, second, a.v) && NamesTier(a.v, minuteFull, hourFull))
  {
    RestOfWindow(second, c.rateWindow);
    RestOfWindow(second, c.burstWindow);
  }

  /** Redis is asked unless there is none or it failed before and does not answer the ping. */
  predicate Asks(hasRedis: bool, failed: bool, pingOk: bool) { hasRedis && (!failed || pingOk) }

  /** A whole check in any state: it answers from the counters if Redis answers, and from the recorded
      instants otherwise; it names the full tier and tells when that tier's window is over; and it remembers
      a failure of Redis until a later attempt succeeds. */
  lemma CheckTells(c: Config, hasRedis: bool, k: Counters, h: History, clock: real, failed: bool, ip: string,
                   now: real, later: real, pingOk: bool, first: Pipe, next: Pipe)
    requires c.Valid() && c.rateLimit >= 1 && clock <= later && Stamped(c, h, clock)
    ensures var r := CheckOutcome(c, hasRedis, k, h, failed, ip, now, later, pingOk, first, next);
            var counted := CountIn(k, BucketOf(c, ip, Minute, now.Floor)) >= c.rateLimit;
            var answered := first.Replied? && (counted || next.Replied?);
            && (r.redisFailed <==> if Asks(hasRedis, failed, pingOk) then !answered else failed)
            && (Asks(hasRedis, failed, pingOk) && answered ==>
                  && TellsWhen(c, now.Floor, r.v)
                  && NamesTier(r.v, counted, CountIn(k, BucketOf(c, ip, Hour, now.Floor)) >= c.burstLimit))
            && (!(Asks(hasRedis, failed, pingOk) && answered) ==>
                  && TellsWhen(c, later.Floor, r.v)
                  && NamesTier(r.v, |At(h, BucketOf(c, ip, Minute, later.Floor))| >= c.rateLimit,
                               |At(h, BucketOf(c, ip, Hour, later.Floor))| >= c.burstLimit))
  {
    FallbackTells(c, h, clock, ip, later);
    AttemptTells(c, k, ip, now.Floor, first, next);
  }

  /** Each of the two stores changes exactly if it is asked: the counters by the pipelines that reach the
      server, the instants by a check that Redis did not answer. */
  lemma CheckTouches(c: Config, hasRedis: bool, k: Counters, h: History, failed: bool, ip: string,
                     now: real, later: real, pingOk: bool, first: Pipe, next: Pipe)
    requires c.Valid() && c.rateLimit >= 1
    ensures var r := CheckOutcome(c, hasRedis, k, h, failed, ip, now, later, pingOk, first, next);
            var bm, bh := BucketOf(c, ip, Minute, now.Floor), BucketOf(c, ip, Hour, now.Floor);
            var asked := Asks(hasRedis, failed, pingOk);
            var goesOn := asked && first.Replied? && CountIn(k, bm) < c.rateLimit;
            && (forall b :: CountIn(r.counters, b) == CountIn(k, b)
                  + if (b == bm && asked && !first.Unreached?) || (b == bh && goesOn && !next.Unreached?) then 1 else 0)
            && (asked && first.Replied? && (!goesOn || next.Replied?) ==> r.history == h)
  {
  }

  /** What a check in memory keeps are the instants of the last longer window, and its own if it admits. */
  lemma FallbackForgets(c: Config, h: History, ip: string, now: real, b: Bucket, x: real)
    requires c.Valid()
    ensures var (h', v) := Fallback(c, h, ip, now);
            var bm, bh := BucketOf(c, ip, Minute, now.Floor), BucketOf(c, ip, Hour, now.Floor);
            x in At(h', b)
            <==> || (x in At(h, b) && (now - x < c.rateWindow as real || now - x < c.burstWindow as real))
                 || (x == now && v.Admit? && b in {bm, bh})
  {
    FloatWindowIsWindow(now, c.rateWindow);
    FloatWindowIsWindow(now, c.burstWindow);
    var bm, bh := BucketOf(c, ip, Minute, now.Floor), BucketOf(c, ip, Hour, now.Floor);
    FallbackUnfolds(c, h, ip, now, bm, bh);
    PruneKeepsNewer(h, Cutoff(c, now), b, x);
  }

  lemma PruneKeepsNewer(h: History, cutoff: real, b: Bucket, x: real)
    ensures x in At(Prune(h, cutoff), b) <==> x in At(h, b) && x > cutoff
  {
    if b in h {
      KeepAfterExactly(h[b], cutoff, x);
    }
  }

  lemma {:induction false} KeepAfterExactly(stamps: seq<real>, cutoff: real, x: real)
    ensures x in KeepAfter(stamps, cutoff) <==> x in stamps && x > cutoff
  {
    if stamps == [] {
    } else {
      KeepAfterExactly(stamps[1..], cutoff, x);
      assert stamps == [stamps[0]] + stamps[1..];
    }
  }
}
