/** The exact sliding-window limiter of the API endpoints (`ratelimit.py`): a log per
    identity, pruned on every call and swept of idle identities once per window.
    Instants are whole microseconds, as Python's `datetime` keeps them. */
module EndpointLimiter {
  import opened Options

  type Identity = string
  type History = map<Identity, seq<int>>

  const SECOND: nat := 1_000_000

  datatype Config = Config(limit: nat, windowSeconds: nat) {
    predicate Valid() { limit >= 1 && windowSeconds >= 1 }

    function Window(): nat { windowSeconds * SECOND }

    function CleanupInterval(): nat { (if windowSeconds >= 1 then windowSeconds else 1) * SECOND }
  }

  datatype State = State(history: History, lastCleanup: Option<int>)

  const FRESH := State(map[], None)

  /** What the response headers say, in seconds. */
  datatype Verdict = Allowed(remaining: int, resetIn: int) | Rejected(retryAfter: int)

  function WholeSeconds(micros: int): int
    requires micros >= 0
  {
    if micros / SECOND >= 1 then micros / SECOND else 1
  }

  function Newer(stamps: seq<int>, cutoff: int): seq<int> {
    if stamps == [] then []
    else if stamps[0] > cutoff then [stamps[0]] + Newer(stamps[1..], cutoff)
    else Newer(stamps[1..], cutoff)
  }

  function At(h: History, id: Identity): seq<int> { if id in h then h[id] else [] }

  function Swept(h: History, cutoff: int): History {
    map id | id in h && Newer(h[id], cutoff) != [] :: Newer(h[id], cutoff)
  }

  predicate DueForCleanup(c: Config, last: Option<int>, now: int) {
    last.None? || now - last.value >= c.CleanupInterval()
  }

  function Cleaned(c: Config, s: State, now: int): State {
    if DueForCleanup(c, s.lastCleanup, now)
    then State(Swept(s.history, now - c.Window()), Some(now)) else s
  }

  lemma {:induction false} NewerIsNewer(stamps: seq<int>, cutoff: int)
    ensures forall t | t in Newer(stamps, cutoff) :: t in stamps && t > cutoff
  {
    if stamps == [] {
    } else {
      NewerIsNewer(stamps[1..], cutoff);
    }
  }

  /** One call: the new state, and whether the request passes. */
  function Called(c: Config, s: State, id: Identity, now: int): (r: (State, bool)) {
    var s1 := Cleaned(c, s, now);
    var recent := Newer(At(s1.history, id), now - c.Window());
    if |recent| >= c.limit then (s1.(history := s1.history[id := recent]), false)
    else (s1.(history := s1.history[id := recent + [now]]), true)
  }

  /** A sweep on its way: the identities in `todo` have not been looked at. */
  ghost predicate Sweeping(was: History, h: History, todo: set<Identity>, expired: set<Identity>, cutoff: int) {
    && todo <= was.Keys && h.Keys == was.Keys
    && (forall id | id in todo :: h[id] == was[id] && id !in expired)
    && (forall id | id in was && id !in todo ::
          if Newer(was[id], cutoff) == [] then id in expired else h[id] == Newer(was[id], cutoff))
    && (forall id | id in expired :: id in was && Newer(was[id], cutoff) == [])
  }

  class EndpointRateLimiter {
    const c: Config
    var history: History
    var lastCleanup: Option<int>

    constructor (c: Config)
      ensures this.c == c && Snapshot() == FRESH
    {
      this.c, history, lastCleanup := c, map[], None;
    }

    function Snapshot(): State
      reads this
    {
      State(history, lastCleanup)
    }

    method CleanupExpiredIdentities(cutoff: int, now: int)
      requires cutoff == now - c.Window()
      modifies this
      ensures Snapshot() == Cleaned(c, old(Snapshot()), now)
    {
      if lastCleanup.Some? && now - lastCleanup.value < c.CleanupInterval() {
        return;
      }
      ghost var was := history;
      var expired: set<Identity> := {};
      var todo := history.Keys;
      while todo != {}
        invariant Sweeping(was, history, todo, expired, cutoff)
      {
        var id :| id in todo;
        var active := Newer(history[id], cutoff);
        if active != [] {
          history := history[id := active];
        } else {
          expired := expired + {id};
        }
        todo := todo - {id};
      }
      history := history - expired;
      lastCleanup := Some(now);
      assert history == Swept(was, cutoff);
    }

    /** The dependency called on each request. */
    method Call(id: Identity, now: int) returns (v: Verdict)
      requires c.Valid()
      modifies this
      ensures Snapshot() == Called(c, old(Snapshot()), id, now).0
      ensures v.Allowed? <==> Called(c, old(Snapshot()), id, now).1
      ensures id in history && history[id] != [] && history[id][0] > now - c.Window()
      ensures v == if v.Rejected? then Rejected(WholeSeconds(history[id][0] + c.Window() - now))
                   else Allowed(c.limit - |history[id]|, WholeSeconds(history[id][0] + c.Window() - now))
    {
      var cutoff := now - c.Window();
      CleanupExpiredIdentities(cutoff, now);
      NewerIsNewer(At(history, id), cutoff);
      history := history[id := Newer(At(history, id), cutoff)];
      assert history[id] != [] ==> history[id][0] in history[id];
      if |history[id]| >= c.limit {
        return Rejected(WholeSeconds(history[id][0] + c.Window() - now));
      }
      history := history[id := history[id] + [now]];
      v := Allowed(c.limit - |history[id]|, WholeSeconds(history[id][0] + c.Window() - now));
    }
  }

  // ------------------------------------------------ the limiter without any pruning

  datatype Request = Request(id: Identity, now: int)

  ghost predicate Timed(trace: seq<Request>) {
    forall i, j | 0 <= i < j < |trace| :: trace[i].now <= trace[j].now
  }

  /** The state before call `n` of a trace. */
  function Run(c: Config, trace: seq<Request>, n: nat): State
    requires n <= |trace|
  {
    if n == 0 then FRESH else Called(c, Run(c, trace, n - 1), trace[n - 1].id, trace[n - 1].now).0
  }

  /** Whether the limiter lets call `i` pass. */
  predicate Decision(c: Config, trace: seq<Request>, i: nat)
    requires i < |trace|
  {
    Called(c, Run(c, trace, i), trace[i].id, trace[i].now).1
  }

  /** The instants of the requests of one identity. */
  function Stamps(rs: seq<Request>, id: Identity): seq<int> {
    if rs == [] then []
    else if rs[|rs| - 1].id == id then Stamps(rs[..|rs| - 1], id) + [rs[|rs| - 1].now]
    else Stamps(rs[..|rs| - 1], id)
  }

  /** Fewer than `limit` logged requests of the identity are newer than one window. */
  predicate Room(c: Config, log: seq<Request>, r: Request) {
    |Newer(Stamps(log, r.id), r.now - c.Window())| < c.limit
  }

  /** The requests among the first `n` calls that pass if nothing is ever pruned. */
  function Accepted(c: Config, trace: seq<Request>, n: nat): seq<Request>
    requires n <= |trace|
  {
    if n == 0 then []
    else
      var log := Accepted(c, trace, n - 1);
      if Room(c, log, trace[n - 1]) then log + [trace[n - 1]] else log
  }

  /** Whether call `i` passes if nothing is ever pruned. */
  predicate Passes(c: Config, trace: seq<Request>, i: nat)
    requires i < |trace|
  {
    Room(c, Accepted(c, trace, i), trace[i])
  }

  /** All instants at which requests of `id` passed before call `n`. */
  function Log(c: Config, trace: seq<Request>, n: nat, id: Identity): seq<int>
    requires n <= |trace|
  {
    Stamps(Accepted(c, trace, n), id)
  }

  lemma LogStep(c: Config, trace: seq<Request>, n: nat, id: Identity)
    requires n < |trace|
    ensures Log(c, trace, n + 1, id)
         == if trace[n].id == id && Passes(c, trace, n) then Log(c, trace, n, id) + [trace[n].now]
            else Log(c, trace, n, id)
  {
    var log := Accepted(c, trace, n);
    assert (log + [trace[n]])[..|log|] == log;
  }

  lemma {:induction false} NewerAppend(a: seq<int>, b: seq<int>, cutoff: int)
    ensures Newer(a + b, cutoff) == Newer(a, cutoff) + Newer(b, cutoff)
  {
    if a == [] {
      assert a + b == b;
    } else {
      assert (a + b)[1..] == a[1..] + b;
      NewerAppend(a[1..], b, cutoff);
    }
  }

  lemma {:induction false} NewerTwice(stamps: seq<int>, early: int, late: int)
    requires early <= late
    ensures Newer(Newer(stamps, early), late) == Newer(stamps, late)
  {
    if stamps == [] {
    } else {
      NewerTwice(stamps[1..], early, late);
    }
  }

  /** What is kept agrees with the whole log on every cutoff still to come. */
  ghost predicate Faithful(c: Config, s: State, trace: seq<Request>, n: nat, cutoff: int)
    requires n <= |trace|
  {
    forall id, later | later >= cutoff ::
      Newer(At(s.history, id), later) == Newer(Log(c, trace, n, id), later)
  }

  lemma SweptAt(h: History, cutoff: int, id: Identity)
    ensures At(Swept(h, cutoff), id) == Newer(At(h, id), cutoff)
  {}

  lemma SweepIsFaithful(c: Config, s: State, trace: seq<Request>, n: nat, cutoff: int, last: Option<int>)
    requires n <= |trace| && Faithful(c, s, trace, n, cutoff)
    ensures Faithful(c, State(Swept(s.history, cutoff), last), trace, n, cutoff)
  {
    forall id, later | later >= cutoff
      ensures Newer(At(Swept(s.history, cutoff), id), later) == Newer(Log(c, trace, n, id), later)
    {
      SweptAt(s.history, cutoff, id);
      NewerTwice(At(s.history, id), cutoff, later);
    }
  }

  lemma CleaningIsFaithful(c: Config, s: State, trace: seq<Request>, n: nat, now: int)
    requires n <= |trace| && Faithful(c, s, trace, n, now - c.Window())
    ensures Faithful(c, Cleaned(c, s, now), trace, n, now - c.Window())
  {
    if DueForCleanup(c, s.lastCleanup, now) {
      SweepIsFaithful(c, s, trace, n, now - c.Window(), Some(now));
    }
  }

  lemma CallIsFaithful(c: Config, s: State, trace: seq<Request>, n: nat)
    requires n < |trace| && Faithful(c, s, trace, n, trace[n].now - c.Window())
    ensures Called(c, s, trace[n].id, trace[n].now).1 <==> Passes(c, trace, n)
    ensures Faithful(c, Called(c, s, trace[n].id, trace[n].now).0, trace, n + 1, trace[n].now - c.Window())
  {
    var r := trace[n];
    var s1 := Cleaned(c, s, r.now);
    CleaningIsFaithful(c, s, trace, n, r.now);
    SameRoom(c, s1, trace, n);
    RecordingIsFaithful(c, s1, Called(c, s, r.id, r.now).0, trace, n);
  }

  lemma SameRoom(c: Config, s: State, trace: seq<Request>, n: nat)
    requires n < |trace| && Faithful(c, s, trace, n, trace[n].now - c.Window())
    ensures |Newer(At(s.history, trace[n].id), trace[n].now - c.Window())| < c.limit <==> Passes(c, trace, n)
  {
    var r := trace[n];
    assert Newer(At(s.history, r.id), r.now - c.Window()) == Newer(Log(c, trace, n, r.id), r.now - c.Window());
  }

  lemma RecordingIsFaithful(c: Config, s: State, s': State, trace: seq<Request>, n: nat)
    requires n < |trace| && Faithful(c, s, trace, n, trace[n].now - c.Window())
    requires var recent := Newer(At(s.history, trace[n].id), trace[n].now - c.Window());
             s'.history == s.history[trace[n].id := if Passes(c, trace, n) then recent + [trace[n].now] else recent]
    ensures Faithful(c, s', trace, n + 1, trace[n].now - c.Window())
  {
    var r, log := trace[n], Log(c, trace, n, trace[n].id);
    var cutoff := r.now - c.Window();
    KeptAgrees(At(s.history, r.id), log, cutoff, r.now);
    forall id, later | later >= cutoff
      ensures Newer(At(s'.history, id), later) == Newer(Log(c, trace, n + 1, id), later)
    {
      LogStep(c, trace, n, id);
      if id != r.id {
        assert Newer(At(s.history, id), later) == Newer(Log(c, trace, n, id), later);
      }
    }
  }

  lemma KeptAgrees(kept: seq<int>, log: seq<int>, cutoff: int, now: int)
    requires forall later | later >= cutoff :: Newer(kept, later) == Newer(log, later)
    ensures forall later | later >= cutoff ::
              && Newer(Newer(kept, cutoff), later) == Newer(log, later)
              && Newer(Newer(kept, cutoff) + [now], later) == Newer(log + [now], later)
  {
    forall later | later >= cutoff
      ensures Newer(Newer(kept, cutoff), later) == Newer(log, later)
      ensures Newer(Newer(kept, cutoff) + [now], later) == Newer(log + [now], later)
    {
      NewerTwice(kept, cutoff, later);
      NewerAppend(Newer(kept, cutoff), [now], later);
      NewerAppend(log, [now], later);
    }
  }

  lemma {:induction false} StateIsFaithful(c: Config, trace: seq<Request>, n: nat, now: int)
    requires n <= |trace| && Timed(trace) && (n > 0 ==> trace[n - 1].now <= now)
    ensures Faithful(c, Run(c, trace, n), trace, n, now - c.Window())
  {
    if n == 0 {
    } else {
      StateIsFaithful(c, trace, n - 1, trace[n - 1].now);
      CallIsFaithful(c, Run(c, trace, n - 1), trace, n - 1);
    }
  }

  /** Pruning and the sweep of idle identities never change a decision. */
  lemma PruningIsInvisible(c: Config, trace: seq<Request>, i: nat)
    requires Timed(trace) && i < |trace|
    ensures Decision(c, trace, i) <==> Passes(c, trace, i)
  {
    StateIsFaithful(c, trace, i, trace[i].now);
    CallIsFaithful(c, Run(c, trace, i), trace, i);
  }

  // ------------------------------------------------------------ what a client gets

  ghost predicate Ascending(s: seq<int>) {
    forall i, j | 0 <= i < j < |s| :: s[i] <= s[j]
  }

  lemma {:induction false} LogAscends(c: Config, trace: seq<Request>, n: nat, id: Identity, now: int)
    requires n <= |trace| && Timed(trace) && (n > 0 ==> trace[n - 1].now <= now)
    ensures Ascending(Log(c, trace, n, id))
    ensures forall t | t in Log(c, trace, n, id) :: t <= now
  {
    if n == 0 {
    } else {
      var before := Log(c, trace, n - 1, id);
      LogAscends(c, trace, n - 1, id, trace[n - 1].now);
      LogStep(c, trace, n - 1, id);
      assert forall i | 0 <= i < |before| :: before[i] in before;
    }
  }

  lemma {:induction false} NewerShrinks(s: seq<int>, early: int, late: int)
    requires early <= late
    ensures |Newer(s, late)| <= |Newer(s, early)| <= |s|
  {
    if s == [] {
    } else {
      NewerShrinks(s[1..], early, late);
    }
  }

  function UpTo(s: seq<int>, t: int): seq<int> {
    if s == [] then []
    else if s[|s| - 1] <= t then UpTo(s[..|s| - 1], t) + [s[|s| - 1]]
    else UpTo(s[..|s| - 1], t)
  }

  lemma {:induction false} UpToShrinks(s: seq<int>, t: int, cutoff: int)
    ensures |Newer(UpTo(s, t), cutoff)| <= |Newer(s, cutoff)|
  {
    if s == [] {
    } else {
      var n := |s| - 1;
      UpToShrinks(s[..n], t, cutoff);
      assert s == s[..n] + [s[n]];
      NewerAppend(s[..n], [s[n]], cutoff);
      NewerAppend(UpTo(s[..n], t), [s[n]], cutoff);
    }
  }

  /** The accepted requests of `id`, among the first `n` calls, in the stretch `(t - W, t]`. */
  function InStretch(c: Config, trace: seq<Request>, n: nat, id: Identity, t: int): seq<int>
    requires n <= |trace|
  {
    Newer(UpTo(Log(c, trace, n, id), t), t - c.Window())
  }

  /** An instant that found room does not overfill any stretch it is in. */
  lemma OneMoreFits(before: seq<int>, now: int, t: int, window: nat, limit: nat)
    requires |Newer(before, now - window)| < limit
    requires |Newer(UpTo(before, t), t - window)| <= limit
    ensures |Newer(UpTo(before + [now], t), t - window)| <= limit
  {
    assert (before + [now])[..|before|] == before;
    if now <= t {
      UpToShrinks(before, t, t - window);
      NewerShrinks(before, now - window, t - window);
      NewerShrinks([now], t - window, t - window);
      NewerAppend(UpTo(before, t), [now], t - window);
    }
  }

  /** At most `limit` instants of the log lie in the stretch of one window that ends at `t`. */
  ghost predicate Spread(log: seq<int>, t: int, window: nat, limit: nat) {
    |Newer(UpTo(log, t), t - window)| <= limit
  }

  /** The log stays, or gains an instant for which there was room. */
  ghost predicate Grows(before: seq<int>, after: seq<int>, now: int, window: nat, limit: nat) {
    after == before || (after == before + [now] && |Newer(before, now - window)| < limit)
  }

  lemma SpreadKept(before: seq<int>, after: seq<int>, now: int, t: int, window: nat, limit: nat)
    requires Spread(before, t, window, limit) && Grows(before, after, now, window, limit)
    ensures Spread(after, t, window, limit)
  {
    if after != before {
      OneMoreFits(before, now, t, window, limit);
    }
  }

  lemma LogGrows(c: Config, trace: seq<Request>, n: nat, id: Identity)
    requires 0 < n <= |trace|
    ensures Grows(Log(c, trace, n - 1, id), Log(c, trace, n, id), trace[n - 1].now, c.Window(), c.limit)
  {
    LogStep(c, trace, n - 1, id);
  }

  lemma {:induction false} LogSpread(c: Config, trace: seq<Request>, n: nat, id: Identity, t: int)
    requires n <= |trace|
    ensures Spread(Log(c, trace, n, id), t, c.Window(), c.limit)
  {
    if n == 0 {
      assert Log(c, trace, 0, id) == [];
    } else {
      LogSpread(c, trace, n - 1, id, t);
      LogGrows(c, trace, n, id);
      SpreadKept(Log(c, trace, n - 1, id), Log(c, trace, n, id), trace[n - 1].now, t, c.Window(), c.limit);
    }
  }

  /** Every stretch of one window holds at most `limit` accepted requests of an identity. */
  lemma WindowNeverOverfull(c: Config, trace: seq<Request>, n: nat, id: Identity, t: int)
    requires n <= |trace|
    ensures |InStretch(c, trace, n, id, t)| <= c.limit
  {
    LogSpread(c, trace, n, id, t);
  }

  lemma {:induction false} AllNewer(s: seq<int>, cutoff: int)
    requires forall t | t in s :: t > cutoff
    ensures Newer(s, cutoff) == s
  {
    if s == [] {
    } else {
      assert s[0] in s && forall t | t in s[1..] :: t in s;
      AllNewer(s[1..], cutoff);
    }
  }

  lemma {:induction false} NewerAscends(s: seq<int>, cutoff: int)
    requires Ascending(s)
    ensures Ascending(Newer(s, cutoff))
  {
    if s == [] {
    } else {
      NewerAscends(s[1..], cutoff);
      NewerIsNewer(s[1..], cutoff);
      var rest := Newer(s[1..], cutoff);
      forall i | 0 <= i < |rest| ensures s[0] <= rest[i] {
        assert rest[i] in rest;
        assert rest[i] in s[1..];
      }
    }
  }

  lemma {:induction false} UpToAll(s: seq<int>, t: int)
    requires forall x | x in s :: x <= t
    ensures UpTo(s, t) == s
  {
    if s == [] {
    } else {
      var n := |s| - 1;
      assert s[n] in s && forall x | x in s[..n] :: x in s;
      UpToAll(s[..n], t);
    }
  }

  /** The oldest accepted instant in the window that ends at `now`. */
  function Oldest(c: Config, log: seq<int>, now: int): int
    requires Newer(log, now - c.Window()) != []
  {
    Newer(log, now - c.Window())[0]
  }

  /** With a full window, the log has room exactly from `oldest + W` on. */
  lemma FullUntilOldestLeaves(c: Config, log: seq<int>, now: int, later: int)
    requires c.Valid() && Ascending(log) && now <= later && |Newer(log, now - c.Window())| == c.limit
    ensures |Newer(log, later - c.Window())| < c.limit <==> later >= Oldest(c, log, now) + c.Window()
  {
    var w := Newer(log, now - c.Window());
    NewerAscends(log, now - c.Window());
    NewerTwice(log, now - c.Window(), later - c.Window());
    var cutoff := later - c.Window();
    if later < w[0] + c.Window() {
      AllNewer(w, cutoff);
    } else {
      assert Newer(w, cutoff) == Newer(w[1..], cutoff);
      NewerShrinks(w[1..], cutoff, cutoff);
    }
  }

  lemma RejectionMeansFull(c: Config, trace: seq<Request>, i: nat)
    requires Timed(trace) && i < |trace| && !Passes(c, trace, i)
    ensures Ascending(Log(c, trace, i, trace[i].id))
    ensures |Newer(Log(c, trace, i, trace[i].id), trace[i].now - c.Window())| == c.limit
  {
    LogAscends(c, trace, i, trace[i].id, trace[i].now);
    UpToAll(Log(c, trace, i, trace[i].id), trace[i].now);
    WindowNeverOverfull(c, trace, i, trace[i].id, trace[i].now);
  }

  /** Call `k` is none of `id`, or it does not pass. */
  ghost predicate Silent(c: Config, trace: seq<Request>, k: nat, id: Identity)
    requires k < |trace|
  {
    trace[k].id == id ==> !Passes(c, trace, k)
  }

  lemma {:induction false} QuietLog(c: Config, trace: seq<Request>, i: nat, j: nat, id: Identity)
    requires i <= j <= |trace|
    requires forall k | i <= k < j :: Silent(c, trace, k, id)
    ensures Log(c, trace, j, id) == Log(c, trace, i, id)
    decreases j
  {
    if i < j {
      assert Silent(c, trace, j - 1, id);
      QuietLog(c, trace, i, j - 1, id);
      LogStep(c, trace, j - 1, id);
    }
  }

  lemma PassesWhenOldestLeaves(c: Config, trace: seq<Request>, i: nat, j: nat)
    requires c.Valid() && Timed(trace) && i < j < |trace| && trace[j].id == trace[i].id
    requires forall k | i <= k < j :: Silent(c, trace, k, trace[i].id)
    ensures var log := Log(c, trace, i, trace[i].id);
            && Newer(log, trace[i].now - c.Window()) != []
            && (Passes(c, trace, j) <==> trace[j].now >= Oldest(c, log, trace[i].now) + c.Window())
  {
    assert Silent(c, trace, i, trace[i].id);
    RejectionMeansFull(c, trace, i);
    QuietLog(c, trace, i, j, trace[i].id);
    FullUntilOldestLeaves(c, Log(c, trace, i, trace[i].id), trace[i].now, trace[j].now);
  }

  /** After a rejection nothing of that identity passes until exactly `oldest + W`, and the
      first request from then on does. */
  lemma RejectedUntilOldestLeaves(c: Config, trace: seq<Request>, i: nat, j: nat)
    requires c.Valid() && Timed(trace) && i < j < |trace| && trace[j].id == trace[i].id
    requires forall k | i <= k < j && trace[k].id == trace[i].id :: !Decision(c, trace, k)
    ensures var log := Log(c, trace, i, trace[i].id);
            && Newer(log, trace[i].now - c.Window()) != []
            && (Decision(c, trace, j) <==> trace[j].now >= Oldest(c, log, trace[i].now) + c.Window())
  {
    forall k | i <= k < j ensures Silent(c, trace, k, trace[i].id) {
      PruningIsInvisible(c, trace, k);
    }
    PruningIsInvisible(c, trace, j);
    PassesWhenOldestLeaves(c, trace, i, j);
  }

  lemma RoundedDown(oldest: int, now: int, window: nat)
    requires now < oldest + window
    ensures var left := oldest + window - now;
            now + WholeSeconds(left) * SECOND >= oldest + window <==> left % SECOND == 0 || left < SECOND
  {
    var left := oldest + window - now;
    assert left / SECOND * SECOND + left % SECOND == left;
  }

  /** The time until the oldest recorded request leaves the window, as a rejected call `i` computes it. */
  function TimeLeft(c: Config, trace: seq<Request>, i: nat): nat
    requires i < |trace|
  {
    var kept := At(Called(c, Run(c, trace, i), trace[i].id, trace[i].now).0.history, trace[i].id);
    if kept != [] && kept[0] + c.Window() > trace[i].now then kept[0] + c.Window() - trace[i].now else 0
  }

  lemma TimeLeftIsOldest(c: Config, trace: seq<Request>, i: nat)
    requires c.Valid() && Timed(trace) && i < |trace| && !Decision(c, trace, i)
    ensures var log, r := Log(c, trace, i, trace[i].id), trace[i];
            && Newer(log, r.now - c.Window()) != []
            && TimeLeft(c, trace, i) == Oldest(c, log, r.now) + c.Window() - r.now > 0
  {
    var r := trace[i];
    var s, cutoff := Run(c, trace, i), r.now - c.Window();
    PruningIsInvisible(c, trace, i);
    RejectionMeansFull(c, trace, i);
    StateIsFaithful(c, trace, i, r.now);
    CleaningIsFaithful(c, s, trace, i, r.now);
    var recent := Newer(At(Cleaned(c, s, r.now).history, r.id), cutoff);
    assert recent == Newer(Log(c, trace, i, r.id), cutoff);
    NewerIsNewer(Log(c, trace, i, r.id), cutoff);
    assert recent[0] in recent;
  }

  /** The Retry-After header is rounded down: a rejected client that is silent for the announced seconds and
      then retries passes if and only if the time left was a whole number of seconds or less than one. */
  lemma RetryAfterSuffices(c: Config, trace: seq<Request>, i: nat, j: nat)
    requires c.Valid() && Timed(trace) && i < j < |trace| && trace[j].id == trace[i].id
    requires !Decision(c, trace, i) && forall k | i < k < j :: trace[k].id != trace[i].id
    requires trace[j].now == trace[i].now + WholeSeconds(TimeLeft(c, trace, i)) * SECOND
    ensures Decision(c, trace, j) <==> TimeLeft(c, trace, i) % SECOND == 0 || TimeLeft(c, trace, i) < SECOND
  {
    var log := Log(c, trace, i, trace[i].id);
    TimeLeftIsOldest(c, trace, i);
    RejectedUntilOldestLeaves(c, trace, i, j);
    RoundedDown(Oldest(c, log, trace[i].now), trace[i].now, c.Window());
  }

  // ------------------------------------------------------------------ what is remembered

  /** Every recorded identity has an instant less than a window older than the last sweep. */
  ghost predicate SweptLately(c: Config, s: State) {
    s.lastCleanup.Some? && forall id | id in s.history :: SeenAfter(s.history[id], s.lastCleanup.value - c.Window())
  }

  ghost predicate SeenAfter(stamps: seq<int>, t: int) { exists x | x in stamps :: x > t }

  lemma NewerSeen(stamps: seq<int>, cutoff: int)
    requires Newer(stamps, cutoff) != []
    ensures SeenAfter(Newer(stamps, cutoff), cutoff)
  {
    NewerIsNewer(stamps, cutoff);
    assert Newer(stamps, cutoff)[0] in Newer(stamps, cutoff);
  }

  lemma CleanedLately(c: Config, s: State, now: int)
    requires c.Valid() && (s == FRESH || (SweptLately(c, s) && s.lastCleanup.value <= now))
    ensures SweptLately(c, Cleaned(c, s, now))
    ensures now - c.Window() < Cleaned(c, s, now).lastCleanup.value <= now
  {
    forall id | id in s.history && Newer(s.history[id], now - c.Window()) != []
      ensures SeenAfter(Newer(s.history[id], now - c.Window()), now - c.Window())
    {
      NewerSeen(s.history[id], now - c.Window());
    }
  }

  lemma CalledLately(c: Config, s: State, id: Identity, now: int)
    requires c.Valid() && (s == FRESH || (SweptLately(c, s) && s.lastCleanup.value <= now))
    ensures var s' := Called(c, s, id, now).0;
            SweptLately(c, s') && now - c.Window() < s'.lastCleanup.value <= now
  {
    CleanedLately(c, s, now);
    var s1 := Cleaned(c, s, now);
    var recent := Newer(At(s1.history, id), now - c.Window());
    NewerIsNewer(At(s1.history, id), now - c.Window());
    var last := s1.lastCleanup.value;
    if |recent| >= c.limit {
      assert recent[0] in recent && recent[0] > last - c.Window();
      assert SeenAfter(recent, last - c.Window());
    } else {
      assert now in recent + [now];
      assert SeenAfter(recent + [now], last - c.Window());
    }
  }

  lemma {:induction false} RunSweptLately(c: Config, trace: seq<Request>, n: nat)
    requires c.Valid() && Timed(trace) && 0 < n <= |trace|
    ensures var s := Run(c, trace, n);
            SweptLately(c, s) && trace[n - 1].now - c.Window() < s.lastCleanup.value <= trace[n - 1].now
  {
    if n > 1 {
      RunSweptLately(c, trace, n - 1);
    }
    CalledLately(c, Run(c, trace, n - 1), trace[n - 1].id, trace[n - 1].now);
  }

  /** Memory stays bounded by the traffic: in every trace, after each call every recorded identity has made an
      accepted request within the last two windows. */
  lemma IdleIdentitiesGo(c: Config, trace: seq<Request>, n: nat, id: Identity)
    requires c.Valid() && Timed(trace) && 0 < n <= |trace| && id in Run(c, trace, n).history
    ensures SeenAfter(Run(c, trace, n).history[id], trace[n - 1].now - 2 * c.Window())
  {
    RunSweptLately(c, trace, n);
    var s := Run(c, trace, n);
    var x :| x in s.history[id] && x > s.lastCleanup.value - c.Window();
  }
}
