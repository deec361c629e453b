/** Two readers, of standard output and standard error, share one byte budget
    (`sandbox_executor.py`).  Each reads a chunk, waits for the lock, and delivers it. */
module OutputBudget {
  import opened Options

  newtype byte = n: int | 0 <= n < 256
  type bytes = seq<byte>

  const CHUNK_SIZE: nat := 65536

  datatype Budget = Budget(total: nat, max: nat, limitHit: bool)

  /** The block under the lock: the new budget, the part of the chunk that is kept, and
      whether the reader returns. */
  function Delivered(b: Budget, chunk: bytes): (r: (Budget, bytes, bool)) {
    var remaining := b.max as int - b.total;
    if b.limitHit then (b, [], true)
    else if remaining <= 0 then (b.(limitHit := true), [], true)
    else if |chunk| > remaining then (b.(total := b.max, limitHit := true), chunk[..remaining], false)
    else (b.(total := b.total + |chunk|), chunk, false)
  }

  class SharedState {
    const max: nat
    var total: nat
    var limitHit: bool

    constructor (max: nat)
      ensures this.max == max && Snapshot() == Budget(0, max, false)
    {
      this.max, total, limitHit := max, 0, false;
    }

    function Snapshot(): Budget
      reads this
    {
      Budget(total, max, limitHit)
    }

    method Deliver(buffer: bytes, chunk: bytes) returns (extended: bytes, stop: bool)
      modifies this
      ensures var (b, kept, done) := Delivered(old(Snapshot()), chunk);
              Snapshot() == b && extended == buffer + kept && stop == done
    {
      if limitHit {
        return buffer, true;
      }
      var remaining := max as int - total;
      if remaining <= 0 {
        limitHit := true;
        return buffer, true;
      }
      var kept := chunk;
      if |kept| > remaining {
        kept := kept[..remaining];
        limitHit := true;
      }
      extended := buffer + kept;
      total := total + |kept|;
      stop := false;
    }

    /** One reader alone on a fresh budget: it keeps the stream up to the limit. */
    method ReadStream(stream: bytes) returns (buffer: bytes)
      requires Snapshot() == Budget(0, max, false)
      modifies this
      ensures limitHit <==> |stream| > max
      ensures buffer == if |stream| > max then stream[..max] else stream
      ensures total == |buffer|
    {
      buffer := [];
      var left := stream;
      while left != []
        invariant total == |buffer| <= max && buffer <= stream
        invariant !limitHit ==> stream == buffer + left
        invariant limitHit ==> |buffer| == max < |stream|
        decreases |left|
      {
        var n: nat :| 1 <= n <= |left| && n <= CHUNK_SIZE;
        var chunk := left[..n];
        left := left[n..];
        var stop: bool;
        buffer, stop := Deliver(buffer, chunk);
        if stop {
          return;
        }
      }
    }
  }

  // ------------------------------------------------------------- the two readers

  /** A reader: what its stream still holds, the chunk it read and has not delivered, what it
      kept, and whether it returned. */
  datatype Reader = Reader(left: bytes, held: Option<bytes>, buffer: bytes, returned: bool)

  datatype State = State(budget: Budget, out: Reader, err: Reader)

  datatype Event = Read(onErr: bool, n: nat) | Deliver(onErr: bool)

  function Start(stream: bytes): Reader { Reader(stream, None, [], false) }

  /** `read` returns one byte or more, and nothing only at the end of the stream. */
  function AfterRead(r: Reader, n: nat): Reader {
    if r.returned || r.held.Some? then r
    else if r.left == [] then r.(returned := true)
    else if 1 <= n <= |r.left| && n <= CHUNK_SIZE then r.(left := r.left[n..], held := Some(r.left[..n]))
    else r
  }

  function Step(s: State, e: Event): State {
    match e
    case Read(false, n) => s.(out := AfterRead(s.out, n))
    case Read(true, n) => s.(err := AfterRead(s.err, n))
    case Deliver(onErr) =>
      var r := if onErr then s.err else s.out;
      if r.held.None? then s
      else
        var (b, kept, stop) := Delivered(s.budget, r.held.value);
        var r' := r.(held := None, buffer := r.buffer + kept, returned := stop);
        if onErr then s.(budget := b, err := r') else s.(budget := b, out := r')
  }

  /** A delivery keeps what still fits; the limit is hit once something does not fit, and the reader returns
      exactly if nothing fitted before. */
  lemma DeliveryTells(s: State, onErr: bool)
    requires s.budget.total <= s.budget.max
    ensures var r, s' := if onErr then s.err else s.out, Step(s, Deliver(onErr));
            var r' := if onErr then s'.err else s'.out;
            r.held.Some? && r.held.value != [] ==>
              var full := s.budget.limitHit || s.budget.total == s.budget.max;
              && (r'.returned <==> full) && r'.held.None?
              && (s'.budget.limitHit <==> full || s.budget.total + |r.held.value| > s.budget.max)
              && (full ==> r'.buffer == r.buffer && s'.budget.total == s.budget.total)
              && (!full ==> r.buffer <= r'.buffer <= r.buffer + r.held.value
                            && |r'.buffer| - |r.buffer| == s'.budget.total - s.budget.total
                            && (s'.budget.total == s.budget.max || r'.buffer == r.buffer + r.held.value))
  {}

  function Run(max: nat, out: bytes, err: bytes, es: seq<Event>): State {
    if es == [] then State(Budget(0, max, false), Start(out), Start(err))
    else Step(Run(max, out, err, es[..|es| - 1]), es[|es| - 1])
  }

  function Held(r: Reader): bytes { if r.held.Some? then r.held.value else [] }

  ghost predicate ReaderOk(r: Reader, stream: bytes, limitHit: bool) {
    && r.buffer <= stream
    && (r.held.Some? ==> r.held.value != [] && !r.returned)
    && (!limitHit ==> stream == r.buffer + Held(r) + r.left)
    && (r.returned ==> limitHit || (r.left == [] && r.held.None?))
  }

  ghost predicate Invariant(s: State, max: nat, out: bytes, err: bytes) {
    && s.budget.max == max
    && s.budget.total == |s.out.buffer| + |s.err.buffer| <= max
    && (s.budget.limitHit ==> s.budget.total == max < |out| + |err|)
    && ReaderOk(s.out, out, s.budget.limitHit)
    && ReaderOk(s.err, err, s.budget.limitHit)
  }

  lemma StepKeepsInvariant(s: State, e: Event, max: nat, out: bytes, err: bytes)
    requires Invariant(s, max, out, err)
    ensures Invariant(Step(s, e), max, out, err)
  {
    if e.Read? {
      var r := if e.onErr then s.err else s.out;
      assert r.left != [] && 1 <= e.n <= |r.left| ==> r.left[..e.n] + r.left[e.n..] == r.left;
    }
  }

  /** In every interleaving, at every moment: what was captured is what was counted and fits
      the budget, and each buffer is a prefix of its stream. */
  lemma {:induction false} BudgetHolds(max: nat, out: bytes, err: bytes, es: seq<Event>)
    ensures Invariant(Run(max, out, err, es), max, out, err)
  {
    if es == [] {
    } else {
      BudgetHolds(max, out, err, es[..|es| - 1]);
      StepKeepsInvariant(Run(max, out, err, es[..|es| - 1]), es[|es| - 1], max, out, err);
    }
  }

  /** Once both readers have returned, the limit was hit if and only if the streams together
      exceed it; then exactly `max` bytes were kept, and otherwise both streams entirely. */
  lemma FinalOutput(max: nat, out: bytes, err: bytes, es: seq<Event>)
    requires Run(max, out, err, es).out.returned && Run(max, out, err, es).err.returned
    ensures var s := Run(max, out, err, es);
            && (s.budget.limitHit <==> |out| + |err| > max)
            && (s.budget.limitHit ==> |s.out.buffer| + |s.err.buffer| == max)
            && (!s.budget.limitHit ==> s.out.buffer == out && s.err.buffer == err)
  {
    BudgetHolds(max, out, err, es);
  }
}
