/** Nested transactions over one SQLite connection (`database.py`): a depth-blind flag makes
    inner blocks do nothing, and only the outermost block commits or rolls back. */
module Transactions {

  /** The connection: what is on disk, what the connection itself sees, whether SQLite has a
      transaction open, and the flag `_in_transaction`. */
  datatype Conn<S> = Conn(durable: S, working: S, open: bool, flag: bool)

  ghost predicate Clean<S>(c: Conn<S>) { !c.flag && !c.open && c.working == c.durable }

  /** How a piece of code ends.  A cancellation is no `Exception`: no handler below sees it. */
  datatype Outcome = Done | Raised | Cancelled

  /** How an awaited call of the driver ends: it works, it raises, or the caller is cancelled while it
      waits, the driver's thread having applied the call or not. */
  datatype Call = Works | Breaks | Cut(applied: bool)

  function Ending(k: Call): Outcome {
    match k
    case Works => Done
    case Breaks => Raised
    case Cut(_) => Cancelled
  }

  predicate Applied(k: Call) { k.Works? || (k.Cut? && k.applied) }

  /** The three calls that an outermost block may make itself. */
  datatype Calls = Calls(begin: Call, commit: Call, rollback: Call)

  /** Client code: writes with and without commit, a query whose answer may make the code raise, a
      cancellation while it waits for something else, sequencing, `try`/`except Exception`, and
      `async with db.transaction()`. */
  datatype Prog<!S> =
    | Write(f: S -> S, call: Call, commit: Call)
    | WriteNoCommit(f: S -> S, call: Call)
    | RaiseIf(bad: S -> bool, call: Call)
    | Cancel
    | Seq(first: Prog<S>, second: Prog<S>)
    | Try(body: Prog<S>, handler: Prog<S>)
    | Transaction(block: Prog<S>, calls: Calls)

  /** `seen` lists the durable states in order, one for every access to the connection. */
  datatype Result<S> = Result(conn: Conn<S>, outcome: Outcome, seen: seq<S>)

  // ------------------------------------------------------------------ the driver's calls

  /** A write opens SQLite's transaction even if it then fails. */
  function OnStatement<S>(c: Conn<S>, f: S -> S, k: Call): Conn<S> {
    if Applied(k) then c.(working := f(c.working), open := true)
    else if k.Breaks? then c.(open := true)
    else c
  }

  /** What the driver's commit does if it is applied, and whether it returns. */
  function OnDriverCommit<S>(c: Conn<S>, k: Call): Conn<S> {
    if Applied(k) then c.(durable := c.working, open := false) else c
  }

  function OnDriverRollback<S>(c: Conn<S>, k: Call): Conn<S> {
    if Applied(k) then c.(working := c.durable, open := false) else c
  }

  function OnExecute<S>(c: Conn<S>, f: S -> S, call: Call, commit: Call): (Conn<S>, Outcome) {
    var c' := OnStatement(c, f, call);
    if !call.Works? || c.flag then (c', Ending(call))
    else (OnDriverCommit(c', commit), Ending(commit))
  }

  /** Nothing under the flag; BEGIN fails within an open transaction. */
  function OnBegin<S>(c: Conn<S>, k: Call): (Conn<S>, Outcome) {
    if c.flag then (c, Done)
    else if c.open then (c, if k.Cut? then Cancelled else Raised)
    else (if Applied(k) then c.(open := true, flag := k.Works?) else c, Ending(k))
  }

  /** The flag goes down only if the caller sees the commit return. */
  function OnCommit<S>(c: Conn<S>, k: Call): (Conn<S>, Outcome) {
    if !c.flag then (c, Done)
    else (OnDriverCommit(c, k).(flag := !k.Works?), Ending(k))
  }

  function OnRollback<S>(c: Conn<S>, k: Call): (Conn<S>, Outcome) {
    if !c.flag then (c, Done)
    else (OnDriverRollback(c, k).(flag := !k.Works?), Ending(k))
  }

  // ------------------------------------------------------------------------ the meaning

  /** `except Exception: await self.rollback(); raise` */
  function AfterRaise<S>(c: Conn<S>, seen: seq<S>, k: Call): Result<S> {
    var (e, o) := OnRollback(c, k);
    Result(e, if o.Done? then Raised else o, seen + [e.durable])
  }

  /** What an outermost block does once its body has ended. */
  function AfterBody<S>(r: Result<S>, calls: Calls): Result<S> {
    if r.outcome.Cancelled? then r
    else if r.outcome.Raised? then AfterRaise(r.conn, r.seen, calls.rollback)
    else
      var (e, o) := OnCommit(r.conn, calls.commit);
      if o.Raised? then AfterRaise(e, r.seen + [e.durable], calls.rollback)
      else Result(e, o, r.seen + [e.durable])
  }

  function Eval<S>(c: Conn<S>, p: Prog<S>): Result<S>
    decreases p
  {
    match p
    case Write(f, call, commit) =>
      var (e, o) := OnExecute(c, f, call, commit);
      Result(e, o, [e.durable])
    case WriteNoCommit(f, call) =>
      var e := OnStatement(c, f, call);
      Result(e, Ending(call), [e.durable])
    case RaiseIf(bad, call) =>
      Result(c, if call.Works? && bad(c.working) then Raised else Ending(call), [c.durable])
    case Cancel => Result(c, Cancelled, [c.durable])
    case Seq(a, b) =>
      var r := Eval(c, a);
      if !r.outcome.Done? then r
      else
        var q := Eval(r.conn, b);
        Result(q.conn, q.outcome, r.seen + q.seen)
    case Try(a, h) =>
      var r := Eval(c, a);
      if !r.outcome.Raised? then r
      else
        var q := Eval(r.conn, h);
        Result(q.conn, q.outcome, r.seen + q.seen)
    case Transaction(block, calls) =>
      if c.flag then Eval(c, block)
      else
        var (b, o) := OnBegin(c, calls.begin);
        if !o.Done? then Result(b, o, [b.durable])
        else AfterBody(Eval(b, block), calls)
  }

  /** The plain effect of code on one state, with no connection and no transactions. */
  function Meaning<S>(s: S, p: Prog<S>): (S, Outcome)
    decreases p
  {
    match p
    case Write(f, call, _) => (if Applied(call) then f(s) else s, Ending(call))
    case WriteNoCommit(f, call) => (if Applied(call) then f(s) else s, Ending(call))
    case RaiseIf(bad, call) => (s, if call.Works? && bad(s) then Raised else Ending(call))
    case Cancel => (s, Cancelled)
    case Seq(a, b) =>
      var (t, o) := Meaning(s, a);
      if o.Done? then Meaning(t, b) else (t, o)
    case Try(a, h) =>
      var (t, o) := Meaning(s, a);
      if o.Raised? then Meaning(t, h) else (t, o)
    case Transaction(block, _) => Meaning(s, block)
  }

  /** The code with every transaction block replaced by its body. */
  function Flatten<S>(p: Prog<S>): Prog<S>
    decreases p
  {
    match p
    case Seq(a, b) => Seq(Flatten(a), Flatten(b))
    case Try(a, h) => Try(Flatten(a), Flatten(h))
    case Transaction(block, _) => Flatten(block)
    case _ => p
  }

  /** Under the flag, any code with any nesting touches only the working state, as its plain
      meaning says; the flag stays up, what is open stays open and the disk does not move. */
  lemma {:induction false} InsideOnlyWorkingMoves<S>(c: Conn<S>, p: Prog<S>)
    requires c.flag
    ensures var r := Eval(c, p);
            && r.conn.flag && (c.open ==> r.conn.open) && r.conn.durable == c.durable
            && (r.conn.working, r.outcome) == Meaning(c.working, p)
            && forall d | d in r.seen :: d == c.durable
    decreases p
  {
    match p {
      case Seq(a, b) =>
        InsideOnlyWorkingMoves(c, a);
        InsideOnlyWorkingMoves(Eval(c, a).conn, b);
      case Try(a, h) =>
        InsideOnlyWorkingMoves(c, a);
        InsideOnlyWorkingMoves(Eval(c, a).conn, h);
      case Transaction(block, _) => InsideOnlyWorkingMoves(c, block);
      case _ =>
    }
  }

  lemma {:induction false} FlattenInside<S>(c: Conn<S>, p: Prog<S>)
    requires c.flag
    ensures Eval(c, p) == Eval(c, Flatten(p))
    decreases p
  {
    match p {
      case Seq(a, b) =>
        FlattenInside(c, a);
        InsideOnlyWorkingMoves(c, a);
        FlattenInside(Eval(c, a).conn, b);
      case Try(a, h) =>
        FlattenInside(c, a);
        InsideOnlyWorkingMoves(c, a);
        FlattenInside(Eval(c, a).conn, h);
      case Transaction(block, _) => FlattenInside(c, block);
      case _ =>
    }
  }

  /** Nesting is transparent: an outermost block behaves as if its inner blocks, at any depth,
      were written out in place. */
  lemma NestingIsTransparent<S>(c: Conn<S>, block: Prog<S>, calls: Calls)
    requires !c.flag
    ensures Eval(c, Transaction(block, calls)) == Eval(c, Transaction(Flatten(block), calls))
  {
    if OnBegin(c, calls.begin).1.Done? {
      FlattenInside(OnBegin(c, calls.begin).0, block);
    }
  }

  // -------------------------------------------------------------------------- atomicity

  /** How an outermost block ends whose body ends with `o`. */
  function BlockEnds(calls: Calls, o: Outcome): Outcome {
    if !calls.begin.Works? then Ending(calls.begin)
    else if o.Cancelled? || (o.Done? && !calls.commit.Breaks?) then (if o.Done? then Ending(calls.commit) else o)
    else if calls.rollback.Cut? then Cancelled
    else Raised
  }

  /** The commit was applied, seen to return or not. */
  predicate Commits(calls: Calls, o: Outcome) { calls.begin.Works? && o.Done? && Applied(calls.commit) }

  /** Every call that an outermost block makes at its beginning and end, whatever else happens, returns to
      it or leaves nothing behind. */
  predicate LeavesClean(calls: Calls, o: Outcome) {
    if !calls.begin.Works? then !Applied(calls.begin)
    else
      match o
      case Cancelled => false
      case Done => calls.commit.Works? || (calls.commit.Breaks? && calls.rollback.Works?)
      case Raised => calls.rollback.Works?
  }

  /** The states the disk shows before the last one. */
  ghost predicate ShowsOnly<S>(seen: seq<S>, d: S) {
    seen != [] && forall i | 0 <= i < |seen| - 1 :: seen[i] == d
  }

  lemma BodyInside<S>(c: Conn<S>, block: Prog<S>)
    requires Clean(c)
    ensures var r := Eval(c.(open := true, flag := true), block);
            && r.conn == Conn(c.durable, Meaning(c.durable, block).0, true, true)
            && r.outcome == Meaning(c.durable, block).1
            && (forall d | d in r.seen :: d == c.durable) && r.seen != []
  {
    InsideOnlyWorkingMoves(c.(open := true, flag := true), block);
    SeenSomething(c.(open := true, flag := true), block);
  }

  lemma {:induction false} SeenSomething<S>(c: Conn<S>, p: Prog<S>)
    ensures Eval(c, p).seen != []
    ensures Eval(c, p).seen[|Eval(c, p).seen| - 1] == Eval(c, p).conn.durable
    decreases p
  {
    match p {
      case Seq(a, b) =>
        SeenSomething(c, a);
        SeenSomething(Eval(c, a).conn, b);
      case Try(a, h) =>
        SeenSomething(c, a);
        SeenSomething(Eval(c, a).conn, h);
      case Transaction(block, calls) =>
        if c.flag {
          SeenSomething(c, block);
        } else if OnBegin(c, calls.begin).1.Done? {
          SeenSomething(OnBegin(c, calls.begin).0, block);
        }
      case _ =>
    }
  }

  /** An outermost block on a clean connection, whatever its body does and however its calls end: the disk
      has the whole effect of the body if the commit was applied and is untouched otherwise, and it shows
      nothing else on the way. */
  lemma BlockIsAtomic<S>(c: Conn<S>, block: Prog<S>, calls: Calls)
    requires Clean(c)
    ensures var r := Eval(c, Transaction(block, calls));
            var (s, o) := Meaning(c.durable, block);
            && r.outcome == BlockEnds(calls, o)
            && r.conn.durable == (if Commits(calls, o) then s else c.durable)
            && ShowsOnly(r.seen, c.durable) && r.seen[|r.seen| - 1] == r.conn.durable
  {
    SeenSomething(c, Transaction(block, calls));
    if calls.begin.Works? {
      BodyInside(c, block);
      var seen := Eval(c.(open := true, flag := true), block).seen;
      forall i | 0 <= i < |seen| ensures seen[i] == c.durable {
        assert seen[i] in seen;
      }
    }
  }

  /** The connection is clean after a block exactly if its beginning, its body and its end are not
      cancelled (and a needed rollback does not fail).  Otherwise the flag stays up and no code run later
      moves the disk, or else a cancelled BEGIN was applied. */
  lemma CleanIff<S>(c: Conn<S>, block: Prog<S>, calls: Calls, later: Prog<S>)
    requires Clean(c)
    ensures var r := Eval(c, Transaction(block, calls));
            var o := Meaning(c.durable, block).1;
            && (Clean(r.conn) <==> LeavesClean(calls, o))
            && (calls.begin.Works? && !LeavesClean(calls, o) ==>
                  r.conn.flag && forall d | d in Eval(r.conn, later).seen :: d == r.conn.durable)
            && (!calls.begin.Works? && !LeavesClean(calls, o) ==> r.conn == c.(open := true))
  {
    var r := Eval(c, Transaction(block, calls));
    if calls.begin.Works? {
      BodyInside(c, block);
      if r.conn.flag {
        InsideOnlyWorkingMoves(r.conn, later);
      }
    }
  }

  /** After a BEGIN that was applied but not seen to return, every further block fails at its own BEGIN and
      changes nothing, until a write outside a transaction commits and closes it. */
  lemma LostBeginBlocks<S>(c: Conn<S>, block: Prog<S>, calls: Calls, f: S -> S)
    requires !c.flag && c.open
    ensures var r := Eval(c, Transaction(block, calls)); !r.outcome.Done? && r.conn == c
    ensures var r := Eval(c, Write(f, Works, Works)); r.outcome.Done? && Clean(r.conn) && r.conn.durable == f(c.working)
  {
  }

  /** A write outside any transaction on a clean connection, however its two calls end: the disk gets it if
      the write worked and the commit was applied, and the connection is clean again exactly if both worked,
      or the commit was cut after it was applied, or the write was cut before it was applied. */
  lemma PlainWrite<S>(c: Conn<S>, f: S -> S, call: Call, commit: Call)
    requires Clean(c)
    ensures var r := Eval(c, Write(f, call, commit));
            && (r.outcome.Done? <==> call.Works? && commit.Works?)
            && (r.outcome.Cancelled? <==> call.Cut? || (call.Works? && commit.Cut?))
            && r.conn.durable == (if call.Works? && (commit.Works? || commit == Cut(true)) then f(c.durable)
                                  else c.durable)
            && !r.conn.flag
            && (r.conn.open <==> if call.Works? then commit.Breaks? || commit == Cut(false) else call != Cut(false))
            && r.conn.working == (if call.Works? || call == Cut(true) then f(c.durable) else c.durable)
  {}

  // --------------------------------------------------------------- the connection object

  class Database<S> {
    var durable: S
    var working: S
    var open: bool
    var inTransaction: bool

    constructor (s: S)
      ensures Snapshot() == Conn(s, s, false, false)
    {
      durable, working, open, inTransaction := s, s, false, false;
    }

    function Snapshot(): Conn<S>
      reads this
    {
      Conn(durable, working, open, inTransaction)
    }

    /** The driver's part of a write. */
    method Statement(f: S -> S, call: Call) returns (o: Outcome)
      modifies this
      ensures Snapshot() == OnStatement(old(Snapshot()), f, call) && o == Ending(call)
    {
      if Applied(call) {
        working, open := f(working), true;
      } else if call.Breaks? {
        open := true;
      }
      o := Ending(call);
    }

    method DriverCommit(call: Call) returns (o: Outcome)
      modifies this
      ensures Snapshot() == OnDriverCommit(old(Snapshot()), call) && o == Ending(call)
    {
      if Applied(call) {
        durable, open := working, false;
      }
      o := Ending(call);
    }

    method Execute(f: S -> S, call: Call, commit: Call) returns (o: Outcome)
      modifies this
      ensures (Snapshot(), o) == OnExecute(old(Snapshot()), f, call, commit)
    {
      o := Statement(f, call);
      if !o.Done? {
        return;
      }
      if !inTransaction {
        o := DriverCommit(commit);
      }
    }

    method ExecuteNoCommit(f: S -> S, call: Call) returns (o: Outcome)
      modifies this
      ensures Snapshot() == OnStatement(old(Snapshot()), f, call) && o == Ending(call)
    {
      o := Statement(f, call);
    }

    method Begin(call: Call) returns (o: Outcome)
      modifies this
      ensures (Snapshot(), o) == OnBegin(old(Snapshot()), call)
    {
      if inTransaction {
        return Done;
      }
      if open {
        return if call.Cut? then Cancelled else Raised;
      }
      open := Applied(call);
      if !call.Works? {
        return Ending(call);
      }
      inTransaction := true;
      o := Done;
    }

    method Commit(call: Call) returns (o: Outcome)
      modifies this
      ensures (Snapshot(), o) == OnCommit(old(Snapshot()), call)
    {
      if !inTransaction {
        return Done;
      }
      o := DriverCommit(call);
      if o.Done? {
        inTransaction := false;
      }
    }

    method Rollback(call: Call) returns (o: Outcome)
      modifies this
      ensures (Snapshot(), o) == OnRollback(old(Snapshot()), call)
    {
      if !inTransaction {
        return Done;
      }
      if Applied(call) {
        working, open := durable, false;
      }
      if call.Works? {
        inTransaction := false;
      }
      o := Ending(call);
    }

    /** The context manager's `else` branch after its body, whose outcome is `body`. */
    method Finish(body: Outcome, calls: Calls) returns (o: Outcome)
      modifies this
      ensures forall seen: seq<S> ::
                var r := AfterBody(Result(old(Snapshot()), body, seen), calls);
                Snapshot() == r.conn && o == r.outcome
    {
      o := body;
      if o.Done? {
        o := Commit(calls.commit);
      }
      if o.Raised? {
        var undone := Rollback(calls.rollback);
        if !undone.Done? {
          o := undone;
        }
      }
    }

    /** Client code run on the connection, blocks through the context manager. */
    method Run(p: Prog<S>) returns (o: Outcome)
      modifies this
      ensures Snapshot() == Eval(old(Snapshot()), p).conn && o == Eval(old(Snapshot()), p).outcome
      decreases p
    {
      match p {
        case Write(f, call, commit) => o := Execute(f, call, commit);
        case WriteNoCommit(f, call) => o := ExecuteNoCommit(f, call);
        case RaiseIf(bad, call) => o := if call.Works? && bad(working) then Raised else Ending(call);
        case Cancel => o := Cancelled;
        case Seq(a, b) =>
          o := Run(a);
          if o.Done? {
            o := Run(b);
          }
        case Try(a, h) =>
          o := Run(a);
          if o.Raised? {
            o := Run(h);
          }
        case Transaction(block, calls) =>
          if inTransaction {
            o := Run(block);
            return;
          }
          o := Begin(calls.begin);
          if !o.Done? {
            return;
          }
          o := Run(block);
          o := Finish(o, calls);
      }
    }
  }
}
