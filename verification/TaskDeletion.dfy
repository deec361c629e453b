/** Deleting the records of many tasks in chunks inside one transaction (`routes.py`). */
module TaskDeletion {
  import opened Options
  import opened Transactions

  type TaskId = string
  type RowId = string

  const CHUNK: nat := 500

  /** Task rows with whether they are running, and the tables that point at them: a row may
      name its task, a notification names its finding. */
  datatype Tables = Tables(
    tasks: map<TaskId, bool>,
    findings: map<RowId, Option<TaskId>>,
    notifications: map<RowId, RowId>,
    reports: map<RowId, Option<TaskId>>,
    auditLog: map<RowId, Option<TaskId>>,
    crawlRuns: map<RowId, Option<TaskId>>,
    assetServices: map<RowId, Option<TaskId>>)

  predicate Owned(o: Option<TaskId>, ids: set<TaskId>) { o.Some? && o.value in ids }

  function Unowned(t: map<RowId, Option<TaskId>>, ids: set<TaskId>): map<RowId, Option<TaskId>> {
    map r | r in t && !Owned(t[r], ids) :: t[r]
  }

  predicate NotifiesOf(t: Tables, n: RowId, ids: set<TaskId>)
    requires n in t.notifications
  {
    t.notifications[n] in t.findings && Owned(t.findings[t.notifications[n]], ids)
  }

  /** The tables without anything that belongs to the given tasks, and with all the rest. */
  function Without(t: Tables, ids: set<TaskId>): Tables {
    Tables(map k | k in t.tasks && k !in ids :: t.tasks[k],
           Unowned(t.findings, ids),
           map n | n in t.notifications && !NotifiesOf(t, n, ids) :: t.notifications[n],
           Unowned(t.reports, ids), Unowned(t.auditLog, ids),
           Unowned(t.crawlRuns, ids), Unowned(t.assetServices, ids))
  }

  /** The statements run for one chunk, in order. */
  function Statement(k: nat, ids: set<TaskId>): Tables -> Tables {
    match k
    case 0 => (t: Tables) => t.(notifications :=
                map n | n in t.notifications && !NotifiesOf(t, n, ids) :: t.notifications[n])
    case 1 => (t: Tables) => t.(findings := Unowned(t.findings, ids))
    case 2 => (t: Tables) => t.(reports := Unowned(t.reports, ids))
    case 3 => (t: Tables) => t.(auditLog := Unowned(t.auditLog, ids))
    case 4 => (t: Tables) => t.(crawlRuns := Unowned(t.crawlRuns, ids))
    case 5 => (t: Tables) => t.(assetServices := Unowned(t.assetServices, ids))
    case _ => (t: Tables) => t.(tasks := map k | k in t.tasks && k !in ids :: t.tasks[k])
  }

  const STATEMENTS: nat := 7

  function AfterStatements(t: Tables, k: nat, ids: set<TaskId>): Tables
    requires k <= STATEMENTS
  {
    if k == 0 then t else Statement(k - 1, ids)(AfterStatements(t, k - 1, ids))
  }

  /** The seven statements together remove exactly what belongs to the chunk: deleting the
      notifications first is what lets them find their findings. */
  lemma StatementsRemoveChunk(t: Tables, ids: set<TaskId>)
    ensures AfterStatements(t, STATEMENTS, ids) == Without(t, ids)
  {
    var t1 := AfterStatements(t, 1, ids);
    assert t1 == Statement(0, ids)(AfterStatements(t, 0, ids));
    var t2 := AfterStatements(t, 2, ids);
    assert t2 == Statement(1, ids)(t1);
    var t3 := AfterStatements(t, 3, ids);
    assert t3 == Statement(2, ids)(t2);
    var t4 := AfterStatements(t, 4, ids);
    assert t4 == Statement(3, ids)(t3);
    var t5 := AfterStatements(t, 5, ids);
    assert t5 == Statement(4, ids)(t4);
    var t6 := AfterStatements(t, 6, ids);
    assert t6 == Statement(5, ids)(t5);
    assert AfterStatements(t, 7, ids) == Statement(6, ids)(t6);
  }

  lemma UnownedTwice(t: map<RowId, Option<TaskId>>, a: set<TaskId>, b: set<TaskId>)
    ensures Unowned(Unowned(t, a), b) == Unowned(t, a + b)
  {
  }

  /** Chunk after chunk removes what one big deletion would. */
  lemma ChunksCompose(t: Tables, a: set<TaskId>, b: set<TaskId>)
    ensures Without(Without(t, a), b) == Without(t, a + b)
  {
    UnownedTwice(t.findings, a, b);
    UnownedTwice(t.reports, a, b);
    UnownedTwice(t.auditLog, a, b);
    UnownedTwice(t.crawlRuns, a, b);
    UnownedTwice(t.assetServices, a, b);
    var u, v := Without(Without(t, a), b), Without(t, a + b);
    assert u.tasks == v.tasks;
    forall n | n in t.notifications ensures n in u.notifications <==> n in v.notifications {
      assert n in Without(t, a).notifications <==> !NotifiesOf(t, n, a);
    }
    assert u.notifications == v.notifications;
  }

  lemma WithoutNone(t: Tables)
    ensures Without(t, {}) == t
  {
    var u := Without(t, {});
    assert u.tasks == t.tasks && u.findings == t.findings && u.notifications == t.notifications;
    assert u.reports == t.reports && u.auditLog == t.auditLog;
    assert u.crawlRuns == t.crawlRuns && u.assetServices == t.assetServices;
  }

  function Elements(s: seq<TaskId>): set<TaskId> { set x | x in s }

  predicate AnyRunning(t: Tables, ids: set<TaskId>) {
    exists k | k in ids :: k in t.tasks && t.tasks[k]
  }

  // ------------------------------------------------------ the deletion as client code

  /** How each awaited query and statement of the body ends, in their order. */
  type Script = nat -> Call

  function Nothing(): Prog<Tables> { RaiseIf((t: Tables) => false, Works) }

  function ChunkAt(ids: seq<TaskId>, i: nat): set<TaskId>
    requires i <= |ids|
  {
    Elements(ids[i..if i + CHUNK <= |ids| then i + CHUNK else |ids|])
  }

  /** How many chunks there are from index `i` on. */
  function Chunks(ids: seq<TaskId>, i: nat): nat
    decreases |ids| - i
  {
    if i >= |ids| then 0 else 1 + Chunks(ids, i + CHUNK)
  }

  /** The checks for running tasks, from index `i` on; the first is call number `n`. */
  function Checks(ids: seq<TaskId>, i: nat, n: nat, script: Script): Prog<Tables>
    decreases |ids| - i
  {
    if i >= |ids| then Nothing()
    else Seq(RaiseIf((t: Tables) => AnyRunning(t, ChunkAt(ids, i)), script(n)), Checks(ids, i + CHUNK, n + 1, script))
  }

  /** The statements of one chunk from number `k` on; the chunk's first is call number `n`. */
  function Statements(chunk: set<TaskId>, k: nat, n: nat, script: Script): Prog<Tables>
    requires k <= STATEMENTS
    decreases STATEMENTS - k
  {
    if k == STATEMENTS then Nothing()
    else Seq(WriteNoCommit(Statement(k, chunk), script(n + k)), Statements(chunk, k + 1, n, script))
  }

  function Deletes(ids: seq<TaskId>, i: nat, n: nat, script: Script): Prog<Tables>
    decreases |ids| - i
  {
    if i >= |ids| then Nothing()
    else Seq(Statements(ChunkAt(ids, i), 0, n, script), Deletes(ids, i + CHUNK, n + STATEMENTS, script))
  }

  /** The body of the transaction. */
  function Deletion(ids: seq<TaskId>, script: Script): Prog<Tables> {
    Seq(Checks(ids, 0, 0, script), Deletes(ids, 0, Chunks(ids, 0), script))
  }

  /** How calls number `lo` to `hi` - 1 end: as the first of them that does not work. */
  function EndOf(script: Script, lo: nat, hi: nat): Outcome
    requires lo <= hi
    decreases hi - lo
  {
    if lo == hi then Done else if script(lo).Works? then EndOf(script, lo + 1, hi) else Ending(script(lo))
  }

  /** The number of calls of the body. */
  function Total(ids: seq<TaskId>): nat { Chunks(ids, 0) + Chunks(ids, 0) * STATEMENTS }

  // ------------------------------------------------------------------- what it does

  lemma {:induction false} EndJoined(script: Script, lo: nat, mid: nat, hi: nat)
    requires lo <= mid <= hi
    ensures var first := EndOf(script, lo, mid);
            EndOf(script, lo, hi) == if first.Done? then EndOf(script, mid, hi) else first
    decreases mid - lo
  {
    if lo == mid {
    } else if script(lo).Works? {
      EndJoined(script, lo + 1, mid, hi);
    }
  }

  lemma {:induction false} EndDoneIff(script: Script, lo: nat, hi: nat)
    requires lo <= hi
    ensures EndOf(script, lo, hi).Done? <==> forall n | lo <= n < hi :: script(n).Works?
    decreases hi - lo
  {
    if lo == hi {
    } else {
      EndDoneIff(script, lo + 1, hi);
    }
  }

  lemma ElementsSplit(ids: seq<TaskId>, i: nat)
    requires i < |ids|
    ensures Elements(ids[i..]) == ChunkAt(ids, i) + if i + CHUNK <= |ids| then Elements(ids[i + CHUNK..]) else {}
  {
    var end := if i + CHUNK <= |ids| then i + CHUNK else |ids|;
    assert ids[i..] == ids[i..end] + ids[end..];
  }

  function From(ids: seq<TaskId>, i: nat): set<TaskId> { if i <= |ids| then Elements(ids[i..]) else {} }

  /** The checks change nothing.  Unless some id is running they end as their queries do; and they raise for
      a running one if all queries work. */
  lemma {:induction false} ChecksMean(t: Tables, ids: seq<TaskId>, i: nat, n: nat, script: Script)
    ensures var (s, o) := Meaning(t, Checks(ids, i, n, script));
            && s == t
            && (!AnyRunning(t, From(ids, i)) ==> o == EndOf(script, n, n + Chunks(ids, i)))
            && (AnyRunning(t, From(ids, i)) ==> !o.Done?)
            && (AnyRunning(t, From(ids, i)) && EndOf(script, n, n + Chunks(ids, i)).Done? ==> o.Raised?)
    decreases |ids| - i
  {
    if i >= |ids| {
      assert From(ids, i) == {};
    } else {
      ElementsSplit(ids, i);
      ChecksMean(t, ids, i + CHUNK, n + 1, script);
      assert AnyRunning(t, From(ids, i)) <==> AnyRunning(t, ChunkAt(ids, i)) || AnyRunning(t, From(ids, i + CHUNK));
    }
  }

  lemma StatementStep(t: Tables, chunk: set<TaskId>, k: nat, n: nat, script: Script)
    requires k < STATEMENTS
    ensures script(n + k).Works? ==>
              Meaning(t, Statements(chunk, k, n, script))
                == Meaning(Statement(k, chunk)(t), Statements(chunk, k + 1, n, script))
    ensures !script(n + k).Works? ==>
              Meaning(t, Statements(chunk, k, n, script))
                == (if Applied(script(n + k)) then Statement(k, chunk)(t) else t, Ending(script(n + k)))
  {
    var first := WriteNoCommit(Statement(k, chunk), script(n + k));
    assert Statements(chunk, k, n, script) == Seq(first, Statements(chunk, k + 1, n, script));
  }

  lemma DeletesStep(t: Tables, ids: seq<TaskId>, i: nat, n: nat, script: Script)
    requires i < |ids|
    ensures var (s, o) := Meaning(t, Statements(ChunkAt(ids, i), 0, n, script));
            Meaning(t, Deletes(ids, i, n, script))
            == if o.Done? then Meaning(s, Deletes(ids, i + CHUNK, n + STATEMENTS, script)) else (s, o)
  {}

  /** The statements from number `k` on. */
  function Onward(t: Tables, k: nat, ids: set<TaskId>): Tables
    requires k <= STATEMENTS
    decreases STATEMENTS - k
  {
    if k == STATEMENTS then t else Onward(Statement(k, ids)(t), k + 1, ids)
  }

  lemma {:induction false} OnwardIsAfter(t: Tables, k: nat, ids: set<TaskId>)
    requires k <= STATEMENTS
    ensures Onward(AfterStatements(t, k, ids), k, ids) == AfterStatements(t, STATEMENTS, ids)
    decreases STATEMENTS - k
  {
    if k == STATEMENTS {
    } else {
      OnwardIsAfter(t, k + 1, ids);
      AfterOneMore(t, k, ids);
    }
  }

  lemma AfterOneMore(t: Tables, k: nat, ids: set<TaskId>)
    requires k < STATEMENTS
    ensures AfterStatements(t, k + 1, ids) == Statement(k, ids)(AfterStatements(t, k, ids))
  {}

  lemma {:induction false} StatementsMean(t: Tables, chunk: set<TaskId>, k: nat, n: nat, script: Script)
    requires k <= STATEMENTS
    ensures var (s, o) := Meaning(t, Statements(chunk, k, n, script));
            o == EndOf(script, n + k, n + STATEMENTS) && (o.Done? ==> s == Onward(t, k, chunk))
    decreases STATEMENTS - k
  {
    if k == STATEMENTS {
    } else {
      StatementStep(t, chunk, k, n, script);
      StatementsMean(Statement(k, chunk)(t), chunk, k + 1, n, script);
    }
  }

  lemma ChunkMeans(t: Tables, chunk: set<TaskId>, n: nat, script: Script)
    ensures var (s, o) := Meaning(t, Statements(chunk, 0, n, script));
            o == EndOf(script, n, n + STATEMENTS) && (o.Done? ==> s == Without(t, chunk))
  {
    StatementsMean(t, chunk, 0, n, script);
    OnwardIsAfter(t, 0, chunk);
    StatementsRemoveChunk(t, chunk);
  }

  /** The deletions from index `i` on end as their calls do, and then what belongs to their ids is gone. */
  ghost predicate DeletesWell(t: Tables, ids: seq<TaskId>, i: nat, n: nat, script: Script) {
    var (s, o) := Meaning(t, Deletes(ids, i, n, script));
    o == EndOf(script, n, n + Chunks(ids, i) * STATEMENTS) && (o.Done? ==> s == Without(t, From(ids, i)))
  }

  lemma EndOfChunks(ids: seq<TaskId>, i: nat, n: nat)
    requires i < |ids|
    ensures n + Chunks(ids, i) * STATEMENTS == n + STATEMENTS + Chunks(ids, i + CHUNK) * STATEMENTS
  {}

  lemma OneChunkMore(t: Tables, ids: seq<TaskId>, i: nat, n: nat, script: Script)
    requires i < |ids| && DeletesWell(Without(t, ChunkAt(ids, i)), ids, i + CHUNK, n + STATEMENTS, script)
    ensures DeletesWell(t, ids, i, n, script)
  {
    var end := n + STATEMENTS + Chunks(ids, i + CHUNK) * STATEMENTS;
    EndOfChunks(ids, i, n);
    EndJoined(script, n, n + STATEMENTS, end);
    ChunkMeans(t, ChunkAt(ids, i), n, script);
    DeletesStep(t, ids, i, n, script);
    if Meaning(t, Statements(ChunkAt(ids, i), 0, n, script)).1.Done? {
      ChunkAndLater(t, ids, i);
    }
  }

  lemma {:induction false} DeletesMean(t: Tables, ids: seq<TaskId>, i: nat, n: nat, script: Script)
    ensures DeletesWell(t, ids, i, n, script)
    decreases |ids| - i
  {
    if i >= |ids| {
      assert From(ids, i) == {};
      WithoutNone(t);
    } else {
      DeletesMean(Without(t, ChunkAt(ids, i)), ids, i + CHUNK, n + STATEMENTS, script);
      OneChunkMore(t, ids, i, n, script);
    }
  }

  lemma ChunkAndLater(t: Tables, ids: seq<TaskId>, i: nat)
    requires i < |ids|
    ensures Without(Without(t, ChunkAt(ids, i)), From(ids, i + CHUNK)) == Without(t, From(ids, i))
  {
    ElementsSplit(ids, i);
    ChunksCompose(t, ChunkAt(ids, i), From(ids, i + CHUNK));
  }

  /** The body succeeds exactly if none of the ids is running and every call works, and then removes exactly
      what belongs to them.  If none is running it ends as the first call that does not work; if one is, and
      every call works, it raises. */
  lemma DeletionMeans(t: Tables, ids: seq<TaskId>, script: Script)
    ensures var (s, o) := Meaning(t, Deletion(ids, script));
            var running, end := AnyRunning(t, Elements(ids)), EndOf(script, 0, Total(ids));
            && (o.Done? <==> !running && forall n | 0 <= n < Total(ids) :: script(n).Works?)
            && (!running ==> o == end) && (running && end.Done? ==> o.Raised?)
            && (o.Done? ==> s == Without(t, Elements(ids)))
  {
    assert ids[0..] == ids;
    var n := Chunks(ids, 0);
    ChecksMean(t, ids, 0, 0, script);
    DeletesMean(t, ids, 0, n, script);
    EndJoined(script, 0, n, Total(ids));
    EndDoneIff(script, 0, Total(ids));
  }

  /** Deleting on a clean connection, however any query, statement, BEGIN, COMMIT or ROLLBACK ends: the disk
      has lost exactly what belongs to the given ids if the body succeeded and the commit was applied, else it
      has not changed; it shows nothing in between.  The deletion succeeds exactly if none of the ids is
      running and every call works. */
  lemma DeletionIsAtomic(c: Conn<Tables>, ids: seq<TaskId>, script: Script, calls: Calls)
    requires Clean(c)
    ensures var r := Eval(c, Transaction(Deletion(ids, script), calls));
            var o := Meaning(c.durable, Deletion(ids, script)).1;
            && (r.outcome.Done? <==>
                  && calls.begin.Works? && calls.commit.Works? && !AnyRunning(c.durable, Elements(ids))
                  && forall n | 0 <= n < Total(ids) :: script(n).Works?)
            && r.conn.durable == (if Commits(calls, o) then Without(c.durable, Elements(ids)) else c.durable)
            && (r.outcome.Done? ==> Commits(calls, o)) && (r.outcome.Raised? ==> !Commits(calls, o))
            && ShowsOnly(r.seen, c.durable) && r.seen[|r.seen| - 1] == r.conn.durable
            && (Clean(r.conn) <==> LeavesClean(calls, o))
  {
    DeletionMeans(c.durable, ids, script);
    BlockIsAtomic(c, Deletion(ids, script), calls);
    CleanIff(c, Deletion(ids, script), calls, Cancel);
  }

  // ------------------------------------------------------------------- the route's helper

  /** One chunk inside the transaction. */
  method DeleteChunk(db: Database<Tables>, chunk: set<TaskId>, n: nat, script: Script) returns (o: Outcome)
    requires db.inTransaction && db.open
    modifies db
    ensures db.inTransaction && db.open && db.durable == old(db.durable)
    ensures (db.working, o) == Meaning(old(db.working), Statements(chunk, 0, n, script))
  {
    var k := 0;
    ghost var end := Meaning(db.working, Statements(chunk, 0, n, script));
    o := Done;
    while k < STATEMENTS
      invariant k <= STATEMENTS && db.inTransaction && db.open && db.durable == old(db.durable) && o.Done?
      invariant Meaning(db.working, Statements(chunk, k, n, script)) == end
    {
      StatementStep(db.working, chunk, k, n, script);
      o := db.ExecuteNoCommit(Statement(k, chunk), script(n + k));
      if !o.Done? {
        return;
      }
      k := k + 1;
    }
  }

  /** The query is awaited before its answer is looked at. */
  method CheckChunks(db: Database<Tables>, ids: seq<TaskId>, script: Script) returns (o: Outcome, n: nat)
    ensures (db.working, o) == Meaning(db.working, Checks(ids, 0, 0, script))
    ensures o.Done? ==> n == Chunks(ids, 0)
  {
    var i := 0;
    n := 0;
    while i < |ids|
      invariant Meaning(db.working, Checks(ids, i, n, script)) == Meaning(db.working, Checks(ids, 0, 0, script))
      invariant n + Chunks(ids, i) == Chunks(ids, 0)
      decreases |ids| - i
    {
      if !script(n).Works? {
        return Ending(script(n)), n;
      }
      var end := if i + CHUNK <= |ids| then i + CHUNK else |ids|;
      var chunk := ids[i..end];
      if exists k | k in chunk :: k in db.working.tasks && db.working.tasks[k] {
        assert AnyRunning(db.working, ChunkAt(ids, i));
        return Raised, n;
      }
      assert !AnyRunning(db.working, ChunkAt(ids, i));
      i, n := i + CHUNK, n + 1;
    }
    o := Done;
  }

  method DeleteChunks(db: Database<Tables>, ids: seq<TaskId>, first: nat, script: Script) returns (o: Outcome)
    requires db.inTransaction && db.open
    modifies db
    ensures db.inTransaction && db.open && db.durable == old(db.durable)
    ensures (db.working, o) == Meaning(old(db.working), Deletes(ids, 0, first, script))
  {
    var i: nat, n: nat := 0, first;
    ghost var end := Meaning(db.working, Deletes(ids, 0, first, script));
    o := Done;
    while i < |ids|
      invariant db.inTransaction && db.open && db.durable == old(db.durable) && o.Done?
      invariant Meaning(db.working, Deletes(ids, i, n, script)) == end
      decreases |ids| - i
    {
      DeletesStep(db.working, ids, i, n, script);
      o := DeleteChunk(db, ChunkAt(ids, i), n, script);
      if !o.Done? {
        return;
      }
      i, n := i + CHUNK, n + STATEMENTS;
    }
  }

  /** `delete_task_records`: the deletion inside the transaction's context manager. */
  method DeleteTaskRecords(db: Database<Tables>, ids: seq<TaskId>, script: Script, calls: Calls)
    returns (o: Outcome)
    requires Clean(db.Snapshot())
    modifies db
    ensures ids == [] ==> o.Done? && db.Snapshot() == old(db.Snapshot())
    ensures ids != [] ==>
              var r := Eval(old(db.Snapshot()), Transaction(Deletion(ids, script), calls));
              db.Snapshot() == r.conn && o == r.outcome
  {
    if ids == [] {
      return Done;
    }
    BodyInside(db.Snapshot(), Deletion(ids, script));
    ghost var body := Eval(db.Snapshot().(open := true, flag := true), Deletion(ids, script));
    o := db.Begin(calls.begin);
    if !o.Done? {
      return;
    }
    var n: nat;
    o, n := CheckChunks(db, ids, script);
    if o.Done? {
      o := DeleteChunks(db, ids, n, script);
    }
    assert body == Result(db.Snapshot(), o, body.seen);
    o := db.Finish(o, calls);
  }

  // -------------------------------------------------------------- what goes, row by row

  /** A table of rows that name their task keeps exactly those that name none of the given ids. */
  ghost predicate KeepsOthers(was: map<RowId, Option<TaskId>>, rows: map<RowId, Option<TaskId>>, ids: seq<TaskId>) {
    forall r :: (r in rows <==> r in was && forall id | id in ids :: was[r] != Some(id))
                && (r in rows ==> rows[r] == was[r])
  }

  ghost predicate KeepsTasks(was: map<TaskId, bool>, tasks: map<TaskId, bool>, ids: seq<TaskId>) {
    forall k :: (k in tasks <==> k in was && k !in ids) && (k in tasks ==> tasks[k] == was[k])
  }

  /** What a deletion that succeeds removes: the given tasks, all rows that name one of them, and the
      notifications of their findings; everything else stays as it was. */
  lemma DeletionRemovesExactly(t: Tables, ids: seq<TaskId>, script: Script)
    requires Meaning(t, Deletion(ids, script)).1.Done?
    ensures var u := Meaning(t, Deletion(ids, script)).0;
            && KeepsTasks(t.tasks, u.tasks, ids)
            && KeepsOthers(t.findings, u.findings, ids) && KeepsOthers(t.reports, u.reports, ids)
            && KeepsOthers(t.auditLog, u.auditLog, ids) && KeepsOthers(t.crawlRuns, u.crawlRuns, ids)
            && KeepsOthers(t.assetServices, u.assetServices, ids)
    ensures var u := Meaning(t, Deletion(ids, script)).0;
            forall n :: (n in u.notifications <==>
                           n in t.notifications
                           && (t.notifications[n] in t.findings ==> t.notifications[n] in u.findings))
                        && (n in u.notifications ==> u.notifications[n] == t.notifications[n])
  {
    DeletionMeans(t, ids, script);
    WithoutKeeps(t, ids);
  }

  lemma UnownedKeeps(t: map<RowId, Option<TaskId>>, ids: seq<TaskId>)
    ensures KeepsOthers(t, Unowned(t, Elements(ids)), ids)
  {}

  lemma WithoutKeeps(t: Tables, ids: seq<TaskId>)
    ensures var u := Without(t, Elements(ids));
            && KeepsTasks(t.tasks, u.tasks, ids)
            && KeepsOthers(t.findings, u.findings, ids) && KeepsOthers(t.reports, u.reports, ids)
            && KeepsOthers(t.auditLog, u.auditLog, ids) && KeepsOthers(t.crawlRuns, u.crawlRuns, ids)
            && KeepsOthers(t.assetServices, u.assetServices, ids)
  {
    UnownedKeeps(t.findings, ids);
    UnownedKeeps(t.reports, ids);
    UnownedKeeps(t.auditLog, ids);
    UnownedKeeps(t.crawlRuns, ids);
    UnownedKeeps(t.assetServices, ids);
  }

  /** With every call working, the deletion is refused exactly if one of the given tasks is running. */
  lemma RefusedIffRunning(t: Tables, ids: seq<TaskId>, script: Script)
    requires forall n :: script(n).Works?
    ensures Meaning(t, Deletion(ids, script)).1.Raised? <==> exists id | id in ids :: id in t.tasks && t.tasks[id]
    ensures !Meaning(t, Deletion(ids, script)).1.Cancelled?
  {
    DeletionMeans(t, ids, script);
    EndDoneIff(script, 0, Total(ids));
  }
}
